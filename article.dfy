/**
 * Articles: the value an article is made of, the collapsed summary shown for
 * its description, and the article built from the submitted form.
 */
module Article {
  import opened JsText

  /** A favourite-thing article. */
  datatype Item = Item(title: string, description: seq<string>, imageUrl: string, imageAlt: string)

  /** The longest joined description shown in full when collapsed. */
  const SUMMARY_LIMIT := 100
  /** Where the search for a space to cut a long description at starts. */
  const CUT_SEARCH_START := 95
  /** What follows a cut description. */
  const ELLIPSIS := " ..."
  /** What separates paragraphs in the description text area. */
  const PARAGRAPH_BREAK := "\n\n"

  /** `s` is a proper prefix of `t`. */
  predicate IsProperPrefix(s: string, t: string) {
    |s| < |t| && s == t[..|s|]
  }

  /**
   * The collapsed description of an article: the paragraphs joined with single
   * spaces; when that is longer than the limit, the text up to the first space
   * at or after the search start, followed by the ellipsis. When there is no
   * such space, `indexOf` gives -1 and `slice(0, -1)` drops only the last character.
   */
  function ShortDescription(description: seq<string>): (r: string)
    ensures var full := Join(description, " ");
            r == full || (|r| >= |ELLIPSIS| && r[|r| - |ELLIPSIS|..] == ELLIPSIS
                          && IsProperPrefix(r[..|r| - |ELLIPSIS|], full))
  {
    var full := Join(description, " ");
    if |full| <= SUMMARY_LIMIT then full
    else
      var cut := Slice(full, 0, IndexOf(full, ' ', CUT_SEARCH_START));
      cut + ELLIPSIS
  }

  /** A description whose joined text fits the limit is shown unchanged. */
  lemma ShortDescriptionFits(description: seq<string>)
    requires |Join(description, " ")| <= SUMMARY_LIMIT
    ensures ShortDescription(description) == Join(description, " ")
  {
  }

  /**
   * A longer description is cut at the first space at or after the search
   * start, and the ellipsis follows.
   */
  lemma ShortDescriptionCutsAtSpace(description: seq<string>, k: nat)
    requires var full := Join(description, " ");
             && |full| > SUMMARY_LIMIT && CUT_SEARCH_START <= k < |full| && full[k] == ' '
             && forall j :: CUT_SEARCH_START <= j < k ==> full[j] != ' '
    ensures var full := Join(description, " ");
            ShortDescription(description) == full[..k] + ELLIPSIS
  {
  }

  /**
   * A longer description with no space at or after the search start loses
   * its last character and gains the ellipsis: the summary is then longer
   * than the full text.
   */
  lemma ShortDescriptionWithoutLateSpace(description: seq<string>)
    requires var full := Join(description, " ");
             && |full| > SUMMARY_LIMIT
             && forall j :: CUT_SEARCH_START <= j < |full| ==> full[j] != ' '
    ensures var full := Join(description, " ");
            && ShortDescription(description) == full[..|full| - 1] + ELLIPSIS
            && |ShortDescription(description)| == |full| + 3
  {
  }

  /** The fields of the add-article form, by name. */
  datatype FormFields = FormFields(title: string, imageUrl: string, imageAlt: string, description: string)

  /** `p` ends in a line break. */
  predicate EndsWithLineBreak(p: string) {
    |p| > 0 && p[|p| - 1] == '\n'
  }

  /** Between paragraphs, ending clear of the paragraph break means not ending in a line break. */
  lemma EndsClearOfBreak(p: string)
    ensures EndsClear(p, PARAGRAPH_BREAK) <==>
            NoOccurrenceBefore(p, PARAGRAPH_BREAK, |p|) && !EndsWithLineBreak(p)
  {
    var t := p + PARAGRAPH_BREAK;
    forall j: nat | j + 2 <= |p| ensures OccursAt(t, PARAGRAPH_BREAK, j) == OccursAt(p, PARAGRAPH_BREAK, j) {
      assert t[j..j + 2] == p[j..j + 2];
    }
    if |p| > 0 {
      var j := |p| - 1;
      assert t[j..j + 2] == [p[j], '\n'];
      assert OccursAt(t, PARAGRAPH_BREAK, j) == EndsWithLineBreak(p);
    }
  }

  /**
   * The paragraphs of the description text area: the text trimmed, then split
   * at every paragraph break, leftmost first. There is always at least one
   * paragraph, joining them again gives the trimmed text, none contains a
   * paragraph break, and none but the last ends in a line break.
   */
  function ParseDescription(text: string): (paragraphs: seq<string>)
    ensures |paragraphs| >= 1
    ensures Join(paragraphs, PARAGRAPH_BREAK) == Trim(text)
    ensures forall p, j: nat :: p in paragraphs ==> !OccursAt(p, PARAGRAPH_BREAK, j)
    ensures forall k :: 0 <= k < |paragraphs| - 1 ==> !EndsWithLineBreak(paragraphs[k])
  {
    var paragraphs := Split(Trim(text), PARAGRAPH_BREAK);
    SplitThenJoin(Trim(text), PARAGRAPH_BREAK);
    SplitPiecesAvoidSeparator(Trim(text), PARAGRAPH_BREAK);
    SplitIsSeparated(Trim(text), PARAGRAPH_BREAK);
    assert forall k :: 0 <= k < |paragraphs| - 1 ==> !EndsWithLineBreak(paragraphs[k]) by {
      forall k | 0 <= k < |paragraphs| - 1 ensures !EndsWithLineBreak(paragraphs[k]) {
        EndsClearOfBreak(paragraphs[k]);
      }
    }
    paragraphs
  }

  /**
   * The converse: paragraphs that contain no paragraph break, of which none
   * but the last ends in a line break, typed into the text area separated by
   * paragraph breaks with no whitespace at either end, come back unchanged.
   */
  lemma ParseDescriptionOfJoined(paragraphs: seq<string>)
    requires |paragraphs| >= 1
    requires forall p, j: nat :: p in paragraphs ==> !OccursAt(p, PARAGRAPH_BREAK, j)
    requires forall k :: 0 <= k < |paragraphs| - 1 ==> !EndsWithLineBreak(paragraphs[k])
    requires IsTrimmed(Join(paragraphs, PARAGRAPH_BREAK))
    ensures ParseDescription(Join(paragraphs, PARAGRAPH_BREAK)) == paragraphs
  {
    forall k | 0 <= k < |paragraphs| - 1 ensures EndsClear(paragraphs[k], PARAGRAPH_BREAK) {
      assert paragraphs[k] in paragraphs;
      EndsClearOfBreak(paragraphs[k]);
    }
    assert paragraphs[|paragraphs| - 1] in paragraphs;
    assert Separated(paragraphs, PARAGRAPH_BREAK);
    TrimTrimmed(Join(paragraphs, PARAGRAPH_BREAK));
    JoinThenSplit(paragraphs, PARAGRAPH_BREAK);
  }

  /**
   * The article a form submission builds: the three single-line fields as
   * entered and the description parsed into paragraphs.
   */
  function FormItem(fields: FormFields): (item: Item)
    ensures item.title == fields.title
    ensures item.imageUrl == fields.imageUrl && item.imageAlt == fields.imageAlt
    ensures |item.description| >= 1
    ensures Join(item.description, PARAGRAPH_BREAK) == Trim(fields.description)
    ensures item.description == ParseDescription(fields.description)
  {
    Item(fields.title, ParseDescription(fields.description), fields.imageUrl, fields.imageAlt)
  }
}
