/**
 * The JavaScript string and array built-ins the article browser relies on,
 * with the semantics the ECMAScript standard gives them, in the forms the
 * component uses: `String.prototype.trim`, `Array.prototype.join`,
 * `String.prototype.split` with a non-empty separator,
 * `String.prototype.indexOf` searching for a single character from a
 * non-negative start position, and `String.prototype.slice`.
 */
module JsText {
  import opened Wrappers

  /** WhiteSpace and LineTerminator code points, the characters `trim` removes. */
  predicate IsWhitespace(c: char) {
    var n := c as int;
    || n == 0x09 || n == 0x0A || n == 0x0B || n == 0x0C || n == 0x0D
    || n == 0x20 || n == 0xA0 || n == 0x1680 || (0x2000 <= n <= 0x200A)
    || n == 0x2028 || n == 0x2029 || n == 0x202F || n == 0x205F
    || n == 0x3000 || n == 0xFEFF
  }

  /** Neither end of `s` is whitespace. */
  predicate IsTrimmed(s: string) {
    s == [] || (!IsWhitespace(s[0]) && !IsWhitespace(s[|s| - 1]))
  }

  /** The number of whitespace characters at the start of `s`. */
  function LeadingWhitespace(s: string): (n: nat)
    ensures n <= |s|
    ensures forall i :: 0 <= i < n ==> IsWhitespace(s[i])
    ensures n < |s| ==> !IsWhitespace(s[n])
  {
    if s != [] && IsWhitespace(s[0]) then
      var m := LeadingWhitespace(s[1..]);
      assert forall i :: 1 <= i < 1 + m ==> s[i] == s[1..][i - 1];
      1 + m
    else 0
  }

  /** The number of whitespace characters at the end of `s`. */
  function TrailingWhitespace(s: string): (n: nat)
    ensures n <= |s|
    ensures forall i :: |s| - n <= i < |s| ==> IsWhitespace(s[i])
    ensures n < |s| ==> !IsWhitespace(s[|s| - 1 - n])
  {
    if s != [] && IsWhitespace(s[|s| - 1]) then
      1 + TrailingWhitespace(s[..|s| - 1])
    else 0
  }

  /**
   * `s.trim()`: the infix of `s` left once the whitespace at both ends is
   * removed. The result is trimmed, and everything cut off is whitespace.
   */
  function Trim(s: string): (r: string)
    ensures IsTrimmed(r)
    ensures LeadingWhitespace(s) + |r| <= |s|
    ensures r == s[LeadingWhitespace(s)..LeadingWhitespace(s) + |r|]
    ensures forall i :: 0 <= i < LeadingWhitespace(s) ==> IsWhitespace(s[i])
    ensures forall i :: LeadingWhitespace(s) + |r| <= i < |s| ==> IsWhitespace(s[i])
  {
    var rest := s[LeadingWhitespace(s)..];
    rest[..|rest| - TrailingWhitespace(rest)]
  }

  /** Trimming text that is already trimmed changes nothing. */
  lemma TrimTrimmed(s: string)
    requires IsTrimmed(s)
    ensures Trim(s) == s
  {
  }

  /** `parts.join(sep)`: the parts with `sep` between neighbours; `""` for no parts. */
  function Join(parts: seq<string>, sep: string): string
    decreases |parts|
  {
    if |parts| == 0 then ""
    else if |parts| == 1 then parts[0]
    else parts[0] + sep + Join(parts[1..], sep)
  }

  /** A join of no parts is empty; otherwise it starts with the first part and ends with the last. */
  lemma {:induction false} JoinEnds(parts: seq<string>, sep: string)
    ensures |parts| == 0 ==> Join(parts, sep) == ""
    ensures |parts| >= 1 ==> var r := Join(parts, sep);
            && |parts[0]| <= |r| && r[..|parts[0]|] == parts[0]
            && |parts[|parts| - 1]| <= |r| && r[|r| - |parts[|parts| - 1]|..] == parts[|parts| - 1]
    decreases |parts|
  {
    if |parts| > 1 {
      JoinEnds(parts[1..], sep);
      assert parts[1..][|parts[1..]| - 1] == parts[|parts| - 1];
    }
  }

  /** Joining a part in front of at least one more puts the separator after it. */
  lemma JoinCons(p: string, rest: seq<string>, sep: string)
    requires |rest| >= 1
    ensures Join([p] + rest, sep) == p + sep + Join(rest, sep)
  {
    assert ([p] + rest)[1..] == rest;
  }

  /** A join is as long as all its parts plus one separator between each two. */
  lemma {:induction false} JoinLength(parts: seq<string>, sep: string)
    requires |parts| >= 1
    ensures |Join(parts, sep)| == TotalLength(parts) + (|parts| - 1) * |sep|
    decreases |parts|
  {
    if |parts| > 1 {
      JoinLength(parts[1..], sep);
    }
  }

  /** The sum of the lengths of the parts. */
  function TotalLength(parts: seq<string>): nat
    decreases |parts|
  {
    if parts == [] then 0 else |parts[0]| + TotalLength(parts[1..])
  }

  /** `sep` occurs in `s` starting at index `i`. */
  predicate OccursAt(s: string, sep: string, i: nat) {
    i + |sep| <= |s| && s[i..i + |sep|] == sep
  }

  /** The first index at or after `k` where `sep` occurs in `s`, if any. */
  function FindFrom(s: string, sep: string, k: nat): (r: Option<nat>)
    requires |sep| > 0
    ensures r.Some? ==> k <= r.value && OccursAt(s, sep, r.value)
    ensures forall j: nat :: k <= j && (r.None? || j < r.value) ==> !OccursAt(s, sep, j)
    decreases |s| - k
  {
    if k + |sep| > |s| then None
    else if s[k..k + |sep|] == sep then Some(k)
    else FindFrom(s, sep, k + 1)
  }

  /**
   * `s.split(sep)` for a non-empty `sep`: the pieces between the occurrences
   * of `sep` found scanning left to right, never overlapping.
   */
  function Split(s: string, sep: string): (parts: seq<string>)
    requires |sep| > 0
    ensures |parts| >= 1
    decreases |s|
  {
    match FindFrom(s, sep, 0)
    case None => [s]
    case Some(i) => [s[..i]] + Split(s[i + |sep|..], sep)
  }

  /** Joining the pieces of a split with the same separator gives back the text. */
  lemma {:induction false} SplitThenJoin(s: string, sep: string)
    requires |sep| > 0
    ensures Join(Split(s, sep), sep) == s
    decreases |s|
  {
    match FindFrom(s, sep, 0)
    case None =>
      assert Split(s, sep) == [s];
    case Some(i) =>
      var head, tail := s[..i], s[i + |sep|..];
      var rest := Split(tail, sep);
      SplitThenJoin(tail, sep);
      assert Split(s, sep) == [head] + rest;
      JoinCons(head, rest, sep);
      assert s[i..i + |sep|] == sep;
      assert s == head + sep + tail;
  }

  /** A piece of `s` that sits before the first occurrence at or after 0 holds no occurrence. */
  lemma PrefixAvoids(s: string, sep: string, i: nat, j: nat)
    requires |sep| > 0 && i <= |s|
    requires forall m: nat :: m < i ==> !OccursAt(s, sep, m)
    ensures !OccursAt(s[..i], sep, j)
  {
    if OccursAt(s[..i], sep, j) {
      assert s[..i][j..j + |sep|] == s[j..j + |sep|];
      assert OccursAt(s, sep, j);
    }
  }

  /** No piece of a split contains the separator. */
  lemma {:induction false} SplitPiecesAvoidSeparator(s: string, sep: string)
    requires |sep| > 0
    ensures forall p, j: nat :: p in Split(s, sep) ==> !OccursAt(p, sep, j)
    decreases |s|
  {
    match FindFrom(s, sep, 0)
    case None =>
      assert Split(s, sep) == [s];
    case Some(i) =>
      SplitPiecesAvoidSeparator(s[i + |sep|..], sep);
      assert Split(s, sep) == [s[..i]] + Split(s[i + |sep|..], sep);
      forall j: nat ensures !OccursAt(s[..i], sep, j) {
        PrefixAvoids(s, sep, i, j);
      }
  }

  /** No occurrence of `sep` in `t` starts before index `n`. */
  predicate NoOccurrenceBefore(t: string, sep: string, n: nat) {
    forall j: nat :: j < n ==> !OccursAt(t, sep, j)
  }

  /**
   * Nothing in `p` followed by the separator is an occurrence of it except
   * that separator itself: `p` holds none, and none straddles its end.
   */
  predicate EndsClear(p: string, sep: string) {
    NoOccurrenceBefore(p + sep, sep, |p|)
  }

  /**
   * `parts` are exactly what a left-to-right split would cut: every part but
   * the last ends clear of the separator that follows it, and the last part
   * holds no occurrence of it.
   */
  predicate Separated(parts: seq<string>, sep: string) {
    && |parts| >= 1
    && (forall k :: 0 <= k < |parts| - 1 ==> EndsClear(parts[k], sep))
    && NoOccurrenceBefore(parts[|parts| - 1], sep, |parts[|parts| - 1]|)
  }

  /** The text before the first occurrence of the separator ends clear of it. */
  lemma FirstPieceEndsClear(s: string, sep: string, i: nat)
    requires OccursAt(s, sep, i) && NoOccurrenceBefore(s, sep, i)
    ensures EndsClear(s[..i], sep)
  {
    var t := s[..i + |sep|];
    assert t == s[..i] + sep;
    forall j: nat | j < i ensures !OccursAt(t, sep, j) {
      assert t[j..j + |sep|] == s[j..j + |sep|];
      assert !OccursAt(s, sep, j);
    }
  }

  /** A part that ends clear, put in front of separated parts, keeps them separated. */
  lemma SeparatedCons(p: string, rest: seq<string>, sep: string)
    requires EndsClear(p, sep) && Separated(rest, sep)
    ensures Separated([p] + rest, sep)
  {
  }

  /** The pieces of a split are separated: the split cuts at the leftmost occurrences. */
  lemma {:induction false} SplitIsSeparated(s: string, sep: string)
    requires |sep| > 0
    ensures Separated(Split(s, sep), sep)
    decreases |s|
  {
    match FindFrom(s, sep, 0)
    case None =>
      assert Split(s, sep) == [s];
    case Some(i) =>
      SplitIsSeparated(s[i + |sep|..], sep);
      FirstPieceEndsClear(s, sep, i);
      SeparatedCons(s[..i], Split(s[i + |sep|..], sep), sep);
  }

  /** Splitting separated parts, joined with the separator, gives the parts back. */
  lemma {:induction false} JoinThenSplit(parts: seq<string>, sep: string)
    requires |sep| > 0 && Separated(parts, sep)
    ensures Split(Join(parts, sep), sep) == parts
    decreases |parts|
  {
    var s := Join(parts, sep);
    var p0 := parts[0];
    if |parts| == 1 {
      assert FindFrom(s, sep, 0).None?;
    } else {
      var rest := Join(parts[1..], sep);
      JoinCons(p0, parts[1..], sep);
      assert parts == [p0] + parts[1..];
      assert s == p0 + sep + rest;
      assert s[..|p0| + |sep|] == p0 + sep;
      assert OccursAt(s, sep, |p0|) by {
        assert s[|p0|..|p0| + |sep|] == sep;
      }
      forall j: nat | j < |p0| ensures !OccursAt(s, sep, j) {
        assert EndsClear(p0, sep);
        assert !OccursAt(p0 + sep, sep, j);
        var t := s[..|p0| + |sep|];
        assert t[j..j + |sep|] == s[j..j + |sep|];
      }
      var i := |p0|;
      assert FindFrom(s, sep, 0) == Some(i);
      assert s[..i] == p0;
      assert s[i + |sep|..] == rest;
      assert Separated(parts[1..], sep) by {
        forall k | 0 <= k < |parts[1..]| - 1 ensures EndsClear(parts[1..][k], sep) {
          assert parts[1..][k] == parts[k + 1];
        }
      }
      JoinThenSplit(parts[1..], sep);
      assert parts == [p0] + parts[1..];
    }
  }

  /** The first index at or after `k` holding `c`, or -1. */
  function FirstFrom(s: string, c: char, k: nat): (r: int)
    requires k <= |s|
    ensures r == -1 || (k <= r < |s| && s[r] == c)
    ensures forall j :: k <= j < |s| && (r == -1 || j < r) ==> s[j] != c
    decreases |s| - k
  {
    if k == |s| then -1
    else if s[k] == c then k
    else FirstFrom(s, c, k + 1)
  }

  /** How `indexOf` and `slice` turn a possibly negative or too large index into a position. */
  function Clamp(i: int, len: nat): (n: nat)
    ensures n <= len
    ensures 0 <= i <= len ==> n == i
    ensures i < 0 && 0 <= len + i ==> n == len + i
  {
    if i < 0 then (if len + i < 0 then 0 else len + i)
    else if i > len then len
    else i
  }

  /**
   * `s.indexOf(c, position)`: the first index at or after `position` holding
   * `c`, or -1 when there is none.
   */
  function IndexOf(s: string, c: char, position: int): (r: int)
    requires 0 <= position
    ensures r == -1 || (position <= r < |s| && s[r] == c)
    ensures r == -1 <==> forall j :: position <= j < |s| ==> s[j] != c
    ensures forall j :: position <= j < r ==> s[j] != c
  {
    FirstFrom(s, c, if position > |s| then |s| else position)
  }

  /**
   * `s.slice(start, end)`: a negative index counts from the end of `s`;
   * the result is empty when the start does not precede the end.
   */
  function Slice(s: string, start: int, end: int): (r: string)
    ensures |r| <= |s|
    ensures 0 <= start <= end <= |s| ==> r == s[start..end]
    ensures 0 <= start <= |s| + end && end < 0 ==> r == s[start..|s| + end]
  {
    var from := Clamp(start, |s|);
    var to := Clamp(end, |s|);
    if from < to then s[from..to] else ""
  }
}
