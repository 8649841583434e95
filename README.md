# Article browser state, modelled in Dafny

A model of the logic in the "My Favourite Things" article browser, a React
component that lists articles (title, image, description paragraphs) and
lets the user add one through a form. Three pieces of it carry logic:

- **The collapsed description** (`shortDescription`). The paragraphs are
  joined with single spaces. A text of at most 100 characters is shown as is.
  A longer one is cut at the first space at or after index 95 and followed by
  `" ..."`. When no such space exists, `indexOf` yields -1 and `slice(0, -1)`
  drops only the last character, so the "short" text ends up three characters
  longer than the full one. The model reproduces this behaviour as written
  and proves it (`Article.ShortDescriptionWithoutLateSpace`).
- **The article built from the add form.** The description text area is
  trimmed and split at every blank line (`"\n\n"`). The form always yields at
  least one paragraph. Re-joining the paragraphs gives the trimmed text. The
  parse is characterised exactly: a non-empty list of paragraphs comes back unchanged
  from the text area if and only if none of them contains a blank line, none
  but the last ends in a line break, and the joined text has no whitespace at
  either end.
- **The browser's state machine.** The state is the article list, whether the
  form is open, whether a submission is in flight, the form's error message,
  and whether a failure was escalated to the error boundary. The transitions
  are the initial load, opening and closing the form, the form's submit
  handler (ignored while a submission is in flight) and the add handler, which
  settles on one of three channels: a business error, a stored article, or a
  thrown exception.

Modules:

- `Wrappers` (`wrappers.dfy`): `Option`, used for JavaScript's `undefined`.
- `JsText` (`js_text.dfy`): the JavaScript built-ins the component calls,
  with their ECMAScript semantics, in the forms the component uses: `trim`,
  `join`, `split` with a non-empty separator, `indexOf` searching for a single
  character from a non-negative start position, and `slice`.
- `Article` (`article.dfy`): the `Item` value, `ShortDescription`, the parse of
  the description text area and the article built from the form.
- `Browser` (`browser.dfy`): the class `ArticleBrowser`, whose methods update
  its fields as the component's state setters do. Its state as a value is
  `View`. The postconditions of `Load`, `ShowForm` and `HideForm` give their
  new state as the old one with one field replaced. Those of the other
  methods tie the new state to a pure function (`Closed`, `Begun`, `Settled`,
  `Added`, `Submitted`). `Step` and `Run` compose these functions over a
  sequence of user events. An escalated failure ends the run, since the error
  boundary then replaces the browser. The lemmas are stated about these
  functions.

The item service's submit call is not defined in `src/service.ts`, so its
behaviour is a parameter: `submit: Item -> SubmitResult`, where
`SubmitResult = Error(message) | Success(item) | Thrown`. The add handler is
split at its `await`. `BeginAdd` is the part before the call, `FinishAdd` the
part after it, and `HandleAdd` runs both. A scenario like
`OverlappingSubmissions` can then place a second submission inside the window
in which the first one is pending.

## Model

| member | source | states |
|---|---|---|
| `JsText.JoinEnds` | src/ArticleBrowser.tsx:39 | the joined text is empty for no parts; otherwise it starts with the first part and ends with the last |
| `JsText.JoinLength` | src/ArticleBrowser.tsx:39 | a join is as long as all its parts plus one separator between each two |
| `JsText.Trim` | src/ArticleBrowser.tsx:96 | the result is the infix of the text left after removing whitespace at both ends: its own ends are not whitespace and everything removed is whitespace |
| `JsText.TrimTrimmed` | src/ArticleBrowser.tsx:96 | trimming text with no whitespace at its ends returns it unchanged |
| `JsText.Split` | src/ArticleBrowser.tsx:97 | splitting always yields at least one piece, even for empty text |
| `JsText.SplitThenJoin` | src/ArticleBrowser.tsx:95-97 | joining the pieces of a split with the same separator gives back the original text |
| `JsText.SplitPiecesAvoidSeparator` | src/ArticleBrowser.tsx:97 | no piece of a split contains the separator |
| `JsText.SplitIsSeparated` | src/ArticleBrowser.tsx:97 | the split cuts at the leftmost occurrences: no piece contains the separator, and no occurrence straddles the end of a piece and the separator after it |
| `JsText.JoinThenSplit` | src/ArticleBrowser.tsx:95-97 | splitting joined parts gives the parts back whenever they are separated in that sense, so the split is the only separated list that joins to the text |
| `JsText.IndexOf` | src/ArticleBrowser.tsx:41 | the result is the first index at or after the start position holding the character, and it is -1 exactly when there is none |
| `JsText.Slice` | src/ArticleBrowser.tsx:41 | a slice between valid indices is that subsequence; a negative end counts from the end of the text |
| `Article.ShortDescription` | src/ArticleBrowser.tsx:38-42 | the summary is the joined text itself, or a proper prefix of it followed by `" ..."` |
| `Article.ShortDescriptionFits` | src/ArticleBrowser.tsx:39-40 | a description whose space-joined text has at most 100 characters is shown unchanged |
| `Article.ShortDescriptionCutsAtSpace` | src/ArticleBrowser.tsx:41 | a longer text with its first space at or after index 95 at `k` becomes `text[..k] + " ..."` |
| `Article.ShortDescriptionWithoutLateSpace` | src/ArticleBrowser.tsx:41 | a longer text with no space at or after index 95 becomes the text minus its last character plus `" ..."`, three characters longer than the text |
| `Article.EndsClearOfBreak` | src/ArticleBrowser.tsx:97 | for the blank-line separator, a paragraph ends clear of the separator after it exactly when it holds no blank line and does not end in a line break |
| `Article.ParseDescription` | src/ArticleBrowser.tsx:95-97 | the paragraph list is never empty, re-joined with blank lines it equals the trimmed text, no paragraph contains a blank line, and none but the last ends in a line break |
| `Article.ParseDescriptionOfJoined` | src/ArticleBrowser.tsx:95-97 | the converse: one or more paragraphs with no blank line, none but the last ending in a line break, joined with blank lines into text with no whitespace at either end, parse back to the same paragraphs |
| `Article.FormItem` | src/ArticleBrowser.tsx:90-98 | the submitted article takes the title and image fields as entered, and its description is the parse of the text area: a non-empty paragraph list that re-joins to the trimmed description |
| `Browser.AddedSuccess` | src/ArticleBrowser.tsx:205-206 | on a stored article the list becomes that article followed by the old list, the form is closed, the error is cleared and nothing is left submitting |
| `Browser.AddedError` | src/ArticleBrowser.tsx:202-203 | on a business error the list and the form are unchanged, the error is the message and nothing is left submitting |
| `Browser.AddedThrown` | src/ArticleBrowser.tsx:208-211 | on a thrown exception the list and the form are unchanged, the failure is escalated and nothing is left submitting |
| `Browser.SubmittedWhilePending` | src/ArticleBrowser.tsx:88 | a submission while one is in flight leaves the whole state unchanged |
| `Browser.EscalatedRunIsFrozen` | src/ArticleBrowser.tsx:208-209 | once a failure is escalated to the error boundary, no further event changes the state |
| `Browser.StepStores` | src/ArticleBrowser.tsx:192-213 | one event with nothing in flight and nothing escalated prepends what it stores, leaves nothing in flight, and escalates exactly when it is a submission whose call throws |
| `Browser.RunPrependsStored` | src/ArticleBrowser.tsx:192-213 | over any sequence of opening, closing and submitting, the list is the articles stored before the first thrown call, newest first, followed by the old list; nothing is left submitting; the run ends escalated exactly when some call throws |
| `Browser.ArticleBrowser.constructor` | src/ArticleBrowser.tsx:175-189 | the list is empty, the form is closed, nothing is submitting, there is no error and nothing is escalated |
| `Browser.ArticleBrowser.Load` | src/ArticleBrowser.tsx:180-181 | the list becomes the fetched articles in their order and nothing else changes |
| `Browser.ArticleBrowser.ShowForm` | src/ArticleBrowser.tsx:17-22 | the form becomes visible and nothing else changes |
| `Browser.ArticleBrowser.HideForm` | src/ArticleBrowser.tsx:17-22 | the form becomes hidden and nothing else changes |
| `Browser.ArticleBrowser.CloseForm` | src/ArticleBrowser.tsx:192-195 | the form is hidden, its error is cleared and nothing else changes |
| `Browser.ArticleBrowser.BeginAdd` | src/ArticleBrowser.tsx:198-199 | on entry the error is cleared and a submission is marked in flight |
| `Browser.ArticleBrowser.FinishAdd` | src/ArticleBrowser.tsx:200-212 | the new state is the one its channel settles on, with nothing left submitting |
| `Browser.ArticleBrowser.HandleAdd` | src/ArticleBrowser.tsx:197-213 | the new state is the settled state of the submit call's result for this article |
| `Browser.ArticleBrowser.HandleSubmit` | src/ArticleBrowser.tsx:86-99 | while a submission is in flight nothing is sent and nothing changes; otherwise the article built from the fields is sent and the add handler runs |
| `Browser.OverlappingSubmissions` | src/ArticleBrowser.tsx:88 | a second submission during a pending one sends nothing and leaves the list as loaded; the first one's success then prepends its article alone |
| `Browser.AddBeforeLoad` | src/ArticleBrowser.tsx:177-184 | an article added while the initial load is still pending is lost, because the fetched list then overwrites the list |
| `Browser.CancelWhilePending` | src/ArticleBrowser.tsx:192-213 | cancelling during a submission does not stop it: a later business error reappears when the form is reopened, and a later success is still prepended |

## Left out

- Rendering is not modelled: the markup, the article's expand toggle, the list's scroll-to-top and its `isLoadedRef` effects, the spinner, the toast, and the error boundary's fallback screen. The boundary is reduced to the `escalated` flag.
- `fetchItems` is not modelled. It wraps the network call and maps an aborted request to an empty list. Its result is the `data` argument of `Load`. A rejected fetch never reaches `setItems`; it goes through the transition to the error boundary, and the model has no transition for it.
- `useTransition`, `isLoading` and the abort on unmount are React scheduling and cancellation, and are not modelled.
- The `required` and `pattern` checks on the form inputs are done by the browser's HTML engine, not by the component; the model accepts any field text.
- Reading a form field by name always yields a string here (every field is present in the form), so the `null` case of `FormData.get` is not modelled.
- The submit call of the item service has no definition in `src/service.ts`, so its behaviour is the `submit` parameter.
- The mock layer (`src/mocks`), the bootstrap (`src/main.tsx`) and the build configuration are not modelled.
- React applies queued state updates on the next render, and the form reads `submitting` from the last render. The model applies each update at once and reads the current value.
- Strings are sequences of Unicode scalar values. JavaScript counts UTF-16 code units, so lengths and indices agree only for text inside the Basic Multilingual Plane.
- JsText.Split: models `split` only for a non-empty separator, the only kind the component uses.
- Browser.RunPrependsStored: each submission in a run settles before the next user event, so the form's in-flight guard is never taken inside a run. Submissions made while one is pending are covered by `SubmittedWhilePending` and the `OverlappingSubmissions` scenario, not by a lemma over all interleavings.
- The methods of `ArticleBrowser` still accept calls after an escalation. In the source no handler can run then, because the error boundary has removed the browser; only `Step` and `Run` model that end.
- Browser.RunPrependsStored: its events include `Submit` and `Close` while the form is hidden, which the page does not offer. The lemma therefore also covers runs the page cannot produce, such as a `Close` on a hidden form, which clears an error that the page keeps until the form is reopened.
