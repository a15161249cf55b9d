# Note taker: the note page and the summary route, in Dafny

This project models the two pieces of logic of a small note-taking web
application.

- **The note page** (`app/page.tsx`). The page keeps a list of notes
  (`id`, `title`, `content`, `date`) and a form made of a title, a content
  and the id of the note being edited, if any. Four handlers change that
  state: submit (add a note, or update the note being edited), edit (load a
  note into the form), delete (drop notes by id) and cancel edit. The page
  is modelled as the class `Page.Home` with one field per piece of state.
  Each handler is a method that changes it in one step. The list
  transforms inside the handlers are pure functions: `UpdateMatching` is
  the `map` of the edit branch, and `RemoveById` is the `filter` of delete.
  Lemmas about those functions carry the list properties.
- **The summary route** (`app/api/summarize/route.ts`). Module `Summarize`
  models the route. It reads `content` from the request and answers
  `"This is a summary of: "`, then the first 100 code points of the
  content, then `"..."`. Any failure gives status 500 with the message
  `Failed to generate summary`.
- **String built-ins** (module `JsString`). The page validates the form
  with `trim`, and the route cuts the content with `slice`. Both are
  modelled from the ECMAScript definitions. `trim` strips the WhiteSpace
  and LineTerminator code points. `slice` clamps its arguments and counts
  negative ones from the end.

Modelling choices:

- `editingId` is an `Option<int>`. The source tests it with
  `if (editingId)`, and JavaScript treats both `null` and `0` as false.
  `Page.IsEditing` therefore holds only for `Some(v)` with `v != 0`. A note
  whose id is `0` is loaded into the form by edit, but the next submit adds
  a new note instead of updating it.
- In add mode the submit never touches `editingId`. The model keeps it
  as it was, which matters only for the `Some(0)` case above.
- The form check uses the trimmed strings. The stored title and content
  are the untrimmed ones.
- `Date.now()` becomes the parameter `now` of `Home.Submit`.
  `toLocaleDateString()` becomes the parameter `today` of `Home.Submit`
  and of the constructor (the date of the sample notes).
- The class invariant `Home.Valid()` says that every stored note has a
  title and a content that are not blank. The sample notes satisfy it, and
  every handler keeps it, because only checked form values are ever stored.
- Ids are not unique in general: two submits in the same millisecond
  produce the same id. The model proves only that distinct ids stay
  distinct when the supplied `now` is a fresh id, and that delete and
  update keep them distinct whatever `now` is.
- The request body of the route is an `Option<string>`. `None` stands for
  a body that could not be parsed or has no `content`.

Notes on the code's behaviour:

- The summary carries the 22-character prefix `"This is a summary of: "`,
  so it is up to 125 code points long. The summary of
  `"Buy milk and eggs"` is `"This is a summary of: Buy milk and eggs..."`
  (`Summarize.ShortNoteExample`).
- The page keeps its notes in memory, and new notes are appended at the
  end of the list.
- Deleting an absent id is a no-op (`Page.RemoveAbsentIsIdentity`).
  Updating an absent id changes no note, yet still ends edit mode and
  clears the form (`Page.Home.Submit`).

## Model

| member | source | states |
|---|---|---|
| `Page.IsFilled` | app/page.tsx:47 | the submit check on the trimmed title and content; an empty title or content never passes (the exact condition is proved in `IsFilledIffNotBlank`) |
| `Page.IsEditing` | app/page.tsx:49 | the JavaScript truthiness of `editingId`: edit mode holds exactly when `editingId` is neither null nor 0 |
| `Page.IsFilledIffNotBlank` | app/page.tsx:47 | the submit check passes exactly when neither the title nor the content consists only of white space (empty strings included) |
| `Page.UpdateMatching` | app/page.tsx:51-55 | the edit `map` keeps the length; every note whose id is the edited id gets the new title, content and date; every other note is kept unchanged, in place |
| `Page.UpdateKeepsIds` | app/page.tsx:51-55 | an update keeps the sequence of ids, so no note is added, dropped, duplicated or moved |
| `Page.UpdateAbsentIsIdentity` | app/page.tsx:51-55 | when no note has the edited id, the `map` returns the list unchanged |
| `Page.UpdateIdempotent` | app/page.tsx:51-55 | applying the same update twice gives the same list as applying it once |
| `Page.UpdateKeepsFilled` | app/page.tsx:51-55 | an update with checked form values keeps every stored note non-blank |
| `Page.UpdateKeepsDistinct` | app/page.tsx:51-55 | an update keeps pairwise distinct ids distinct |
| `Page.RemoveById` | app/page.tsx:82 | the delete `filter` keeps exactly the notes whose id differs from the deleted one (a note is in the result iff it was in the list with another id) |
| `Page.RemoveCounts` | app/page.tsx:82 | each note with the deleted id occurs 0 times after the delete; every other note occurs exactly as often as before |
| `Page.RemoveConcat` | app/page.tsx:82 | delete distributes over concatenation, so kept notes stay in their original relative order |
| `Page.RemoveAbsentIsIdentity` | app/page.tsx:81-83 | deleting an id that no note has leaves the list unchanged |
| `Page.RemoveIdempotent` | app/page.tsx:81-83 | deleting twice equals deleting once |
| `Page.RemoveKeepsFilled` | app/page.tsx:82 | delete keeps every stored note non-blank |
| `Page.RemoveKeepsDistinct` | app/page.tsx:82 | delete keeps pairwise distinct ids distinct |
| `Page.AppendFreshKeepsDistinct` | app/page.tsx:59-65 | appending a note whose id is not yet used keeps the ids pairwise distinct |
| `Page.InitialNotes` | app/page.tsx:18-37 | the page starts with three sample notes with ids 1, 2 and 3 (pairwise distinct), all dated with the date supplied |
| `Page.VisibleEndsFilled` | app/page.tsx:47 | a title and a content that each end in a visible code point pass the submit check |
| `Page.FirstSampleFilled` | app/page.tsx:19-24 | the first sample note passes the submit check |
| `Page.SecondSampleFilled` | app/page.tsx:25-30 | the second sample note passes the submit check |
| `Page.ThirdSampleFilled` | app/page.tsx:31-36 | the third sample note passes the submit check |
| `Page.InitialNotesFilled` | app/page.tsx:18-37 | every sample note has a non-blank title and content, so the page starts in a valid state |
| `Page.Home.constructor` | app/page.tsx:40-43 | initial state: the sample notes, an empty title and content, and no note being edited |
| `Page.Home.SetTitle` | app/page.tsx:95 | typing in the title field replaces the title and changes nothing else |
| `Page.Home.SetContent` | app/page.tsx:100 | typing in the content field replaces the content and changes nothing else |
| `Page.Home.Submit` | app/page.tsx:46-71 | a blank title or content changes nothing. In edit mode (`editingId` set and not 0) every note with that id is rewritten and edit mode ends; if no note has that id the list is kept. Otherwise one note with id `now` and the untrimmed fields is appended at the end and `editingId` is left as it was. Any accepted submit clears the form, keeps the non-blank invariant, and keeps ids distinct (in edit mode always, in add mode when `now` is fresh) |
| `Page.Home.Edit` | app/page.tsx:74-78 | the form receives the note's title and content, `editingId` becomes its id, and the list is untouched |
| `Page.Home.Delete` | app/page.tsx:81-83 | the list becomes the `filter` result; the form and `editingId` are untouched; distinct ids stay distinct |
| `Page.Home.CancelEdit` | app/page.tsx:109-113 | `editingId` becomes null and the title and content become empty; the list is untouched |
| `JsString.TrimStart` | app/page.tsx:47 | the leading-white-space half of `trim`; never lengthens its input (characterised in `TrimStartSpec`) |
| `JsString.TrimEnd` | app/page.tsx:47 | the trailing-white-space half of `trim`; never lengthens its input (characterised in `TrimEndSpec`) |
| `JsString.Trim` | app/page.tsx:47 | `String.prototype.trim` as both halves in turn; never lengthens its input (characterised in `TrimSpec` and `TrimEmptyIffBlank`) |
| `JsString.TrimStartSpec` | app/page.tsx:47 | the start-trimmed string is a suffix of the input, the dropped prefix is all white space, and what is left starts with a visible code point |
| `JsString.TrimEndSpec` | app/page.tsx:47 | the end-trimmed string is a prefix of the input, the dropped suffix is all white space, and what is left ends with a visible code point |
| `JsString.TrimSpec` | app/page.tsx:47 | `trim` never lengthens a string, and a non-empty result starts and ends with a visible code point |
| `JsString.TrimEmptyIffBlank` | app/page.tsx:47 | `s.trim() === ""` holds exactly when every code point of `s` is white space |
| `JsString.VisibleEndNotBlank` | app/page.tsx:47 | a string ending in a visible code point is not empty after `trim` |
| `JsString.RelativeIndex` | app/api/summarize/route.ts:8 | how `slice` turns an argument into an index: negative arguments count back from the end, and the index always lies in `[0, length]` |
| `JsString.Slice` | app/api/summarize/route.ts:8 | `String.prototype.slice(start, end)`: never longer than its input (its value for `slice(0, n)` is proved in `SlicePrefix`) |
| `JsString.SlicePrefix` | app/api/summarize/route.ts:8 | `s.slice(0, n)` with `n >= 0` is the first `min(n, length)` code points of `s` |
| `Summarize.SummaryOf` | app/api/summarize/route.ts:8 | the summary is the 22-character prefix, then the first `min(100, length)` code points of the content, then `"..."`; its length is exactly 22 + min(100, length) + 3 |
| `Summarize.Post` | app/api/summarize/route.ts:3-17 | a readable `content` gives status 200 and a summary of at most 125 code points; its body is exactly `SummaryOf(content)`; a missing or unreadable one gives status 500 with `Failed to generate summary` |
| `Summarize.SummaryLengthBounds` | app/api/summarize/route.ts:8 | every summary is between 25 and 125 code points long, even for empty content |
| `Summarize.ShortContentKept` | app/api/summarize/route.ts:8 | content of at most 100 code points appears in the summary in full |
| `Summarize.LongContentCut` | app/api/summarize/route.ts:8 | longer content contributes exactly its first 100 code points |
| `Summarize.ExcerptOf` | app/api/summarize/route.ts:8 | a string recognised as a summary is the prefix, then the recovered excerpt, then `"..."` |
| `Summarize.ExcerptRoundTrip` | app/api/summarize/route.ts:8 | reading the excerpt back out of a summary gives the content's first 100 code points, and the whole content when it is at most 100 long |
| `Summarize.SummaryDeterminedByExcerpt` | app/api/summarize/route.ts:5-10 | the summary depends only on the content: two contents have equal summaries iff their first 100 code points agree |
| `Summarize.ShortNoteExample` | app/api/summarize/route.ts:8 | the summary of `"Buy milk and eggs"` keeps the whole text after the prefix and still ends in `"..."` |

## Left out

- The rendered markup, the UI components, styling and event wiring
  (app/page.tsx:85-157). The button labels and the visibility of the
  cancel button use the same truthiness test as `Page.IsEditing`, but
  they are presentation.
- `Date.now()` and `toLocaleDateString()`: they are clock- and
  locale-dependent, so they are method parameters.
- React's asynchronous state batching and stale closures: each handler is
  one atomic step over the current state.
- `request.json()`, `NextResponse.json` and `console.error` are HTTP I/O
  and logging. The request is an `Option<string>` and the response a
  datatype holding the status and the JSON body.
- JavaScript coercions when `content` is not a string (a number throws, an
  array is sliced as an array). UTF-16 surrogate pairs are not modelled
  either: strings are sequences of code points, and `slice` counts code
  points rather than UTF-16 units.
- `JsString.Slice` is modelled for integer arguments only. `NaN`,
  infinities and fractional arguments are not modelled; the route passes
  only the constants 0 and 100.
- `JsString.IsWhiteSpace` lists the space separators of the current
  Unicode version. Changes to that category in later Unicode versions are
  not modelled.
- Id uniqueness under concurrent or same-millisecond creation is not
  guaranteed by the code and is not claimed.
