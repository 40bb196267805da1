# Guarantor intake form: payload builder, token and submit decisions

This project models the logic of the guarantor intake page script
`public/app.js`, a browser form that collects one or more guarantors and
posts them as JSON to a remote endpoint. Three pieces are modelled:

- **The payload builder** (`buildPayloadFromForm`). The form's ordered
  `(name, value)` entries are read one by one. Each value is trimmed. Only
  names of the shape `guarantors[<digits>][<field>]` are kept. Entries are
  grouped by the numeric index, and a later entry for the same index and
  field overwrites an earlier one. The groups are sorted by ascending index.
  Then `ownershipPct` becomes a number, `null`, or is removed, and an empty
  `phone` is removed. The result is `{ token, guarantors }`.
- **Token extraction** (`getTokenFromUrl`). A `/f/<token>` path wins over a
  `?token=` query value. Without the path form the query value is used. The
  token is the empty string only when the path form does not apply and the
  query value is missing or empty.
- **Submit decisions**. A missing token disables submission with a fixed
  message. A response fails when it is not ok or `data.success` is falsy.
  The failure banner shows the server's message or a fixed text with the
  HTTP status, and the submit control becomes usable again. A success shows
  the server's message or a fixed text, and the confirmation replaces the form.

Modules, one per concern of the script:

- `Wrappers` (wrappers.dfy): `Option`.
- `Digits` (digits.dfy): decimal digit strings, read as a number and written from one.
- `JsText` (jstext.dfy): the JavaScript built-ins `String.prototype.trim` and `split`.
- `FormKey` (formkey.dfy): the field-name pattern `^guarantors\[(\d+)\]\[([^\]]+)\]$`.
- `PayloadBuilder` (payload.dfy): the grouping loop, the sort, the normalisation and the whole builder.
- `UrlToken` (token.dfy): `getTokenFromUrl`.
- `SubmitFlow` (submit.dfy): the load check and the classification of the server's answer.

`BuildPayloadFromForm` is a method, as the source is a loop that fills a
`Map` step by step. It is proved equal to `PayloadSpec`, a reference
definition built from `Grouped` (the grouping stated entry by entry) and
`SortedIndices` (the indices listed by repeatedly taking the least one).
The lemmas about `Grouped` and `PayloadSpec` state what the payload holds.
The token and the submit decisions are pure functions, as in the source.

Behaviour of `public/app.js` worth noting:

- An empty `dateOfBirth` is kept as `""`. Only `phone` and `ownershipPct` are dropped.
- Every value is trimmed, `phone` and `ownershipPct` included.
- The index is any run of ASCII digits read as a number. `0` and `00` are
  the same guarantor. Gaps are kept as gaps: nothing is renumbered.

## Model

| member | source | states |
|---|---|---|
| `Digits.NatToString` | public/app.js:145 | the status rendering is a non-empty digit string without a leading zero |
| `Digits.NatToStringRoundTrip` | public/app.js:145 | reading the rendered status back as digits gives the status |
| `Digits.NatToStringInjective` | public/app.js:145 | different statuses are rendered differently |
| `Digits.DigitsValue` | public/app.js:55 | `Number(m[1])` of a digit string: a string of n digits denotes a number below 10^n |
| `Digits.LeadingZero` | public/app.js:55 | `Number` of a digit string ignores a leading zero |
| `JsText.IsWhiteSpace` | public/app.js:49 | the characters `trim` strips: ECMAScript WhiteSpace (tab, vertical tab, form feed, space, U+00A0, U+FEFF and the Zs space separators) and LineTerminator (LF, CR, U+2028, U+2029) |
| `JsText.TrimStartIndex` | public/app.js:49 | `trim` keeps from the first character that is not white space |
| `JsText.TrimEndIndex` | public/app.js:49 | `trim` keeps up to the last character that is not white space |
| `JsText.Trim` | public/app.js:49 | the trimmed value neither starts nor ends with white space, and is empty exactly when the value is all white space |
| `JsText.TrimPadded` | public/app.js:49 | trimming any white-space padding around a text that has none at its ends gives back that text |
| `JsText.TrimIdempotent` | public/app.js:49 | trimming a trimmed value changes nothing |
| `JsText.Join` | public/app.js:12 | the inverse of `split`, used to state it: the pieces with the separator between them |
| `JsText.Split` | public/app.js:12 | `split` yields at least one piece, no piece holds the separator, and joining the pieces gives back the string |
| `JsText.SplitJoin` | public/app.js:12 | splitting joined pieces that lack the separator gives back the pieces |
| `JsText.SplitAt` | public/app.js:12 | splitting `a/b` gives the pieces of `a` followed by the pieces of `b` |
| `FormKey.DigitRun` | public/app.js:52 | `\d+` consumes exactly the leading run of digits |
| `FormKey.DigitRunOf` | public/app.js:52 | the digit run of digits followed by a non-digit ends at the non-digit |
| `FormKey.ParseKey` | public/app.js:52-56 | a matched field name is non-empty and holds no `]` |
| `FormKey.KeyMatches` | public/app.js:52-56 | every name `guarantors[<digits>][<field>]` with a valid field matches, giving the digits' value and the field |
| `FormKey.MatchedKeyShape` | public/app.js:52-56 | a name matches only if it is `guarantors[<digits>][<field>]`, with the index the digits' value |
| `FormKey.LeadingZeroSameKey` | public/app.js:55 | `guarantors[0<d>][f]` and `guarantors[<d>][f]` name the same guarantor and field |
| `PayloadBuilder.Grouped` | public/app.js:46-60 | the `guarantorsByIndex` Map after the loop: each matching entry sets its field of its index to the trimmed value |
| `PayloadBuilder.GroupsNonEmpty` | public/app.js:58-59 | a guarantor object is created only together with a field, so none is empty, and every field name is valid |
| `PayloadBuilder.GroupedIndex` | public/app.js:55-58 | there is a group exactly for each index some matching name carries |
| `PayloadBuilder.GroupedField` | public/app.js:56-59 | a group holds exactly the fields some matching name gives for its index |
| `PayloadBuilder.LastWriteWins` | public/app.js:48-59 | the stored value of a field is the trimmed value of the last entry naming that index and field |
| `PayloadBuilder.NonMatchingIgnored` | public/app.js:52-53 | an entry whose name does not match changes no group, wherever it stands |
| `PayloadBuilder.PctValue` | public/app.js:68-69 | `ownershipPct` becomes a number exactly when the parse gives a finite one, holding it, and `null` otherwise; never a string |
| `PayloadBuilder.Normalize` | public/app.js:65-78 | `ownershipPct` is absent when missing or empty, else the parsed number, else `null`; `phone` is absent exactly when missing or empty; every other field is kept with its string |
| `PayloadBuilder.MinOf` | public/app.js:63-64 | the least index of a non-empty set |
| `PayloadBuilder.SortedIndices` | public/app.js:63-64 | the indices in strictly ascending order, each exactly once |
| `PayloadBuilder.AscendingUnique` | public/app.js:63-64 | a strictly ascending sequence is determined by its elements, so any correct sort gives the same order |
| `PayloadBuilder.PayloadSpec` | public/app.js:43-81 | the reference payload: the token unchanged and one guarantor per distinct index, each the normalised group of the index at that position of the ascending order |
| `PayloadBuilder.PayloadIndices` | public/app.js:46-64 | the guarantors are in strictly ascending index order, one per matched index and none for any other index |
| `PayloadBuilder.PayloadFieldValue` | public/app.js:48-80 | the guarantor of an index holds, for each field but `ownershipPct`, the trimmed value of its last entry, unless that is an empty `phone` |
| `PayloadBuilder.PayloadOwnershipPct` | public/app.js:48-72 | the guarantor of an index has `ownershipPct` exactly when its last entry is non-empty after trimming, holding the parsed number or `null` |
| `PayloadBuilder.InsertAscending` | public/app.js:64 | inserting a new index into an ascending list keeps it strictly ascending and adds exactly that index |
| `PayloadBuilder.SortAscending` | public/app.js:63-64 | the sorted indices are strictly ascending and a permutation of the Map's keys |
| `PayloadBuilder.GroupEntries` | public/app.js:46-60 | the entry loop builds exactly the grouping, and the Map's key order lists each index once |
| `PayloadBuilder.NormalizeAll` | public/app.js:65-78 | the mapped list normalises each sorted group, in order |
| `PayloadBuilder.BuildPayloadFromForm` | public/app.js:43-81 | the payload carries the token unchanged and equals the reference payload, one guarantor per distinct index |
| `UrlToken.NonEmpty` | public/app.js:12 | `filter(Boolean)` keeps exactly the non-empty pieces and no more pieces than it is given |
| `UrlToken.NonEmptyAppend` | public/app.js:12 | `filter(Boolean)` works piece by piece: filtering `a + b` is filtering `a`, then `b`, so order and repetitions are kept |
| `UrlToken.NonEmptyOne` | public/app.js:12 | one piece is kept exactly when it is non-empty |
| `UrlToken.PathParts` | public/app.js:12 | the path segments are non-empty and hold no `/` |
| `UrlToken.PathPartsAppend` | public/app.js:12 | the segments of `a/b` are the segments of `a` followed by those of `b` |
| `UrlToken.PathPartsSegment` | public/app.js:12 | a text without `/` is its own single segment, and the empty text has none |
| `UrlToken.PathHasToken` | public/app.js:13 | when the path form applies, the second segment exists, is non-empty and holds no `/` |
| `UrlToken.TokenFromUrl` | public/app.js:11-19 | the path form `/f/<t>` wins over the query; the token is empty exactly when the path form does not apply and the query value is missing or empty |
| `UrlToken.SplitPathForm` | public/app.js:12 | `/f/<t>` splits into "", "f" and `t` |
| `UrlToken.PathTokenWins` | public/app.js:12-18 | a `/f/<t>` path yields `t` whatever the query value |
| `UrlToken.PathTokenWithRest` | public/app.js:12-18 | a `/f/<t>/<rest>` path yields `t` whatever follows and whatever the query value |
| `UrlToken.EmptySegmentsSkipped` | public/app.js:12-18 | empty segments are skipped: `//f//<t>` yields `t` |
| `UrlToken.QueryFallback` | public/app.js:15-18 | without the path form, a present query value is the token and a missing one gives `""` |
| `SubmitFlow.OnLoad` | public/app.js:99-106 | submission is disabled with the fixed message exactly when the token is empty |
| `SubmitFlow.HttpFailureMessage` | public/app.js:145 | the failure text is the fixed prefix, the status and the fixed suffix |
| `SubmitFlow.ServerMessage` | public/app.js:143-144 | the server's message is used only when the body carries a non-empty one, and is that message |
| `SubmitFlow.Failed` | public/app.js:142 | the test "response not ok, or `data?.success` falsy", with a `null` body counting as failure; stated by `SubmitOutcome`'s first ensures |
| `SubmitFlow.SubmitOutcome` | public/app.js:142-166 | failure exactly when the request failed, the response is not ok or `success` is falsy; the banner is the server's non-empty message or the fixed text with the status, or the default success text; the control is usable again exactly on failure; the confirmation shows exactly on success |
| `SubmitFlow.ControlEnabledAfter` | public/app.js:101-166 | the submit control ends unusable only for a missing token or after a success |
| `SubmitFlow.StatusReadBack` | public/app.js:145 | the status can be read back from the fixed failure text |
| `SubmitFlow.HttpFailureMessageInjective` | public/app.js:145 | different statuses give different failure texts |

## Left out

- `Number()` and `Number.isFinite` on `ownershipPct`: a parameter `parse` returning a finite real or nothing, since floating point is not modelled.
- Index precision: `Number` of a digit string longer than about 15 digits loses precision or becomes `Infinity`, so two such indices can meet in one guarantor; the model reads every digit string exactly.
- A field named `__proto__`: in JavaScript assigning a string to it is ignored; the model stores it like any other field.
- `FormData` collection and `File` values: the entries are an input sequence of strings.
- `URLSearchParams` parsing and percent-decoding: the query token is an input `Option<string>`.
- The order of keys inside a guarantor object as `JSON.stringify` writes them: a guarantor is a map.
- The sort: the library sort of `Array.from(map.entries())` is modelled on the Map's keys in a sequence, by insertion.
- DOM work: banners' CSS classes, button text, hiding the form (`setBanner`, `clearBanner`, `showConfirmationUI`), and a missing form or button element.
- `fetch`, `JSON.stringify`, `resp.json()` and the endpoint: the answer is an input `FetchResult`.
- `data.success` and `data.message` of other JSON types than a boolean and a string: the model takes the truthiness of `success` and a string or absent `message`.
- Event wiring and `async`/`await`: the model looks at one completed submission attempt.
- Field validators, the ZIP lookup and adding or removing guarantor entries: `public/app.js` contains none of them.
