# image_analyser handler, modelled in Dafny

The repository is a serverless HTTP handler (`handler.js`). Given query
parameters `imageUrl` and `lang`, it downloads the image, asks a vision
service for labels, keeps the labels detected with more than 80% confidence,
joins their names with `" and "`, has a translation service translate that
text and the word `"and"` into `lang`, splits the translated text on
`" " + translatedAnd + " "`, and answers one line per kept label, e.g.
`95.20% de chances de ser Gato`. Any exception becomes a 500 answer.

The model keeps the handler's control flow and its deterministic data
processing. The three remote collaborators (image download, label detection,
translation) are function parameters that answer a value or an error
message (`Wrappers.Result`). `Handler.HandleEvent` (the model of `main`) also returns the list of
requests it made, so the order of the remote calls can be stated.

Modules:

- `Wrappers` — `Option`, and `Result`, whose error carries the JavaScript
  `message`.
- `JsStrings` — the JavaScript built-ins used: `Array.prototype.join`,
  `String(array)` (join with `","`), and `split` with a non-empty string
  separator. `IndexOf` models the leftmost-occurrence search that `split`
  makes at handler.js:56; the handler never calls `indexOf` itself.
- `Labels` — `detectImageLabels`: the confidence filter and the joined names.
- `Translation` — `translateText`: the two requests and the split.
- `Format` — `formatTextResults`: a loop that pushes one line per item. It
  is proved against the function `FormattedLines`.
- `Handler` — `main`: the query check, the pipeline, and the 200 and 500
  answers.

Two surface behaviours of the code are kept as they are:

- `new Error({ message: "lang parameter is missing" })` (handler.js:76)
  gives the error an object. The message is therefore `"[object Object]"`,
  and the body is `"A error has occurred: [object Object]"`
  (`Handler.ErrorMessage`, `Handler.LangMissingBody`). The error was
  evidently meant to carry "lang parameter is missing".
- `` `A imagem tem \n `.concat(finalText) `` (handler.js:94) turns the array
  of lines into a string, so the lines are joined with `","`
  (`Handler.SuccessBody`).

Detection fails (within the model) only when the service call throws. An answer with no label
above 80 is not an error.

The split is fragile, and the model shows how. `Labels.NamesSplitBack`
proves that, were the translation the identity, splitting gives back one
name per label, provided no name lets `" and "` straddle its end.
`Labels.DelimiterInsideName` shows the label `"Fish and Chips"` breaking this
(two labels, three pieces). `Labels.NoLabelsSplitIntoOnePiece` shows that
zero kept labels still split into one piece. `Handler.CatExample` proves what
`HandleEvent` answers for stand-in collaborators. Nothing is claimed about how
translated pieces line up with labels, since the code does not ensure it.

## Model

| member | source | states |
|---|---|---|
| `JsStrings.IndexOf` | handler.js:56 | the answer is an occurrence of the separator at or after the start position, and no occurrence lies between the start and it (none at all when the answer is None) |
| `JsStrings.Join` | handler.js:32 | no contract of its own; `JsStrings.JoinSnoc`, `JsStrings.JoinSplit` and `Labels.NamesShape` state what joining gives |
| `JsStrings.ArrayToString` | handler.js:94 | no contract of its own; `Handler.SuccessBody` and `Handler.SuccessBodySnoc` state what the array's conversion to a string gives |
| `JsStrings.Split` | handler.js:56 | splitting always gives at least one piece, and no piece contains the separator |
| `JsStrings.SplitCutsAtLeftmost` | handler.js:56 | there is one piece exactly when the text holds no occurrence of the separator; otherwise the first piece is the text before the leftmost occurrence, and the rest split what follows it, so occurrences are cut left to right without overlap |
| `JsStrings.JoinSplit` | handler.js:56 | re-joining the pieces with the separator gives back the translated text exactly |
| `JsStrings.SplitJoin` | handler.js:32-56 | splitting a join gives back the joined pieces when no piece lets the separator straddle its end |
| `JsStrings.JoinSnoc` | handler.js:32 | joining one more element appends the separator and then that element |
| `Labels.Kept` | handler.js:31 | no contract of its own; `Labels.Confident` states that a label is kept exactly when its confidence is above 80 |
| `Labels.Confident` | handler.js:31 | the kept labels are at most as many as the input; a label is kept exactly when it is in the input with confidence > 80; each such label is kept as often as it occurs, and no other label is kept |
| `Labels.ConfidentIsSubsequence` | handler.js:31 | the kept labels appear in their original relative order |
| `Labels.ConfidentAppend` | handler.js:31 | filtering a concatenation is the concatenation of the filtered parts (order is kept) |
| `Labels.NameList` | handler.js:32 | one name per kept label, at the same position |
| `Labels.Names` | handler.js:32 | no contract of its own; `Labels.NamesShape` states what it gives for zero, one and one more kept label |
| `Labels.NamesShape` | handler.js:32 | no kept labels give `""`; one gives just its name; each further label adds `" and "` and its name |
| `Labels.NamesSplitBack` | handler.js:32-56 | without translation, splitting the joined names on `" and "` gives back exactly the names, one per label, given names that do not straddle the separator |
| `Labels.NoLabelsSplitIntoOnePiece` | handler.js:32-56 | with no kept labels, the joined names split into the single piece `""` |
| `Labels.DelimiterInsideName` | handler.js:32-56 | the names `"Fish and Chips"` and `"Cat"` split into three pieces: `"Fish"`, `"Chips"`, `"Cat"` |
| `Labels.DetectImageLabels` | handler.js:22-35 | a detection error is passed on with its message; otherwise the items are the confident labels, in order and with their multiplicities, and `names` is their names joined with `" and "` |
| `Translation.DelimiterPattern` | handler.js:56 | the separator is the translated delimiter with one space before and one after, so it is never empty |
| `Translation.Request` | handler.js:38-53 | no contract of its own; `Translation.TranslateText` states that both requests are built by it, from `en` into `lang` |
| `Translation.TranslateText` | handler.js:37-57 | it first requests `en`→`lang` of the text, then (only if that succeeded) `en`→`lang` of `"and"`; either error is passed on; on success the pieces are the split of the first answer on the padded second answer, there is at least one piece, and re-joining them gives back the first answer |
| `Format.NameAt` | handler.js:63-66 | no contract of its own; `Format.FormattedLinesAt` and `Format.MissingNameIsUndefined` state that a missing name prints as `"undefined"` |
| `Format.Line` | handler.js:66 | no contract of its own; `Format.FormattedLinesAt` states each line in terms of it |
| `Format.FormattedLines` | handler.js:59-70 | there are exactly as many lines as items, whatever the number of names |
| `Format.FormattedLinesAt` | handler.js:62-66 | line i is `fmt(items[i].Confidence) + "% de chances de ser " + names[i] + "\n"`, with `"undefined"` for a missing name |
| `Format.ExtraNamesIgnored` | handler.js:62-63 | names beyond the number of items do not change the lines |
| `Format.MissingNameIsUndefined` | handler.js:63-66 | an item without a name at its index gives a line ending in `"de chances de ser undefined\n"` |
| `Format.FormatTextResults` | handler.js:59-70 | the loop's output is `FormattedLines`: exactly one line per item, in item order, line i built from item i and `names[i]` |
| `Handler.ErrorMessage` | handler.js:76 | no contract of its own; `Handler.LangMissingBody` states that the object handed to `Error` gives the message `"[object Object]"` |
| `Handler.Failure` | handler.js:96-100 | status 500, and the body is `"A error has occurred: "` followed by the message |
| `Handler.SuccessBody` | handler.js:92-95 | for no lines the body is `"A imagem tem \n "`, for one line the prefix followed by the line |
| `Handler.SuccessBodySnoc` | handler.js:94 | each further line is added after a comma |
| `Handler.LangMissingBody` | handler.js:76 | the missing-`lang` error answers `"A error has occurred: [object Object]"`, whereas handing `Error` the text itself would have kept `"lang parameter is missing"` |
| `Handler.Falsy` | handler.js:76 | no contract of its own; `Handler.HandleEvent` states that an absent or empty `lang` answers 500 before any call |
| `Handler.Rejected` | handler.js:74-76 | no contract of its own; `Handler.HandleEvent` states that a rejected event makes no call and that every other event is fetched first |
| `Handler.HandleEvent` | handler.js:72-101 | null or undefined query parameters answer 500 with V8's TypeError for that case, and a falsy `lang` answers 500 with `"[object Object]"`, before any call; otherwise the calls are fetch, detect, translate(names), translate("and"), in that order; each call happens only if all earlier ones succeeded; the status is 200 exactly when all four succeed, else 500 with the failing call's message; a success body is the prefix and the comma-joined formatted lines of the split translation |
| `Handler.CatExample` | handler.js:72-101 | with stand-in services that detect "Cat" at 95.2 and "Dog" at 60 and translate to "Chat" and "et", the answer is 200 with body `"A imagem tem \n 95.20% de chances de ser Chat\n"` |
| `Handler.CatSteps` | handler.js:31-32 | for the stand-in collaborators of `Handler.CatExample`: only "Cat" is kept, and the joined names are "Cat" |
| `Handler.ChatIsOnePiece` | handler.js:56 | for the stand-in collaborators of `Handler.CatExample`: "Chat" split on `" et "` is the one piece "Chat" |
| `Handler.CatLine` | handler.js:66-94 | for the stand-in collaborators of `Handler.CatExample`: the body is the prefix followed by the one line `"95.20% de chances de ser Chat\n"` |

## Left out

- The HTTP GET through axios and the copy of its bytes into a Buffer (handler.js:13-20) are network I/O and a Node library. They are the opaque `fetch` provider, which answers bytes or an error. `Buffer.from` ignores the `"base64"` argument for binary data, so nothing is decoded.
- The AWS SDK clients, their construction and `.promise()` (handler.js:8-11, 23-29, 44-54, 105-114) are foreign services. They are the `detect` and `translate` providers. The `Handler` object's fields are set once and never changed, so the model passes the providers as a value instead of using a class.
- `toFixed(2)` (handler.js:66) is floating-point formatting. It is an uninterpreted parameter `fmt: real -> string`. Confidence is a `real`, not an IEEE double; only the `> 80` comparison is made on it.
- `console.log` (handler.js:5 and the `log` calls) has no effect on results.
- `async`/`await`: every await is strictly sequential, so the steps are plain sequential calls.
- A detection answer without `Labels`, or a first translation answer without `TranslatedText`, throws a TypeError in `.filter` or `.split` (handler.js:31, 56). A delimiter answer without `TranslatedText` does not throw: the separator becomes `" undefined "` (handler.js:48-56). Neither case is modelled: a successful answer always carries the list or the text.
- A missing `event`, and thrown values that are not `Error` objects, are not modelled. A null and an undefined `queryStringParameters` are modelled separately (`Handler.QueryField`), each with the TypeError message of V8 as shipped in Node.js 16 and later; older engines word these messages differently.
- Strings are sequences of `char`, not UTF-16 code units. `split`'s limit of 2^32-1 pieces is not modelled.
- `for (const index in items)` visits the array's index keys as strings. The model visits the indices 0 to |items|-1, which is the same for a plain array.
- What the translation does to the text is not modelled. No claim is made that translated pieces line up with labels.
- Label fields other than `Name` and `Confidence` are not modelled.
