# price-check-ebay: the `check` command's decision rules

This project models the `check` chat command of a Discord bot that estimates a
fair price for a product from its recent eBay sales. The command takes the words
after `check` and joins them into a query. It rejects the query if its length is
wrong or if it holds a non-ASCII character. Otherwise it looks the query up and
posts an embed. The embed is an error embed when nothing was found. When results
were found, it is a five-field summary coloured by the confidence band. Tick and
cross reactions and a block of notes follow only a result embed.

Two modules:

- `JsString` (`js_string.dfy`) holds the JavaScript string semantics the command
  relies on. A string is a sequence of UTF-16 code units (`CodeUnit`), since
  `length` counts code units. `Spread` is the code-point split that `[...str]`
  performs: a high surrogate followed by a low surrogate is one element, and
  every other unit is an element by itself. `Join` is `args.join(' ')`.
- `Check` (`check.dfy`) holds `nonASCII`, query validation, `getColour`,
  `createEmbedBox`, `getEmbedBox` and `execute`.

The price statistics are computed by other code (the box plot, fair-price
rounding, confidence score and confidence message). They reach the model as the
already-rendered fields of a `Lookup` value.

## Model

| member | source | states |
|---|---|---|
| `JsString.Spread` | commands/check.js:12 | the code points of `[...str]` concatenate back to the string, each is a single unit or a high/low surrogate pair, no surrogate pair is cut between two neighbouring elements, and there are no more of them than units |
| `JsString.JoinLength` | commands/check.js:32 | for a non-empty argument list the joined query's length is the sum of the argument lengths plus one separator between each two arguments |
| `JsString.JoinUnits` | commands/check.js:32 | a unit occurs in the joined query exactly when it occurs in some argument, or it is the space and there are at least two arguments |
| `Check.NonAsciiIffUnitAbove127` | commands/check.js:12 | `nonASCII(s)` holds exactly when some code unit of `s` is above 127; testing only the first unit of each code point loses nothing, because both halves of a surrogate pair are above 127 |
| `Check.AsciiIsNotNonAscii` | commands/check.js:12 | a string whose every unit is at most 127 is not reported as non-ASCII |
| `Check.Validate` | commands/check.js:33-37 | a query is rejected for its length exactly when its length is outside 10..50, even if it also has non-ASCII characters; it is rejected as non-ASCII exactly when its length fits and some unit is above 127; it is accepted exactly when neither holds |
| `Check.ValidateArgs` | commands/check.js:32-37 | for every argument list, the joined arguments are accepted exactly when the argument lengths plus separators lie in 10..50 and no argument has a unit above 127 |
| `Check.GetColour` | commands/check.js:84-94 | confidence at least 80 gives green, [60, 80) yellow, [40, 60) orange, below 40 red; the colour is never the black error colour and its value is never 0 |
| `Check.GetColourRank` | commands/check.js:84-94 | the band's rank equals how many of the thresholds 40, 60 and 80 the confidence reaches |
| `Check.GetColourMonotone` | commands/check.js:84-94 | raising the confidence never moves it to a lower band |
| `Check.CreateEmbedBox` | commands/check.js:104-141 | the embed's colour is 0 exactly when the fair-price range is `'N/A'`, and it then has one field, otherwise five |
| `Check.ErrorEmbedShape` | commands/check.js:106-113 | for `'N/A'` the embed is coloured `#000000` and has the single field `Error` carrying the message |
| `Check.ResultEmbedShape` | commands/check.js:114-137 | otherwise the embed is coloured by `getColour(confidence)` and has the fields Fair price, Median, Average, Confidence and Notes in this order, each carrying its own value |
| `Check.GetEmbedBox` | commands/check.js:58-81 | when nothing is found, the embed is the error embed built with `'N/A'`, confidence 0 and the not-found message (commands/check.js:79), and that confidence never reaches `getColour` because the `'N/A'` branch is taken first; when results are found, the embed is built from the range `£<lower> - £<upper>`, the `£`-prefixed median and average, the confidence and its message, and is coloured by `getColour(confidence)`; the embed's colour is 0 exactly when nothing was found, because a found range starts with `£` and so is never `'N/A'` |
| `Check.Execute` | commands/check.js:31-53 | a length-rejected query gets only the length help and a non-ASCII query gets only the non-ASCII notice; an accepted query gets the "Results for" line and the embed built from the lookup, followed by the tick reaction, the cross reaction and the information notes, in this order, when results were found, and by nothing else otherwise |
| `Check.FollowUpExactlyWhenFound` | commands/check.js:42-46 | the tick reaction, the cross reaction and the information notes are each posted exactly when the query was accepted and results were found, and then they are the last three of five posts, in this order |

## Left out

- The price statistics (`u.boxPlot`, `u.calcFair`, `ebay.getConfidence`, `ebay.getConfidenceMsg`, `ebay.getPriceArray`, `ebay.getSoldItems`): these files are not part of this model. Their results enter as the fields of `Lookup`.
- The network fetch of sold items: I/O. Its outcome is the `lookup` parameter of `Execute`.
- Discord plumbing: `message.channel.send`, `react`, the `MessageEmbed` builder and its timestamp are library calls. An embed is the record `Embed` with a colour and its fields. `Colour.Value` gives the number the library stores for each hex colour string.
- Check.Execute: decides on the follow-up posts from the colour of the embed it built. The source tests the colour of the message that `send` returns (commands/check.js:41-42). The model assumes the library hands back the embed with the colour unchanged, 0 included.
- Failed sends (the `try`/`catch` in `execute`): `Execute` lists the posts of a run in which every send succeeds.
- `confidence.toFixed(2)` and the `£` amounts' number formatting: floating-point presentation. The Confidence field carries the confidence itself (`Percent`).
- The texts of the length help message and of `INFO_NOTES`, the console logging, and the command's name, aliases, cooldown and `args` metadata. The command prefix from `config.json` is a parameter.
- Check.GetColour: a NaN confidence is not modelled, because confidence is a `real`. In JavaScript a NaN fails every comparison and so gets red.
