# pixx image plan and markup, in Dafny

pixx takes a source image, writes a set of resized copies in several formats,
and returns `<picture>` or `<img>` markup (HTML or JSX) that points at them.
This project models pixx's decision making and proves properties of it:

- `Schema` (schema.dfy): the HTML and JSX spelling tables, the image types,
  the option object as the option schema accepts it, the defaults, and the
  store records the markup is built from.
- `Dimensions` (dimensions.dfy): the bounded Stern–Brocot search behind
  `getAspectRatio`, `getDimension`'s cross-multiply-and-round, and
  `defaultSize`'s size steps. Widths and heights are positive whole numbers;
  ratios are compared by cross-multiplying, with no floating point.
- `Conditions` (conditions.dfy): `splitCondition` and `classBuilder`.
- `Plan` (plan.dfy): the per-image plan of `getState`, kept in the class
  `ImageState`. It covers `createImage`, `createSrcSet` and the
  `<img>`/`<source>`/`<picture>` builders. The image library is replaced by
  a set of existing output files: encoding an image adds its path to the set,
  and is skipped when the path is already there.
- `Pixx` (pixx.dfy): the loop in the closure `pixx` returns. It writes the
  markup from the store and the Content-Security-Policy text for the hashed
  inline styles. It also models the closure's error handling: an error
  thrown after the store exists gives `""`, and one thrown while the store
  is being built makes the closure's promise reject (see "## Findings").
- `Text` (text.dfy): the JavaScript string operations those files rely on,
  written out. These are `join`, `trim` (with every white space character
  and line terminator JavaScript strips, space separators included), `indexOf`/`lastIndexOf`, `split`,
  `replace` with a string pattern (first occurrence only, with `$`
  substitution patterns), `replaceAll`, number-to-text, and unary `+` on
  text.

The code's own behaviour is modelled where it is surprising:

- `defaultSize` leaves the smaller side out when it is an exact multiple of
  the increment: the final check compares the next step, not the last size
  pushed. The branch inside its loop that would push the smaller side can
  never run.
- `getState` counts the fallback image in `totalImages`, then sets `imgCount`
  back to 0 after making it. A whole picture therefore ends at
  `totalImages - 1`.
- The `<img>` that `pixx` writes always carries `sizes`: the guard tests an
  array, and every array is truthy in JavaScript. In resolution switching,
  an entry without sources gives `srcset="undefined"`.
- `classBuilder`'s `replaceAll('d:', '')` is one left-to-right pass, so
  `"dd::"` becomes `"d:"`.
- `createImgTag` picks its attribute names from `withClassName`, while
  `pixx` picks them from the store's dialect table. `Pixx.NamesAgree` shows
  the two agree whenever the table is the one the `jsx` flag selects.
- `createPictureTag` writes the sources in the caller's `picTypes` order.
  It opens with `<picture >`, with a space before the `>`.

## Model

| member | source | states |
|---|---|---|
| Text.IndexOf | src/utils.ts:410 | the first position where the pattern occurs, and -1 exactly when it does not occur |
| Text.LastIndexOf | src/utils.ts:185 | the last position where the pattern occurs, and -1 exactly when it does not occur |
| Text.TrimStart | src/utils.ts:186 | strips exactly the leading white space |
| Text.TrimEnd | src/utils.ts:186 | strips exactly the trailing white space |
| Text.Trim | src/utils.ts:186 | the result occurs in the input where the leading white space ends, has no white space at either end, and everything before and after it is white space |
| Text.TrimKeepsAbsence | src/utils.ts:186 | trimming cannot create an occurrence of a pattern |
| Text.TrimIdentity | src/utils.ts:186 | text without white space at its ends is left as it is |
| Text.ReplaceChar | src/utils.ts:410 | `replaceAll` of one character: the same length, with every occurrence of the character replaced and nothing else changed |
| Text.RemoveAllAbsent | src/utils.ts:171 | `replaceAll(pat, '')` leaves text without the pattern unchanged |
| Text.RemoveAllSinglePass | src/utils.ts:171 | `replaceAll` scans once: removing "d:" from "dd::" leaves "d:" |
| Text.SubstitutionLiteral | src/utils.ts:410 | a replacement text without `$` is inserted literally |
| Text.Replace | src/utils.ts:410 | `replace` with a string pattern changes nothing when the pattern does not occur |
| Text.ReplacePrefix | src/utils.ts:410 | a leading pattern is replaced by a `$`-free replacement, and the rest stays |
| Text.ReplaceFirst | src/utils.ts:410 | the first occurrence, at any position, is the one replaced by a `$`-free replacement; everything before and after it stays |
| Text.ReplaceKeepsLater | src/utils.ts:410 | an occurrence after the first one is still there after the replacement, shifted by the change in length |
| Text.Split | src/utils.ts:328 | `split` on a character gives at least one part, and no part contains the separator |
| Text.FirstIndex | src/utils.ts:328 | the first position of a character that occurs |
| Text.JoinSplit | src/utils.ts:328 | joining the parts of a split with the separator gives the text back |
| Text.SplitJoin | src/utils.ts:173 | splitting a join of separator-free parts gives the parts back |
| Text.NatToString | src/utils.ts:378 | a number is written as a non-empty string of decimal digits |
| Text.DigitsValueOfNatToString | src/utils.ts:378 | the decimal digits written for a number read back as that number |
| Text.NatToStringInjective | src/utils.ts:378 | different numbers are written differently |
| Text.ToNumber | src/utils.ts:331-332 | unary `+` on text gives a number exactly when the trimmed text is all decimal digits (empty text gives 0) |
| Text.ToNumberOfNatToString | src/utils.ts:331-332 | unary `+` reads a written number back |
| Text.ConcatAppend | src/pixx.ts:76-85 | concatenating two runs of lines is concatenating each |
| Text.JoinSnoc | src/utils.ts:450 | joining one more part appends the separator and that part |
| Schema.DialectFor | src/schema.ts:11-32 | the `jsx` flag selects JSX or HTML; they differ in the class, srcset and fetch-priority spellings and in the brackets |
| Schema.BracketedValue | src/pixx.ts:93 | a bracketed value is quoted in HTML and braced in JSX, and reads back from between the brackets |
| Schema.ParseInputFormat | src/schema.ts:70-73 | accepts exactly avif, gif, jpeg, jpg, png, tiff, webp and svg, and names the format it returns |
| Schema.ParseOutputFormat | src/schema.ts:76-79 | accepts exactly the input types except svg |
| Schema.FormatRoundTrip | src/schema.ts:70-79 | each format's name parses back to it as input; it parses as output exactly when it is not svg |
| Schema.FormatNameInjective | src/schema.ts:76 | different formats have different names |
| Schema.ParseDecoding | src/schema.ts:97-99 | accepts exactly auto, sync and async |
| Schema.ParsePriority | src/schema.ts:102-104 | accepts exactly auto, high and low |
| Schema.ParseLoading | src/schema.ts:109 | accepts exactly eager and lazy |
| Schema.EnumRoundTrips | src/schema.ts:97-109 | every decoding, priority and loading value parses back from its name |
| Schema.Formats | src/schema.ts:115 | an accepted `picTypes` gives at least one output format, one per item and in order |
| Schema.ParseOptions | src/schema.ts:89-131 | an option object parses exactly when it is valid, and the parsed picture types are non-empty and never svg |
| Schema.ValidOptionsFacts | src/schema.ts:83-131 | a valid object has a non-empty list of output types, an `omit` with `remove` and `add`, and enumeration values from their lists |
| Schema.StrItems | src/schema.ts:95 | a list of strings as an option value is a valid string array holding those strings |
| Schema.NumItems | src/schema.ts:105 | a list of numbers as an option value is a valid number array holding those numbers |
| Schema.FormatItems | src/schema.ts:115 | a non-empty list of output formats as an option value is a valid `picTypes` holding those formats |
| Schema.OmitObject | src/schema.ts:83-86 | an omit rule as an option value is a valid `omit` with the same `remove` and `add` |
| Schema.EncodedValid | src/schema.ts:89-131 | every typed option set with non-empty output types, written as an object, is valid |
| Schema.ParseEncode | src/schema.ts:89-131 | parsing an option set written as an object gives the same options back |
| Schema.DefaultsEncoded | src/schema.ts:35-67 | the default object is the default options written as an object |
| Schema.DefaultsParsed | src/schema.ts:35-67 | the defaults satisfy the schema and parse to picture types avif, webp, jpg, increment 300 and sizes `["auto"]` |
| Dimensions.Trichotomy | src/utils.ts:280-297 | a fraction is below, equal to or above w/h |
| Dimensions.MediantNeighbours | src/utils.ts:278 | the mediant of two Stern–Brocot neighbours is a neighbour of each |
| Dimensions.BetweenNeighbours | src/utils.ts:278-298 | a fraction strictly between two neighbours has a denominator of at least the sum of theirs |
| Dimensions.Exhausted | src/utils.ts:281-296 | once the mediant's denominator passes the limit, no fraction within the limit equals w/h, and the bounds are the closest within the limit on each side |
| Dimensions.Strictly | src/utils.ts:285-292 | w/h strictly between neighbours needs a denominator of at least the sum of theirs |
| Dimensions.SmallestDenominator | src/utils.ts:285-288 | no fraction with a denominator below the mediant's equals w/h |
| Dimensions.SearchOutcome | src/utils.ts:280-298 | each way the search stops returns a fraction within the limit: the exact ratio in lowest terms when one exists, otherwise the nearest bound on its side |
| Dimensions.RaiseLower | src/utils.ts:280-284 | moving the lower bound to the mediant keeps the bracket and lowers the termination measure |
| Dimensions.LowerUpper | src/utils.ts:293-297 | moving the upper bound to the mediant keeps the bracket and lowers the termination measure |
| Dimensions.AspectRatio | src/utils.ts:273-299 | denominator between 1 and the limit; equal to w/h exactly when some fraction within the limit is, and then in lowest terms; otherwise the closest fraction within the limit on its side of w/h |
| Dimensions.GetAspectRatio | src/utils.ts:270-272 | the `"n:d"` text of the fraction it returns, with denominator at most 21: w/h in lowest terms when that fits, otherwise the closest fraction within 21 on its side of w/h |
| Dimensions.RoundDiv | src/utils.ts:337 | n/d rounded to the nearest whole number, halves up |
| Dimensions.RoundDivUnique | src/utils.ts:337 | that rounding has exactly one result |
| Dimensions.Scaled | src/utils.ts:337 | (left / right) · desired rounded, and None exactly for a missing factor or a zero divisor |
| Dimensions.GetDimension | src/utils.ts:312-338 | a number exactly when the factor's parts are numbers and the divisor is non-zero; the number is (left / right) · desired rounded |
| Dimensions.InferDimension | src/utils.ts:334-337 | without a ratio text, getDimension always gives a number |
| Dimensions.InferOriginal | src/utils.ts:334-337 | the original width gives back the original height, and the original height the original width |
| Dimensions.DimensionFromRatio | src/utils.ts:327-332 | with the `"n:d"` text of a fraction, the height is desired · d / n rounded |
| Dimensions.InferRoundTrip | src/utils.ts:334-337 | width to height and back is within (w + h) / 2h of the start |
| Dimensions.InferRoundTripPortrait | src/utils.ts:334-337 | for an image no wider than tall, width to height and back is off by at most 1 |
| Dimensions.InferWideThere | src/utils.ts:334-337 | a 1000×1 image asked for width 500 gets height 1 |
| Dimensions.InferWideBack | src/utils.ts:334-337 | and height 1 gives back width 1000, not 500 |
| Dimensions.InferVanishes | src/utils.ts:334-337 | the inferred height is 0 exactly when 2·h·t < w for a w×h image asked for width t (on a 1000×1 image, any width below 500) |
| Dimensions.RoundDivMonotone | src/utils.ts:337 | rounding keeps order |
| Dimensions.InferMonotone | src/utils.ts:334-337 | a larger requested side never gives a smaller inferred side |
| Dimensions.DefaultSize | src/utils.ts:194-223 | the side is width exactly when width ≤ height; the sizes are the steps of the increment along the smaller side |
| Dimensions.StepSizesIncreasing | src/utils.ts:207-221 | the default sizes strictly increase and lie in 1..smaller side |
| Dimensions.StepSizesLast | src/utils.ts:221 | the smaller side ends the list exactly when it is not a multiple of the increment |
| Dimensions.StepSizesDegenerate | src/utils.ts:207-221 | an increment above the smaller side gives just that side; one equal to it gives no sizes |
| Conditions.SplitCondition | src/utils.ts:181-187 | with no ") " the text is all descriptor; otherwise the media is the trimmed text up to the last ") " and ends in ')', and the descriptor is the trimmed rest and holds no ") " |
| Conditions.ClosesWithParen | src/utils.ts:186 | trimming text that ends in ')' keeps the ')' last |
| Conditions.NoLaterOccurrence | src/utils.ts:185 | nothing after the last ") " contains another |
| Conditions.NothingAfterMedia | src/utils.ts:185 | in media + " " + descriptor no ") " starts at the joining space or later |
| Conditions.SplitConditionRoundTrip | src/utils.ts:181-187 | a trimmed media ending in ')' joined by a space to a trimmed descriptor without ") " splits back into the two |
| Conditions.Statics | src/utils.ts:165 | the literal class names: every one kept, nothing else |
| Conditions.Dynamics | src/utils.ts:167 | the names starting "d:" or "{": every one kept, nothing else |
| Conditions.Partition | src/utils.ts:165-167 | the two filters together hold every name as often as the list does |
| Conditions.StaticsAll | src/utils.ts:165 | with no dynamic name the literal filter is the whole list |
| Conditions.Quoted | src/utils.ts:170 | each literal name in single quotes |
| Conditions.Unmarked | src/utils.ts:171 | each dynamic name with "d:" removed |
| Conditions.ClassBuilder | src/utils.ts:162-174 | starts with '{' exactly when some name is dynamic; all-literal gives the names space-joined in double quotes, otherwise `{cn([...])}` with the quoted literals first and the unmarked dynamic names after |
| Conditions.ClassListRoundTrip | src/utils.ts:173 | all-literal names without spaces can be split back out of the attribute |
| Conditions.ExpressionUnchanged | src/utils.ts:171 | a dynamic expression without "d:" reaches `cn` unchanged |
| Plan.Fit | src/utils.ts:79-80 | keeps exactly the sizes within the bound |
| Plan.FitAppend | src/utils.ts:79-80 | filtering keeps order: it distributes over concatenation |
| Plan.FitNonEmpty | src/utils.ts:79-80 | filtering only a non-empty list gives the same as filtering always |
| Plan.FitUnchanged | src/utils.ts:79-80 | a list already within the bound is kept whole |
| Plan.TotalImages | src/utils.ts:104-111 | at least 1, and exactly 1 with no picture types |
| Plan.OutputSizeOfOriginal | src/utils.ts:356-376 | asking for the original width or height gives the original size |
| Plan.OutputSizeWithin | src/utils.ts:360-375 | a request within the original side never gives a larger image |
| Plan.RoleTailHead | src/utils.ts:378 | a placeholder name part starts with a letter, any other with a digit |
| Plan.DigitsThen | src/utils.ts:378 | text made of digits, then a non-digit, then a rest splits in only one way |
| Plan.NameTailInjective | src/utils.ts:378 | `<w>w<h>h.<type>` determines w, h and type |
| Plan.RoleTailInjective | src/utils.ts:378 | the name after the image name determines placeholder role, width, height and type |
| Plan.ImageNameInjective | src/utils.ts:378 | two images of one source share a name only when role, width, height and type agree |
| Plan.JoinPathInjective | src/utils.ts:380-382 | different names in one directory give different paths |
| Plan.PathsOfFile | src/utils.ts:378-382 | the disk path and the public path both come from the one file name |
| Plan.PublicPathSlashes | src/utils.ts:409-410 | with `linuxPaths` and no `omit.remove` in the path, every backslash becomes a slash |
| Plan.PublicPathStrip | src/utils.ts:409-411 | a leading `omit.remove` is replaced by a literal `omit.add` |
| Plan.PublicPathFirst | src/utils.ts:409-411 | the first `omit.remove` in the path, wherever it is, becomes a literal `omit.add`, and the rest of the path stays |
| Plan.PublicPathPrepend | src/utils.ts:409-411 | an empty `omit.remove` puts `omit.add` in front |
| Plan.Request | src/utils.ts:387 | one more request adds its path to the files, and encodes it exactly when it is not there yet |
| Plan.EncodedSingle | src/utils.ts:387 | a single request is encoded exactly when its file is not there yet |
| Plan.EncodedAppend | src/utils.ts:387 | the encodes of two runs of requests are those of the first, then those of the second against the grown directory |
| Plan.EncodedFresh | src/utils.ts:387 | exactly the requested files not already on disk are encoded, and each only once |
| Plan.Entries | src/utils.ts:446-448 | one srcset entry per size |
| Plan.Files | src/utils.ts:446-447 | one file per size |
| Plan.EntriesSnoc | src/utils.ts:446-448 | one more size appends its entry and file |
| Plan.EntriesIndex | src/utils.ts:446-448 | the i-th entry and file are those of the i-th size |
| Plan.SrcSetFiles | src/utils.ts:446-447 | one file per chosen size |
| Plan.SrcSetDescribesWidths | src/utils.ts:447-448 | the i-th srcset entry ends in " <width>w" for the width of the i-th image, which is the i-th size when the sizes are widths |
| Plan.EntryEnds | src/utils.ts:448 | an entry ends with its image's width descriptor |
| Plan.WidthSuffix | src/utils.ts:448 | a path followed by " <w>w" ends with the descriptor of w |
| Plan.SrcSetFilesDistinct | src/utils.ts:446-447 | distinct sizes give distinct files |
| Plan.SrcSetWithinOriginal | src/utils.ts:440-448 | sizes within the original side never upscale |
| Plan.PictureFiles | src/utils.ts:520-521 | one file per picture type and size |
| Plan.HasAppend | src/utils.ts:459-493 | an attribute list built from two parts has a key exactly when one of the parts has it |
| Plan.RenderedAttr | src/utils.ts:463-492 | every attribute's text appears in the rendered tag |
| Plan.ClassAttr | src/utils.ts:465 | a class attribute exactly when there are classes |
| Plan.StyleAttr | src/utils.ts:469-473 | a style attribute exactly when styles are set |
| Plan.SrcSetAttrs | src/utils.ts:477-481 | srcset and sizes exactly when the image is not in a picture |
| Plan.FallbackAttrs | src/utils.ts:482-485 | src, alt, width and height always |
| Plan.TitleAttr | src/utils.ts:486 | a title exactly when one is set |
| Plan.HintAttrs | src/utils.ts:487-491 | loading, decoding and fetch priority always |
| Plan.HasSix | src/utils.ts:459-493 | a key is in six concatenated attribute groups exactly when it is in one of them |
| Plan.CarriedByGroups | src/utils.ts:459-493 | the six groups' keys together are exactly those the `<img>` carries |
| Plan.ImgAttrKeys | src/utils.ts:459-494 | the `<img>` carries class, style, title only when set, srcset and sizes only outside a picture, the rest always |
| Plan.SourceAttrShape | src/utils.ts:503-511 | a source has its type first, media only when given, then sizes and srcset last |
| Plan.Indented | src/utils.ts:521 | each line with a tab in front |
| Plan.ConcatLines | src/utils.ts:519-524 | lines each ending in a newline, followed by the rest, form the newline join of all |
| Plan.PictureLines | src/utils.ts:518-526 | the picture splits into lines: `<picture >`, one tabbed line per source, the tabbed `<img>` and `</picture>` |
| Plan.ImageState.GetState | src/utils.ts:48-116 | filters the size lists, clamps the fallback width, makes the fallback image, builds the class string, sets the count to 0 and totals the images |
| Plan.ImageState.CreateFallback | src/utils.ts:93-98 | the fallback image's public path and size, requested once |
| Plan.ImageState.CreateImage | src/utils.ts:347-429 | the output size and public path; the file is added and encoded only when new; the count rises by exactly 1 |
| Plan.ImageState.Measure | src/utils.ts:356-376 | the size createImage gives a request |
| Plan.ImageState.CreateEntry | src/utils.ts:447-448 | one image of a srcset and its `"<path> <width>w"` entry |
| Plan.ImageState.CreateSrcSet | src/utils.ts:437-451 | the entries of the chosen size list in its order, joined by ", "; one request per size |
| Plan.ImageState.CreateImgTag | src/utils.ts:459-494 | the `<img>` from its attribute groups; outside a picture it requests the first type's srcset, inside it requests nothing |
| Plan.ImageState.CreateSourceTag | src/utils.ts:503-511 | the `<source>` for one type, requesting that type's srcset |
| Plan.ImageState.CreatePictureTag | src/utils.ts:518-526 | one source per picture type in order, then the `<img>` without srcset; one request per type and size |
| Plan.ImageState.SourceTags | src/utils.ts:520-521 | one source per type |
| Plan.ImageState.SourcesStep | src/utils.ts:520-521 | one more type appends its tabbed source line |
| Plan.ImageState.PictureFilesStep | src/utils.ts:520-521 | one more type appends its srcset files |
| Plan.ImageState.TotalCounted | src/utils.ts:104-111 | totalImages is the fallback plus the files of one picture |
| Pixx.NamesAgree | src/schema.ts:11-32 | the store's dialect spells each attribute as the tag builders do for the same `jsx` flag |
| Pixx.RenderedAgree | src/schema.ts:11-32 | so both render the same attributes identically |
| Pixx.MediaPresence | src/pixx.ts:69-72 | a media text exactly in art direction with a ") " in the condition; it is the trimmed text up to the last ") " and ends in ')' |
| Pixx.SourceLines | src/pixx.ts:76-85 | one line per source of an entry |
| Pixx.SourceLinesAt | src/pixx.ts:76-85 | the j-th line is the j-th source's |
| Pixx.AllSourceLines | src/pixx.ts:67-86 | as many lines as the entries have sources |
| Pixx.SourceCountPrefix | src/pixx.ts:67-86 | the entries before an entry, and with it, hold no more sources than all |
| Pixx.SourceOrder | src/pixx.ts:67-86 | source j of entry i is line (sources before entry i) + j, with entry i's media |
| Pixx.SourceLineAttrs | src/pixx.ts:78-83 | type first, sizes and srcset last, and media exactly in art direction with a ") " in the condition |
| Pixx.SrcAttr | src/pixx.ts:90 | just the src |
| Pixx.ImgSrcSetAttr | src/pixx.ts:91 | a srcset exactly in resolution switching |
| Pixx.LookAttrs | src/pixx.ts:92-95 | style and class, each exactly when non-empty |
| Pixx.FixedAttrs | src/pixx.ts:96-99 | sizes, alt, width and height always |
| Pixx.ImgKeys | src/pixx.ts:89-104 | the `<img>` carries srcset only in resolution switching, style, class and title only when set, and src, sizes, alt, width, height, loading, decoding and fetch priority always |
| Pixx.CarriedByParts | src/pixx.ts:90-103 | the six groups' keys together are exactly those the `<img>` carries |
| Pixx.ImgSrcSetFromFirst | src/pixx.ts:91 | in resolution switching the second attribute is the first source's srcset, or "undefined" |
| Pixx.ImgClosing | src/pixx.ts:104 | the `<img>` ends " />" in JSX and " >" in HTML |
| Pixx.ImgFromLast | src/pixx.ts:89 | only the last entry shapes the `<img>`; in resolution switching earlier entries change nothing |
| Pixx.PictureFrame | src/pixx.ts:108 | outside resolution switching: "<picture>\n", then the source lines, and "\n</picture>" at the end |
| Pixx.Framed | src/pixx.ts:108 | the picture frame around any sources and image text |
| Pixx.SourceBlock | src/pixx.ts:76-85 | the reduce concatenates an entry's source lines in order |
| Pixx.SourcesStep | src/pixx.ts:75-86 | one more entry appends its source lines |
| Pixx.BuildMarkup | src/pixx.ts:64-108 | the loop's result is the markup: the `<img>` alone in resolution switching, otherwise the picture around all source lines and the `<img>` |
| Pixx.QuotedAll | src/pixx.ts:113 | each hash in single quotes, in order |
| Pixx.StylePolicy | src/pixx.ts:111-114 | a policy exactly when there are hashes |
| Pixx.StylePolicyHashes | src/pixx.ts:113-114 | the fixed head, the quoted hashes and ';'; space-free hashes read back in order |
| Pixx.CatchAsWritten | src/pixx.ts:143-179 | the catch block rejects exactly when no store was built, and otherwise resolves with "" |
| Pixx.StoreErrorRejects | src/pixx.ts:143-179 | an error inside createStore does not give "" |
| Pixx.Render | src/pixx.ts:28-179 | the markup when nothing threw; "" for an error after the store exists; a rejected promise for an error inside createStore |
| Pixx.RenderGuarded | src/pixx.ts:143-179 | with the log flag read only when there is a store, every error gives "" and success gives the markup |

## Left out

- Image encoding, metadata and the blur placeholder (sharp, exifr, image-size) are foreign libraries. Metadata is an input (`Plan.Target`). Encoding inserts the file's path into the set of existing files. The base64 placeholder text is not modelled.
- File system: `getFile` and `createNewImageDir` are not modelled. A `clean` run starts from an empty directory. The paths `path.join` builds are modelled as directory, separator and name. `path.resolve` is left to the caller.
- `Plan.JoinPath`: `path.join`'s normalisation (`..`, repeated separators) is not modelled.
- Console output is not modelled: the progress bar, the preload `<link>` print, the missing-sizes warning, the chalk and write-stream logging, and the printing of the Content-Security-Policy. The policy text itself is modelled.
- Zod's error messages and prettifying are not modelled. A rejected option object is `None`. A thrown error is `Pixx.Prepared.Thrown`, which records whether the store had been built.
- The `nextjs` branch of `getState` is not modelled: the schema has no `nextjs` key and drops unknown keys, so the branch cannot run.
- `createStore`, `createAllImageMeta` and `createAllImages` are imported by src/pixx.ts but are not part of this model. The store is an input to `Pixx.BuildMarkup`, and its dialect is taken as given.
- Source rewriting (`replaceAsync`, `asyncFn`), the bundler plugins, the loader and the development entry point are not part of this model.
- Floating point is not modelled. `width / height` is the exact fraction. `Math.round` is exact round-half-up, which is what it does on the non-negative values involved.
- Dimensions.GetAspectRatio: compares w/h exactly; the source compares a double, so on ratios within rounding error of a candidate fraction the two can differ.
- Dimensions.DefaultSize: requires a positive increment. With 0 or a negative increment the source's loop never ends.
- Plan.Settings: `widths`, `heights`, `fallbackWidth` and `incrementSize` are whole numbers of at least 0, but the option schema accepts any number. A negative width or height passes getState's filter and goes on to createImage and the image library. A negative `fallbackWidth` is truthy, so it becomes a width request. The plan does not model these inputs.
- Plan.ImageState.GetState: requires a positive increment (as DefaultSize) and a positive original width and height, which the metadata step guarantees. Its ensures states the filters and the default sizes through `Planned()` rather than repeating them.
- Text.ToNumber: reads only decimal digits after trimming. Signs, fractions, exponents and hexadecimal, which unary `+` also accepts, give `None`, like text that is not a number.
- Schema.Json: option numbers are whole numbers. Fractional numbers in the options are not modelled.
- Plan.Settings: `styles` is a single text, which is how createImgTag reads it: braced when it starts with '{', quoted otherwise. The schema's list form of `styles` is not joined into it.

## Findings

| source | as written | input that shows it | evidently intended | confidence | as-written member | corrected member |
|---|---|---|---|---|---|---|
| src/pixx.ts:143-179 | `store` starts as `{}` (line 29) and is set only when createStore returns (line 33). Every branch of the catch block reads `store.options.log`, which throws a TypeError when createStore itself threw. | options createStore rejects, such as `picTypes: []`; the ZodError leaves `store` as `{}`, and line 149 throws out of the catch | the closure resolves with `''` for every error, as the comment at line 144 says | not executed; createStore's body is not part of this model, and its comment at line 32 says it checks the options | Pixx.Render | Pixx.RenderGuarded |
