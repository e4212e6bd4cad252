# Comment images and video: a Dafny model

This project models the core of a small browser tool and its companion
download script.

- **The script** (`yt-comments.py`) downloads a YouTube video's comments. It drops spam and politically sensitive comments, censors sensitive words in author names, and threads the replies under their parents.
- **The browser tool** takes such a JSON file and:
  - turns each comment into a record (`comment-parser.js`);
  - wraps its text and computes its card height (`utils.js`, `comment-parser.js`);
  - packs comments into 1080-pixel pages (`comment-parser.js`);
  - draws every page as SVG cards (`image-generator.js`);
  - picks screenshot times for an uploaded video (`video-processor.js`);
  - keeps the generated images in groups for preview (`ui-controller.js`);
  - assembles all images into a video with FFmpeg (`video-generator.js`).

Each source file is one Dafny module. Two more modules hold shared pieces:

- `Strings`: decimal rendering, `padStart`, `split` and substring search.
- `JsValues`: parsed JSON values, property access, truthiness, `Option` and `Result`.

Values that come from outside are parameters:

- `JSON.parse` results;
- `Math.random` draws;
- the URL regular expression;
- local-time formatting;
- SVG-to-PNG rasterising;
- frame capture;
- FFmpeg's progress reports.

Code that works step by step is modelled imperatively:

- the wrapping loop;
- the layout and chunking loops;
- the SVG cursor loop;
- the random-timestamp sort (in place on an `array`);
- the censoring loop;
- the script's two passes over the comments;
- the video generator's writing and clean-up loops;
- the `UIController` class.

Each such method is proved equal to a specification function, or to a property of one. The lemmas state what the source promises about those functions.

## Model

| member | source | states |
|---|---|---|
| JsValues.Get | comment-parser.js:13 | reading a property throws exactly when the value is `null` |
| JsValues.Or | comment-parser.js:18-23 | `v \|\| d` is `v` when `v` is truthy and `d` otherwise |
| Strings.PadStart | video-generator.js:100 | `padStart` leaves a long enough string unchanged, otherwise reaches the width and ends with the string |
| Strings.NatToStringRoundTrip | video-generator.js:100 | `String(n)` is a non-empty digit string that reads back as `n` |
| Strings.LeadingZerosValue | video-generator.js:100 | padding a digit string with zeros keeps its value |
| Strings.SplitJoin | video-generator.js:67 | joining the pieces of `split` with the separator gives the string back; no piece holds the separator |
| Strings.SplitPair | video-generator.js:67 | `a + "x" + b` without other `x` splits into exactly `[a, b]` |
| TextUtils.Width | utils.js:17-22 | the line length wrapping produces is the budget when it is at least 1, and 1 otherwise |
| TextUtils.WrappedShape | utils.js:13-26 | empty text gives `[""]`; otherwise the lines concatenate to the text, are non-empty, and all but the last have exactly the width |
| TextUtils.WrappingUnique | utils.js:13-26 | at most one list of lines has that shape, so `Wrapped` is the wrapping |
| TextUtils.WrappingShape | utils.js:17-25 | the text is one line exactly when it fits the width |
| TextUtils.WrappedLineCount | utils.js:17-25 | the number of lines is the length divided by the width, rounded up |
| TextUtils.WrapText | utils.js:13-26 | the loop returns `Wrapped(text, maxChars)` |
| TextUtils.ReplaceChar | utils.js:9 | replacing a character the string does not hold changes nothing |
| TextUtils.ReplaceCharSplit | utils.js:9 | a global replacement distributes over concatenation |
| TextUtils.EscapeChainCharwise | utils.js:9 | the chain of four global replacements equals escaping character by character |
| TextUtils.EscapeEachNoRaw | utils.js:9 | character-wise escaping leaves no raw `<`, `>` or `'` |
| TextUtils.EscapeHtmlSafe | utils.js:7-10 | `escapeHTML` output holds no raw `<`, `>` or `'` |
| TextUtils.EscapeHtmlAsWritten | utils.js:7-10 | the chain of four replacements escapes each character on its own, and a falsy (empty) string gives the empty string |
| TextUtils.EscapeHtmlTable | utils.js:7-10 | `escapeHTML` maps `&`, `<`, `>`, `'` to `&amp;`, `&lt;`, `&quot;`, `&#039;`; other characters, `"` included, are kept; empty input gives empty output |
| TextUtils.EscapeHtmlDefect | utils.js:9 | unescaping the escape of `>` yields `"`, not `>` |
| TextUtils.EscapeIntendedRoundTrip | utils.js:9 | with `>` escaped as `&gt;`, unescaping gives the text back and no raw `<`, `>`, `'` remains |
| TextUtils.EachRoundTrip | utils.js:9 | character-wise escaping with `&gt;` is undone by XML unescaping |
| CommentParser.ItemsOf | comment-parser.js:13 | an array is used as is; a non-object, non-null value gives no items; `null` throws |
| CommentParser.ReplyOf | comment-parser.js:29-33 | a reply record fails only for `null`; its name is truthy, its text truthy or `""`, its datetime truthy or `null` |
| CommentParser.RepliesOf | comment-parser.js:26-35 | replies succeed when no element is `null`, with one record per element in order |
| CommentParser.RepliesFirstError | comment-parser.js:27-34 | the failure is the one of the first `null` reply |
| CommentParser.CommentOf | comment-parser.js:15-38 | a comment fails on `null` and, when `replies` is an array, exactly when a reply fails; without that array it has no replies; the defaults make the name truthy, the text truthy or `""`, `likes` never `null` |
| CommentParser.ParseJsonComments | comment-parser.js:7-44 | one comment per item in order, or the first failure; every failure message starts with `JSON格式错误: ` |
| CommentParser.ParseItem | comment-parser.js:15-38 | one item becomes its comment record, or the error reading a property of `null` raises |
| CommentParser.ParseReplies | comment-parser.js:26-35 | the reply loop computes `RepliesOf` |
| CommentParser.MainCardHeight | comment-parser.js:56-58 | a main card is at least 45 high |
| CommentParser.ReplyCardHeight | comment-parser.js:65-67 | a reply card is at least 45 high |
| CommentParser.RepliesHeightAppend | comment-parser.js:68 | each reply adds its card height plus the 2-pixel gap |
| CommentParser.CalculateLayout | comment-parser.js:47-75 | the comment is kept, the layout follows from the wrapped lines, every card is at least 45 high, and the total is at least 50 plus 47 per reply |
| CommentParser.LayOutReplies | comment-parser.js:61-71 | one layout per reply, in order, each at least 45 high; the height added is the cards plus a 2-pixel gap each, at least 47 per reply |
| CommentParser.LayOutReply | comment-parser.js:64-67 | a reply is wrapped at 55 characters and its card is at least 45 high |
| CommentParser.ChunkifyComments | comment-parser.js:78-94 | the chunks concatenate to the input, none is empty, each fits 1060 unless it is a single comment, and each was closed only when the next comment did not fit |
| CommentParser.PlaceItem | comment-parser.js:82-91 | after one more item, the closed chunks and the open one still hold exactly the items seen, packed greedily |
| CommentParser.CloseOpen | comment-parser.js:92 | pushing the open chunk, if any, completes a greedy chunking, and no items give no chunks |
| CommentParser.ExtendChunk | comment-parser.js:89-90 | a comment that fits joins the current chunk |
| CommentParser.StartChunk | comment-parser.js:84-88 | a comment that does not fit closes the chunk and starts a new one |
| CommentParser.CloseChunk | comment-parser.js:92 | the last non-empty chunk completes the packing |
| CommentParser.FitsAppend | comment-parser.js:84-90 | a chunk grown under the 1060 limit still fits |
| CommentParser.ChunkHeightBound | comment-parser.js:84-90 | a chunk of two or more comments is at most 1060 high |
| CommentParser.FirstBreakIs | comment-parser.js:84-88 | the first chunk ends at the first comment that would overflow |
| CommentParser.GreedyChunkingUnique | comment-parser.js:78-94 | the greedy packing of a list is unique |
| CommentParser.EmptyChunking | comment-parser.js:92 | there are no chunks exactly when there are no comments |
| CommentParser.FirstChunkLength | comment-parser.js:82-88 | the first chunk is the longest prefix that the greedy rule allows |
| CommentParser.TailChunking | comment-parser.js:78-94 | the chunks after the first are the packing of the rest |
| ImageGenerator.Tspans | image-generator.js:16-18 | one text span per wrapped line |
| ImageGenerator.GenerateSvg | image-generator.js:7-110 | the scene is 1080 by 1080, shifted 40 right, and holds the cards of all comments in order |
| ImageGenerator.RenderReplies | image-generator.js:51-80 | the reply loop draws the comment's reply cards in order, and the cursor stops 5 short of the comment's full advance |
| ImageGenerator.GenerateStep | image-generator.js:11-82 | one turn of the comment loop appends that comment's cards and moves on |
| ImageGenerator.SpanIsRepliesHeight | image-generator.js:59-78 | the cursor's advance over replies equals the layout's replies height |
| ImageGenerator.AdvanceIsTotalHeight | image-generator.js:49-81 | the cursor advances by the comment's `totalHeight` |
| ImageGenerator.OffsetIsSumHeights | image-generator.js:49-81 | the cursor advance over a run of laid-out comments is the sum of their `totalHeight`s |
| ImageGenerator.SlotsLength | image-generator.js:11-80 | one card per comment and per reply |
| ImageGenerator.CommentSlotAt | image-generator.js:11-80 | card `j` of comment `k` comes right after the cards of the earlier comments, with the cursor advanced over them |
| ImageGenerator.MainSlotPlacement | image-generator.js:11-49 | the main card of comment `k` is the first card after the earlier comments' cards, at y 20 plus their advance |
| ImageGenerator.ReplySlotPlacement | image-generator.js:51-79 | reply `i` of comment `k` follows its main card and earlier replies, with its own layout and top |
| ImageGenerator.MainCardPlacement | image-generator.js:39-49 | comment `k`'s card is at x 0 and at the cursor after the earlier comments |
| ImageGenerator.MainCardAtTotalHeights | image-generator.js:49-81 | that cursor is 20 plus the `totalHeight`s of the earlier comments |
| ImageGenerator.ReplyCardPlacement | image-generator.js:52-79 | reply `i` of comment `k` is drawn at x 50 right after its main card and earlier replies |
| ImageGenerator.ReplyGaps | image-generator.js:59-78 | each reply starts 2 below the previous card |
| ImageGenerator.MainCardElements | image-generator.js:15-48 | a main card has four elements, plus one for a truthy datetime and one for a non-null like count; the frame, the avatar and the `@`-prefixed escaped name come first, the datetime label (if any) follows them, then the text block, and the like badge (if any) is last |
| ImageGenerator.MainCardFrame | image-generator.js:40-41 | the main card's frame is 1000 wide and as high as the layout says |
| ImageGenerator.MainCardLikeBadge | image-generator.js:28-37 | the like badge is drawn exactly when `likes` is not `null`, at (930, 15), with the count |
| ImageGenerator.MainCardDatetime | image-generator.js:20-26 | the datetime is drawn exactly when truthy, escaped, at x 800 |
| ImageGenerator.MainCardText | image-generator.js:16-45 | the text is drawn at (65, 38.5), one span per line, 18 apart |
| ImageGenerator.ReplyCardElements | image-generator.js:69-77 | a reply card has four elements, plus one for a truthy datetime; the frame, the avatar and the `@`-prefixed escaped name come first, the text block is last, and no element is a like badge |
| ImageGenerator.ReplyCardFrame | image-generator.js:70-71 | the reply frame is 950 wide at x 50, and reply cards have no like badge |
| ImageGenerator.ReplyCardDatetime | image-generator.js:62-67 | a reply's datetime is drawn exactly when truthy, escaped, at x 780 |
| ImageGenerator.ReplyCardText | image-generator.js:55-75 | a reply's text is drawn at (55, 37.5) at 13px, one span per line |
| ImageGenerator.EscapeValueSafe | image-generator.js:15 | escaped names and datetimes hold no raw `<`, `>`, `'` |
| ImageGenerator.TspansSafe | image-generator.js:16-18 | escaped text lines hold no raw `<`, `>`, `'` |
| ImageGenerator.CardsEscaped | image-generator.js:15-66 | every text the page embeds, except the like count, is escaped |
| ImageGenerator.LaidOutHeights | comment-parser.js:56-69 | computed layouts have non-negative card heights |
| ImageGenerator.SlotsWithin | image-generator.js:8-82 | all cards lie between the starting cursor and the final cursor, less 5 |
| ImageGenerator.PageOnCanvas | image-generator.js:8-82 | when the comments' heights total at most 1060, every card lies within the 1080 canvas |
| ImageGenerator.ChunksOnCanvas | comment-parser.js:78-94 | every page `chunkifyComments` makes with two or more comments is drawn within the canvas |
| VideoProcessor.Uniform | video-processor.js:58-62 | uniform mode gives `count` times, or none when `count` is not positive |
| VideoProcessor.Scaled | video-processor.js:64-66 | random mode draws `count` times from the random values |
| VideoProcessor.GenerateTimestamps | video-processor.js:55-71 | uniform mode gives the evenly spaced times; any other mode gives the scaled random draws, sorted ascending and as a permutation of them |
| VideoProcessor.SortAscending | video-processor.js:67 | the in-place sort leaves the array sorted and a permutation of the original |
| VideoProcessor.UniformIncreasing | video-processor.js:58-62 | uniform times strictly increase and lie strictly inside the clip |
| VideoProcessor.RandomInClip | video-processor.js:64-67 | random times lie in `[0, duration)` |
| VideoProcessor.SortedUnique | video-processor.js:67 | two sorted permutations of the same values are equal |
| YtComments.LowerChar | yt-comments.py:50 | lowercasing never creates or removes a `*` |
| YtComments.AnyOccursIff | yt-comments.py:51-54 | the keyword loop finds a hit exactly when some lowercased keyword occurs |
| YtComments.ContainsKeywordIff | yt-comments.py:46-54 | `contains_keyword` is true exactly for non-empty text containing a keyword, ignoring case |
| YtComments.MatchAtIsOccurrence | yt-comments.py:64-65 | a case-insensitive match is an occurrence in the lowercased strings |
| YtComments.Sub | yt-comments.py:64-65 | `re.sub` with a same-length mask keeps the length |
| YtComments.Scan | yt-comments.py:65 | the left-to-right substitution keeps the length |
| YtComments.ScanMasks | yt-comments.py:65 | substitution only turns characters into `*` |
| YtComments.ScanOnlyMatches | yt-comments.py:65 | substitution changes only characters that lie inside an occurrence of the keyword; every other character is kept |
| YtComments.ScanNoMatch | yt-comments.py:65 | after substitution the keyword no longer matches anywhere |
| YtComments.ScanUnchanged | yt-comments.py:65 | a string without a match is left unchanged |
| YtComments.CensorAll | yt-comments.py:62-65 | replacing the keywords in turn keeps the length |
| YtComments.CensorAllMasks | yt-comments.py:62-65 | censoring only turns characters into `*` |
| YtComments.CensorAllOnlyMatches | yt-comments.py:62-65 | censoring changes only characters inside an occurrence of some keyword in the original text; a later keyword cannot match across earlier `*`s |
| YtComments.CensorAllNoMatch | yt-comments.py:62-65 | after censoring no keyword matches anywhere |
| YtComments.CensorAllUnchanged | yt-comments.py:62-65 | a string without a keyword is left unchanged |
| YtComments.Insert | yt-comments.py:61 | insertion keeps the multiset plus the new keyword |
| YtComments.InsertLongestFirst | yt-comments.py:61 | insertion keeps the list longest first |
| YtComments.SortByLength | yt-comments.py:61 | sorting by length is a permutation |
| YtComments.SortByLengthOrdered | yt-comments.py:61 | the sorted list is longest first and holds every keyword |
| YtComments.CensorKeywords | yt-comments.py:56-66 | the censoring loop computes `Censor` and keeps the length |
| YtComments.CensorRemovesKeywords | yt-comments.py:56-66 | censored text is the input with some characters masked, only characters inside an occurrence of a keyword are masked, and no keyword remains in any letter case |
| YtComments.CensorIdempotent | yt-comments.py:56-66 | censoring twice is censoring once |
| YtComments.SensitiveKeywordsPlain | yt-comments.py:17-42 | every sensitive keyword is non-empty, holds no `*` and is unchanged by lowercasing |
| YtComments.StripAt | yt-comments.py:92-93 | one leading `@` is removed, and nothing else |
| YtComments.KeyOf | yt-comments.py:155 | lists and dicts cannot be keys |
| YtComments.KeyOfInjective | yt-comments.py:155 | distinct non-boolean scalars are distinct keys; `True`/`False` collide with `1`/`0` |
| YtComments.ProcessComment | yt-comments.py:84-126 | a comment is dropped exactly when its status is spam or sensitive |
| YtComments.ProcessCommentDecision | yt-comments.py:89-126 | spam is checked first, then sensitivity; a kept comment has the censored author, the original text, id and parent, and no replies; it is `censored_author` exactly when censoring changed the name |
| YtComments.ProcessCommentErrors | yt-comments.py:89-93 | processing raises exactly for a non-dict comment, a non-string author, or a truthy non-string text |
| YtComments.CensoredAuthorClean | yt-comments.py:105 | a censored author name contains no sensitive keyword |
| YtComments.KeptAuthorClean | yt-comments.py:103-118 | a kept comment's author contains no sensitive keyword |
| YtComments.KeptClean | yt-comments.py:96-123 | a kept comment has a clean author and a clean text, and starts without replies |
| YtConvert.Bump | yt-comments.py:156-159 | a non-clean status adds one to the statistics; clean adds nothing |
| YtConvert.Put | yt-comments.py:155 | storing a record sets that id and keeps every other entry |
| YtConvert.FilterPass | yt-comments.py:152-159 | the first loop computes `FilterSpec` |
| YtConvert.FilterErrSticky | yt-comments.py:152-153 | an exception ends the pass |
| YtConvert.FilterValid | yt-comments.py:152-159 | the insertion order lists each stored id once |
| YtConvert.FilterStats | yt-comments.py:149-159 | each counter is the number of comments with that status |
| YtConvert.FilterStepKept | yt-comments.py:153-157 | one comment adds or overwrites only its own id |
| YtConvert.FilterKeys | yt-comments.py:152-155 | the map holds exactly the ids of kept comments |
| YtConvert.FilterStored | yt-comments.py:152-155 | each id holds the record of the last kept comment with that id |
| YtConvert.ThreadStep | yt-comments.py:171-181 | threading one comment keeps the set of records |
| YtConvert.ThreadSpec | yt-comments.py:171-181 | threading keeps the set of records |
| YtConvert.ThreadPass | yt-comments.py:171-181 | the second loop computes `ThreadSpec` |
| YtConvert.ThreadErrSticky | yt-comments.py:171-174 | an exception ends the pass |
| YtConvert.Roots | yt-comments.py:180-181 | the roots are exactly the comments without a parent |
| YtConvert.Children | yt-comments.py:172-179 | the children of `q` are exactly the comments whose parent is `q` |
| YtConvert.ThreadStepEffect | yt-comments.py:172-181 | a comment becomes a root or is appended to its parent's replies, and nothing else changes |
| YtConvert.ThreadFields | yt-comments.py:171-181 | threading changes only the `replies` fields |
| YtConvert.ThreadOk | yt-comments.py:172-174 | threading raises exactly when some comment's parent id is set but is a list or dict |
| YtConvert.ThreadTop | yt-comments.py:180-181 | the top level is the roots in insertion order |
| YtConvert.ThreadReplies | yt-comments.py:172-179 | each record's replies are its children in insertion order |
| YtConvert.OrphanDropped | yt-comments.py:174-175 | a reply whose parent was filtered out appears nowhere |
| YtConvert.Meta | yt-comments.py:183-194 | the video fields are copied, one per listed key |
| YtConvert.Items | yt-comments.py:147-152 | iterating the comments fails only for `null`, numbers and booleans |
| YtConvert.ConvertComments | yt-comments.py:146-196 | the conversion computes `Convert` |
| YtConvert.FilterFresh | yt-comments.py:123 | after the first pass every record has no replies |
| YtConvert.ConvertPasses | yt-comments.py:146-181 | a successful conversion is the threading of the filtered comments |
| YtConvert.ConvertedThreads | yt-comments.py:170-181 | the output's top level is the roots, and each record's replies are its children |
| YtConvert.ConvertedClean | yt-comments.py:146-181 | no converted record has a sensitive keyword in its author or text |
| VideoGenerator.FileNameDigits | video-generator.js:100 | the name of image `i` is `img`, digits reading back as `i`, then `.png` |
| VideoGenerator.FileNameInjective | video-generator.js:100 | different images get different names, none of them `inputs.txt` |
| VideoGenerator.FileNamesDistinct | video-generator.js:100 | the names written are pairwise distinct and exclude `inputs.txt` |
| VideoGenerator.ConcatLines | video-generator.js:105-106 | the list has a `file` line and then a `duration` line for each image |
| VideoGenerator.ConcatContentLines | video-generator.js:97-106 | the concat text splits into exactly those lines, then a final empty piece |
| VideoGenerator.TotalDurationListed | video-generator.js:121-124 | the durations in the concat list add up to the total the progress uses |
| VideoGenerator.BuildCommand | video-generator.js:65-67 | the command fails exactly when the resolution is truthy but not a string |
| VideoGenerator.BuildCommandShape | video-generator.js:69-79 | the command has 16 arguments, all fixed except the filter |
| VideoGenerator.DimensionsDecimal | video-generator.js:67 | `WxH` splits and converts back to the two decimal numbers |
| VideoGenerator.BuildCommandEmbeds | video-generator.js:66-73 | a `WxH` resolution puts W and H in the scale and pad filter |
| VideoGenerator.BuildCommandDefault | video-generator.js:66 | a falsy resolution gives a 1080 by 1080 filter |
| VideoGenerator.WritePercentBounds | video-generator.js:108 | writing progress lies in 0..100, never decreases, and ends at 100 |
| VideoGenerator.TranscodePercentBounds | video-generator.js:125 | for event times from 0 on and a positive total, transcoding progress lies in 0..100, never decreases, starts at 0 and reaches 100 at the total |
| VideoGenerator.TranscodePercentAnyTime | video-generator.js:119-126 | for any event, the percentage is a number exactly when the time is present and the division is finite or positive; it is at most 100; a time at or below minus 1% of the total gives a negative percentage |
| VideoGenerator.LoadSteps | video-generator.js:91-94 | one report per loader progress event |
| VideoGenerator.WriteSteps | video-generator.js:98-110 | two steps per image |
| VideoGenerator.TranscodeSteps | video-generator.js:119-127 | one report per FFmpeg progress event |
| VideoGenerator.CleanSteps | video-generator.js:135-138 | one unlink per image |
| VideoGenerator.WriteImages | video-generator.js:97-111 | the writing loop performs `WriteSteps` and builds `ConcatContent` |
| VideoGenerator.CleanUp | video-generator.js:135-138 | the clean-up loop performs `CleanSteps` |
| VideoGenerator.Generate | video-generator.js:89-142 | `generate` performs the trace and returns the command given by `GenerateSpec` |
| VideoGenerator.GenerateStagesOrdered | video-generator.js:90-134 | reported stages never go back: loading, writing, command, transcoding, reading, cleaning |
| VideoGenerator.WriteStepsFiles | video-generator.js:98-101 | the writing loop writes the image files in order and deletes none |
| VideoGenerator.CleanStepsFiles | video-generator.js:135-138 | the clean-up loop deletes the image files in order |
| VideoGenerator.WriteBlockFiles | video-generator.js:96-113 | the writing stage writes the image files |
| VideoGenerator.CleanBlockFiles | video-generator.js:134-139 | the clean-up stage deletes the image files and then `inputs.txt` |
| VideoGenerator.GenerateFiles | video-generator.js:100-139 | every image file is written; a successful run deletes each one and then `inputs.txt`; a failed command deletes nothing |
| UiController.TitleCountIsImages | ui-controller.js:112-115 | the title's count is the number of images the preview cycles through |
| UiController.JsRem | ui-controller.js:209 | JavaScript `%` gives a remainder in `[0, n)` for a non-negative dividend |
| UiController.ImageAt | ui-controller.js:184 | the modal gets an image exactly when the index is a position of the list |
| UiController.NextPrevCycle | ui-controller.js:200-211 | next moves one forward and wraps from last to first; previous moves one back and wraps from first to last |
| UiController.NextPrevRestore | ui-controller.js:202-209 | next then previous, and previous then next, restore the index |
| UiController.ShowNextThenPrev | ui-controller.js:200-211 | from an index in range, next shows the following image and previous brings back the same index and image |
| UiController.NoImages | ui-controller.js:180-211 | with no images, next and previous make the index `NaN` and the image `undefined`, and opening the modal does nothing |
| UiController.OpenModalAt | ui-controller.js:180-185 | with images, opening sets the index and shows that image when it is in range; the groups are untouched |
| UiController.ThumbnailOpensItself | ui-controller.js:123-169 | clicking any thumbnail opens the modal on that very image |
| UiController.HandleKeyEffect | ui-controller.js:85-93 | only the arrows move the preview, only Escape closes, other keys do nothing, and no key changes groups or listeners |
| UiController.DeleteGroupEffect | ui-controller.js:139-141 | deleting group `g` removes exactly it, keeps the others in order, and lowers the count by its images |
| UiController.PushGroupKeepsImages | ui-controller.js:261 | a new group's images come after all existing ones, so the existing preview indices are unchanged |
| UiController.ListenerLeak | ui-controller.js:188-196 | each open-and-close cycle leaves one more `keydown` listener |
| UiController.ReopenSkipsImage | ui-controller.js:180-209 | with three images, opening, closing, reopening and pressing ArrowRight lands on the third image; with one bound listener it lands on the second |
| UiController.FixedListeners | ui-controller.js:188-196 | with one bound listener, at most one is registered, closing leaves none, and an arrow key moves exactly one image |
| UiController.TrimStart | ui-controller.js:215 | leading trimming removes only white space and stops at the first other character |
| UiController.TrimEnd | ui-controller.js:215 | trailing trimming removes only white space and stops at the last other character |
| UiController.TrimFirst | ui-controller.js:215 | trimmed text is empty exactly for white space; otherwise it starts with the first other character |
| UiController.TrimIdempotent | ui-controller.js:224-236 | trimming already trimmed input changes nothing |
| UiController.DetectInputFormat | ui-controller.js:214-220 | the format is `json` or `unknown` |
| UiController.DetectInputFormatFirst | ui-controller.js:214-220 | the format is `json` exactly when the first character other than white space is `{` or `[` |
| UiController.CommentInputAccepts | ui-controller.js:224-243 | input goes on to parsing exactly when it starts, after white space, with `{` or `[`; white space alone gets the empty-input alert |
| UiController.CommentGroupCounts | ui-controller.js:248-261 | the new group has one image per chunk, at least one when there are comments, and the chunk sizes the captions show add up to the number of comments |
| UiController.CommentImagesLastCommentDuration | ui-controller.js:251-257 | comment images are never captioned as screenshots, so the video gives them the comment duration |
| UiController.ScreenshotImagesLastScreenshotDuration | ui-controller.js:288-294 | screenshot captions carry the screenshot mark, so the video gives them the screenshot duration |
| UiController.UIController.constructor | ui-controller.js:6-16 | no groups, index 0, no listeners |
| UiController.UIController.ShowNextImage | ui-controller.js:207-211 | the new state is `ShowNext` of the old |
| UiController.UIController.ShowPrevImage | ui-controller.js:200-204 | the new state is `ShowPrev` of the old |
| UiController.UIController.OpenModal | ui-controller.js:180-189 | the new state is `Opened` of the old |
| UiController.UIController.CloseModal | ui-controller.js:192-197 | the modal is hidden; the listeners stay |
| UiController.UIController.HandleKeyDown | ui-controller.js:85-93 | the new state is `HandleKey` of the old |
| UiController.UIController.DeleteGroup | ui-controller.js:139-142 | the new state is `GroupDeleted` of the old |
| UiController.UIController.GenerateCommentGroup | ui-controller.js:246-261 | no comments gives the error and changes nothing; otherwise exactly one group, built from the greedy chunks of the laid-out comments, is appended |
| UiController.UIController.AddScreenshotGroup | ui-controller.js:287-297 | one group is appended, with one image per captured frame captioned `视频截图 i` |

## Left out

- I/O and platform code. This covers `yt-dlp`, reading and writing files, `argparse`, console output, the DOM and its CSS classes, `FileReader`, the ZIP download, the FFmpeg loader, and FFmpeg's own effects.
- Injected parameters. Each of these is a parameter and is not modelled further:
  - `JSON.parse` and `json.loads`;
  - `Math.random`;
  - the URL regular expression of `is_spam_comment`;
  - `datetime.fromtimestamp(...).strftime`;
  - `convertSvgToPng`;
  - `captureFrameAt`;
  - FFmpeg's progress events.
- The comment-generation pipeline. The link between the trimmed input text and the parsed value is not modelled.
- Concurrency. `Promise.all`, `await` and async callbacks are not modelled; every operation runs to completion in order.
- Numbers and characters:
  - JSON numbers are integers.
  - Layout heights and progress ratios are exact reals, not floating point.
  - Durations are whole seconds.
  - Characters are Unicode code points, not UTF-16 units.
- Python `str.lower()` is modelled on ASCII letters only.
- The number `-0`, and `NaN` other than as a preview index or a transcoding percentage, are not modelled.
- The first `generate` in video-generator.js:17-58 is not modelled. It is dead code, shadowed by the second definition at line 89.
- `buildCommand` returns 16 arguments, and this model follows the code.
- Non-digit resolutions:
  - NaN and other non-decimal forms of `Number(...)` are rendered only as `NaN`.
  - `Number` of a digit string is modelled; exponents, signs and hexadecimal are not.
- In the trace of `generate`, the FFmpeg run step comes before the transcoding reports that it emits.
- `setProgress` resetting is not modelled.
- `hideLoader`, `showLoader`, `renderAllGroups`' element building, `handleVideoUpload`, `handleZipDownload` and `initEventListeners` are DOM code and are not modelled.
- `handleScreenshotGeneration`'s video check, `parseInt` of the count and its alert paths are not modelled; the captured frames are the input.
- The catch-all alerts of `handleCommentGeneration` are not modelled beyond the messages above.
- Comments whose rendering throws are not modelled:
  - Non-string texts and names (arrays, objects) in wrapping and escaping.
  - A truthy number or boolean author or datetime, such as `"author": 123`. It passes parsing (comment-parser.js:18 and 21). `escapeHTML` (utils.js:8-9) then calls `.replace` on it, and `generateSVG` throws a `TypeError`.
  - ImageGenerator.GenerateSvg therefore requires renderable comments: string or falsy names and datetimes (see `Renderable` and `Escapable`) and scalar like counts.
  - CommentParser.CalculateLayout and UiController.UIController.GenerateCommentGroup require scalar texts.
- ImageGenerator.CardsEscaped: the like count is interpolated without escaping, as in the source, so it is excluded.
- YtComments.SortByLength: it is a permutation ordered by length, but the stability of Python's `sorted` among keywords of equal length is not stated.
- YtConvert: `json.dump` of the result is not modelled. Its output shares reply records by reference, as the Python dict does.
- VideoGenerator.BuildCommand: its 16-argument shape is stated by the lemma BuildCommandShape rather than by the function's own contract.
- UiController.DetectInputFormat: its own contract only bounds the result; the characterisation is DetectInputFormatFirst.
- UiController.UIController.OpenModal: an index that is not an integer is not modelled.

## Findings

The renderer and the controller follow the code as written. The corrected definitions are stated beside them with their intended properties proved.

| source | as written | input that shows it | evidently intended | confidence | as-written member | corrected member |
|---|---|---|---|---|---|---|
| utils.js:9 | `>` is replaced by `&quot;` | `escapeHTML(">")` is `&quot;`, which displays as `"` | `>` replaced by `&gt;`, so the text reads back unchanged | high, not executed | TextUtils.EscapeHtmlDefect | TextUtils.EscapeIntendedRoundTrip |
| ui-controller.js:188-196 | `openModal` registers a new arrow function each time; `closeModal` removes `this.handleKeyDown`, which was never registered | three images: open on the first, close, open on the first again, press ArrowRight; two listeners run and the third image is shown | one bound listener, added on open and removed on close | high, not executed | UiController.ReopenSkipsImage | UiController.FixedListeners |
