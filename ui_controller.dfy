/** `UIController` (ui-controller.js): the image groups on the page, the
    preview modal's position among all their images, keyboard handling, the
    output title's count, input-format detection, and the groups that comment
    and screenshot generation append. The DOM is not modelled; what it shows
    is kept as state: the modal's image source, whether the modal is open,
    and how many `keydown` listeners the document holds. */
module UiController {
  import opened Strings
  import opened JsValues
  import opened CommentParser
  import VideoGenerator

  type Image = VideoGenerator.Image

  /** One entry of `imageGroups`. */
  datatype ImageGroup = ImageGroup(title: string, images: seq<Image>)

  /** A JavaScript number used as the preview index: an integer, or `NaN`,
      which `x % 0` yields once there are no images left. */
  datatype Index = At(i: int) | NotANumber

  /** The controller's state: `imageGroups`, `currentPreviewIndex`, the
      modal image's source (`None` for `undefined`), whether the modal is
      shown, and the number of `keydown` listeners registered on the
      document. */
  datatype View = View(groups: seq<ImageGroup>, index: Index, modalImage: Option<string>,
                       modalOpen: bool, keyListeners: nat)

  /** The state the constructor leaves. */
  const Initial := View([], At(0), None, false, 0)

  // ---------------------------------------------------------------------
  // Flat image list and output title
  // ---------------------------------------------------------------------

  function DataUrls(images: seq<Image>): seq<string>
  {
    seq(|images|, i requires 0 <= i < |images| => images[i].dataUrl)
  }

  /** `imageGroups.flatMap(group => group.images.map(img => img.dataUrl))`. */
  function FlatImages(groups: seq<ImageGroup>): seq<string>
  {
    if |groups| == 0 then [] else DataUrls(groups[0].images) + FlatImages(groups[1..])
  }

  /** `imageGroups.reduce((acc, group) => acc + group.images.length, 0)`. */
  function TotalImages(groups: seq<ImageGroup>): nat
  {
    if |groups| == 0 then 0 else TotalImages(groups[..|groups| - 1]) + |groups[|groups| - 1].images|
  }

  /** The text `updateOutputTitle` puts in the output heading. */
  function OutputTitle(groups: seq<ImageGroup>): string
  {
    "3. 预览与拖拽 (共 " + NatToString(TotalImages(groups)) + " 张)"
  }

  lemma {:induction false} FlatImagesSplit(a: seq<ImageGroup>, b: seq<ImageGroup>)
    ensures FlatImages(a + b) == FlatImages(a) + FlatImages(b)
  {
    if |a| == 0 {
      assert a + b == b;
    } else {
      assert (a + b)[1..] == a[1..] + b;
      FlatImagesSplit(a[1..], b);
      AppendAssoc(DataUrls(a[0].images), FlatImages(a[1..]), FlatImages(b));
    }
  }

  lemma FlatImagesSingle(g: ImageGroup)
    ensures FlatImages([g]) == DataUrls(g.images)
  {
    assert FlatImages([g]) == DataUrls(g.images) + FlatImages([]);
  }

  /** The count in the output title is the number of images the preview
      cycles through. */
  lemma {:induction false} TitleCountIsImages(groups: seq<ImageGroup>)
    ensures TotalImages(groups) == |FlatImages(groups)|
    ensures OutputTitle(groups) == "3. 预览与拖拽 (共 " + NatToString(|FlatImages(groups)|) + " 张)"
    decreases |groups|
  {
    if |groups| > 0 {
      var front, last := groups[..|groups| - 1], groups[|groups| - 1];
      TitleCountIsImages(front);
      assert groups == front + [last];
      FlatImagesSplit(front, [last]);
      FlatImagesSingle(last);
    }
  }

  // ---------------------------------------------------------------------
  // The preview index
  // ---------------------------------------------------------------------

  /** JavaScript's `a % n` for a positive divisor: `n` is taken away from
      (or added to) `a` until what is left lies strictly between `-n` and
      `n`, with the sign of `a`; Dafny's `%` would never be negative. */
  function JsRem(a: int, n: int): (r: int)
    requires n > 0
    ensures a >= 0 ==> 0 <= r < n
    ensures a < 0 ==> -n < r <= 0
    decreases if a >= 0 then a else -a
  {
    if a >= n then JsRem(a - n, n)
    else if a <= -n then JsRem(a + n, n)
    else a
  }

  /** `(currentPreviewIndex + 1) % flatImages.length`. */
  function NextIndex(index: Index, n: nat): Index
  {
    match index
    case NotANumber => NotANumber
    case At(i) => if n == 0 then NotANumber else At(JsRem(i + 1, n))
  }

  /** `(currentPreviewIndex - 1 + flatImages.length) % flatImages.length`. */
  function PrevIndex(index: Index, n: nat): Index
  {
    match index
    case NotANumber => NotANumber
    case At(i) => if n == 0 then NotANumber else At(JsRem(i - 1 + n, n))
  }

  /** `flatImages[index]`: `undefined` unless the index is a position of
      the list. */
  function ImageAt(flat: seq<string>, index: Index): (r: Option<string>)
    ensures r.Some? <==> index.At? && 0 <= index.i < |flat|
  {
    if index.At? && 0 <= index.i < |flat| then Some(flat[index.i]) else None
  }

  /** On an index among `n` images, next moves one forward and wraps from
      the last to the first; previous moves one back and wraps from the
      first to the last. */
  lemma NextPrevCycle(i: int, n: nat)
    requires 0 <= i < n
    ensures NextIndex(At(i), n) == At(if i + 1 == n then 0 else i + 1)
    ensures PrevIndex(At(i), n) == At(if i == 0 then n - 1 else i - 1)
  {
    if i + 1 == n {
      assert JsRem(i + 1, n) == JsRem(0, n);
    }
    if i > 0 {
      assert JsRem(i - 1 + n, n) == JsRem(i - 1, n);
    }
  }

  /** Next then previous, and previous then next, return to the index. */
  lemma NextPrevRestore(i: int, n: nat)
    requires 0 <= i < n
    ensures PrevIndex(NextIndex(At(i), n), n) == At(i)
    ensures NextIndex(PrevIndex(At(i), n), n) == At(i)
  {
    NextPrevCycle(i, n);
    var j := if i + 1 == n then 0 else i + 1;
    var k := if i == 0 then n - 1 else i - 1;
    NextPrevCycle(j, n);
    NextPrevCycle(k, n);
  }

  // ---------------------------------------------------------------------
  // State transitions
  // ---------------------------------------------------------------------

  /** `showNextImage`. */
  function ShowNext(v: View): View
  {
    var flat := FlatImages(v.groups);
    var index := NextIndex(v.index, |flat|);
    v.(index := index, modalImage := ImageAt(flat, index))
  }

  /** `showPrevImage`. */
  function ShowPrev(v: View): View
  {
    var flat := FlatImages(v.groups);
    var index := PrevIndex(v.index, |flat|);
    v.(index := index, modalImage := ImageAt(flat, index))
  }

  /** `openModal(index)`: nothing without images; otherwise shows the image
      at `index` and registers a new arrow-function `keydown` listener. */
  function Opened(v: View, index: int): View
  {
    var flat := FlatImages(v.groups);
    if |flat| == 0 then v
    else v.(index := At(index), modalImage := ImageAt(flat, At(index)), modalOpen := true,
            keyListeners := v.keyListeners + 1)
  }

  /** `closeModal` as written: it hides the modal, but the listener it asks
      the document to remove, `this.handleKeyDown`, was never registered, so
      every listener stays. */
  function Closed(v: View): View
  {
    v.(modalOpen := false)
  }

  /** `handleKeyDown(e)` for `e.key == key`. */
  function HandleKey(v: View, key: string): View
  {
    if key == "ArrowLeft" then ShowPrev(v)
    else if key == "ArrowRight" then ShowNext(v)
    else if key == "Escape" then Closed(v)
    else v
  }

  /** The document delivering one `keydown` event to `remaining` listeners
      that each call `handleKeyDown`. */
  function Dispatch(v: View, key: string, remaining: nat): View
    decreases remaining
  {
    if remaining == 0 then v else Dispatch(HandleKey(v, key), key, remaining - 1)
  }

  /** A key press: every registered listener runs. */
  function KeyDown(v: View, key: string): View
  {
    Dispatch(v, key, v.keyListeners)
  }

  /** `this.imageGroups.splice(groupIndex, 1)`; an index past the end
      removes nothing. */
  function GroupDeleted(v: View, groupIndex: nat): View
  {
    if groupIndex < |v.groups| then v.(groups := v.groups[..groupIndex] + v.groups[groupIndex + 1..])
    else v
  }

  /** `this.imageGroups.push(group)`. */
  function PushGroup(v: View, group: ImageGroup): View
  {
    v.(groups := v.groups + [group])
  }

  /** Stepping forward from a position among the images moves to the
      following image, wrapping around, and shows it; stepping back from
      there returns to the same index and image. */
  lemma ShowNextThenPrev(v: View)
    requires v.index.At? && 0 <= v.index.i < |FlatImages(v.groups)|
    ensures var n, i := |FlatImages(v.groups)|, v.index.i;
      ShowNext(v).index == At(if i + 1 == n then 0 else i + 1)
    ensures ShowNext(v).modalImage == Some(FlatImages(v.groups)[ShowNext(v).index.i])
    ensures ShowPrev(ShowNext(v)) == v.(modalImage := Some(FlatImages(v.groups)[v.index.i]))
    ensures ShowNext(ShowPrev(v)) == v.(modalImage := Some(FlatImages(v.groups)[v.index.i]))
  {
    var n := |FlatImages(v.groups)|;
    NextPrevCycle(v.index.i, n);
    NextPrevRestore(v.index.i, n);
  }

  /** With no images, next and previous leave the index `NaN` and the modal
      image `undefined`, and opening the modal changes nothing. */
  lemma NoImages(v: View, index: int)
    requires |FlatImages(v.groups)| == 0
    ensures ShowNext(v).index == NotANumber && ShowNext(v).modalImage == None
    ensures ShowPrev(v).index == NotANumber && ShowPrev(v).modalImage == None
    ensures Opened(v, index) == v
  {
  }

  /** With images, opening the modal at `index` sets the preview index to
      `index` and shows that image when it is a position of the list. */
  lemma OpenModalAt(v: View, index: int)
    requires |FlatImages(v.groups)| > 0
    ensures Opened(v, index).index == At(index) && Opened(v, index).modalOpen
    ensures 0 <= index < |FlatImages(v.groups)| ==> Opened(v, index).modalImage == Some(FlatImages(v.groups)[index])
    ensures Opened(v, index).groups == v.groups
  {
  }

  /** Only the arrow keys move the preview, only Escape hides the modal,
      and no key changes the groups or the listeners. */
  lemma HandleKeyEffect(v: View, key: string)
    ensures HandleKey(v, key).groups == v.groups && HandleKey(v, key).keyListeners == v.keyListeners
    ensures HandleKey(v, key).index != v.index ==> key == "ArrowLeft" || key == "ArrowRight"
    ensures HandleKey(v, key).modalOpen != v.modalOpen ==> key == "Escape"
    ensures key != "ArrowLeft" && key != "ArrowRight" && key != "Escape" ==> HandleKey(v, key) == v
  {
  }

  /** Deleting group `g` removes exactly that group and keeps the others in
      order; its images leave the flat list and the count drops by their
      number. */
  lemma DeleteGroupEffect(v: View, g: nat)
    requires g < |v.groups|
    ensures var after := GroupDeleted(v, g).groups;
      && |after| == |v.groups| - 1
      && (forall j :: 0 <= j < g ==> after[j] == v.groups[j])
      && (forall j :: g <= j < |after| ==> after[j] == v.groups[j + 1])
    ensures FlatImages(v.groups) ==
      FlatImages(v.groups[..g]) + DataUrls(v.groups[g].images) + FlatImages(v.groups[g + 1..])
    ensures FlatImages(GroupDeleted(v, g).groups) == FlatImages(v.groups[..g]) + FlatImages(v.groups[g + 1..])
    ensures TotalImages(GroupDeleted(v, g).groups) == TotalImages(v.groups) - |v.groups[g].images|
  {
    var a, b := v.groups[..g], v.groups[g + 1..];
    assert v.groups == a + [v.groups[g]] + b;
    FlatImagesSplit(a + [v.groups[g]], b);
    FlatImagesSplit(a, [v.groups[g]]);
    FlatImagesSingle(v.groups[g]);
    FlatImagesSplit(a, b);
    TitleCountIsImages(v.groups);
    TitleCountIsImages(a + b);
  }

  /** The `flatImageIndex` that `renderAllGroups` has counted up to when it
      reaches image `j` of group `g`: the images of all earlier groups, then
      `j`. */
  function ThumbnailIndex(groups: seq<ImageGroup>, g: nat, j: nat): nat
    requires g < |groups|
  {
    TotalImages(groups[..g]) + j
  }

  /** Clicking a thumbnail opens the modal on that very image. */
  lemma ThumbnailOpensItself(v: View, g: nat, j: nat)
    requires g < |v.groups| && j < |v.groups[g].images|
    ensures var k := ThumbnailIndex(v.groups, g, j);
      k < |FlatImages(v.groups)| && Opened(v, k).modalImage == Some(v.groups[g].images[j].dataUrl)
  {
    var a, b := v.groups[..g], v.groups[g + 1..];
    assert v.groups == a + [v.groups[g]] + b;
    FlatImagesSplit(a + [v.groups[g]], b);
    FlatImagesSplit(a, [v.groups[g]]);
    FlatImagesSingle(v.groups[g]);
    TitleCountIsImages(a);
    var flat := FlatImages(v.groups);
    var k := ThumbnailIndex(v.groups, g, j);
    assert flat[k] == DataUrls(v.groups[g].images)[j];
  }

  /** Appending a group adds its images after all existing ones, so every
      index already shown still shows the same image. */
  lemma PushGroupKeepsImages(v: View, group: ImageGroup)
    ensures FlatImages(PushGroup(v, group).groups) == FlatImages(v.groups) + DataUrls(group.images)
    ensures TotalImages(PushGroup(v, group).groups) == TotalImages(v.groups) + |group.images|
  {
    FlatImagesSplit(v.groups, [group]);
    FlatImagesSingle(group);
  }

  // ---------------------------------------------------------------------
  // The keydown listener leak, and the intended listener handling
  // ---------------------------------------------------------------------

  /** As written, every open-and-close cycle leaves one more listener. */
  lemma ListenerLeak(v: View, index: int)
    requires |FlatImages(v.groups)| > 0
    ensures Closed(Opened(v, index)).keyListeners == v.keyListeners + 1
  {
  }

  /** Three images; open the modal on the first, close it, open it on the
      first again, press ArrowRight: two listeners run and the preview skips
      the second image. */
  lemma ReopenSkipsImage()
    ensures var three := [ImageGroup("g", [VideoGenerator.Image("a", ""), VideoGenerator.Image("b", ""),
                                         VideoGenerator.Image("c", "")])];
      var v := Opened(Closed(Opened(Initial.(groups := three), 0)), 0);
      && v.keyListeners == 2
      && KeyDown(v, "ArrowRight").index == At(2)
      && KeyDownFixed(OpenedFixed(ClosedFixed(OpenedFixed(Initial.(groups := three), 0)), 0), "ArrowRight").index == At(1)
  {
    var three := [ImageGroup("g", [VideoGenerator.Image("a", ""), VideoGenerator.Image("b", ""),
                                 VideoGenerator.Image("c", "")])];
    FlatImagesSingle(three[0]);
    assert |FlatImages(three)| == 3;
    var v := Opened(Closed(Opened(Initial.(groups := three), 0)), 0);
    assert v.index == At(0) && v.groups == three;
    NextPrevCycle(0, 3);
    NextPrevCycle(1, 3);
    var w := OpenedFixed(ClosedFixed(OpenedFixed(Initial.(groups := three), 0)), 0);
    assert w.index == At(0) && w.groups == three && w.keyListeners == 1;
  }

  /** `openModal` with its handler bound once and reused: registering the
      same listener again adds nothing. */
  function OpenedFixed(v: View, index: int): View
  {
    var flat := FlatImages(v.groups);
    if |flat| == 0 then v else Opened(v, index).(keyListeners := 1)
  }

  /** `closeModal` removing that same bound listener. */
  function ClosedFixed(v: View): View
  {
    v.(modalOpen := false, keyListeners := 0)
  }

  function HandleKeyFixed(v: View, key: string): View
  {
    if key == "Escape" then ClosedFixed(v) else HandleKey(v, key)
  }

  /** A key press with at most the one bound listener registered. */
  function KeyDownFixed(v: View, key: string): View
  {
    if v.keyListeners == 0 then v else HandleKeyFixed(v, key)
  }

  /** With the bound listener, the document never holds more than one, a
      closed modal holds none, and an arrow key after opening moves the
      preview exactly one image. */
  lemma FixedListeners(v: View, index: int, key: string)
    requires v.keyListeners <= 1
    ensures OpenedFixed(v, index).keyListeners <= 1
    ensures ClosedFixed(v).keyListeners == 0
    ensures KeyDownFixed(v, key).keyListeners <= 1
    ensures |FlatImages(v.groups)| > 0 ==>
      KeyDownFixed(OpenedFixed(v, index), "ArrowRight") == ShowNext(OpenedFixed(v, index))
      && KeyDownFixed(OpenedFixed(v, index), "ArrowLeft") == ShowPrev(OpenedFixed(v, index))
  {
  }

  // ---------------------------------------------------------------------
  // Input format
  // ---------------------------------------------------------------------

  /** The characters `String.prototype.trim` removes: the ECMAScript
      WhiteSpace characters (tab, vertical tab, form feed, space, no-break
      space, byte order mark and the other space separators) and the
      LineTerminator characters. */
  predicate IsJsSpace(c: char)
  {
    || c == '\t' || c == '\U{B}' || c == '\U{C}' || c == ' ' || c == '\U{A0}' || c == '\U{FEFF}'
    || c == '\U{1680}' || ('\U{2000}' <= c <= '\U{200A}') || c == '\U{202F}' || c == '\U{205F}'
    || c == '\U{3000}'
    || c == '\n' || c == '\r' || c == '\U{2028}' || c == '\U{2029}'
  }

  function TrimStart(s: string): (r: string)
    ensures |r| <= |s| && r == s[|s| - |r|..]
    ensures forall j :: 0 <= j < |s| - |r| ==> IsJsSpace(s[j])
    ensures |r| > 0 ==> !IsJsSpace(r[0])
    decreases |s|
  {
    if |s| > 0 && IsJsSpace(s[0]) then TrimStart(s[1..]) else s
  }

  function TrimEnd(s: string): (r: string)
    ensures |r| <= |s| && r == s[..|r|]
    ensures forall j :: |r| <= j < |s| ==> IsJsSpace(s[j])
    ensures |r| > 0 ==> !IsJsSpace(r[|r| - 1])
    decreases |s|
  {
    if |s| > 0 && IsJsSpace(s[|s| - 1]) then TrimEnd(s[..|s| - 1]) else s
  }

  /** `s.trim()`. */
  function Trim(s: string): string
  {
    TrimEnd(TrimStart(s))
  }

  /** `detectInputFormat`. */
  function DetectInputFormat(inputText: string): (r: string)
    ensures r == "json" || r == "unknown"
  {
    var trimmedText := Trim(inputText);
    if |trimmedText| > 0 && (trimmedText[0] == '{' || trimmedText[0] == '[') then "json" else "unknown"
  }

  /** `k` is the first position of `s` holding a character `trim` keeps. */
  predicate FirstNonSpace(s: string, k: int)
  {
    0 <= k < |s| && !IsJsSpace(s[k]) && forall j :: 0 <= j < k ==> IsJsSpace(s[j])
  }

  /** The trimmed text is empty exactly when the text is all white space;
      otherwise it starts at the first other character. */
  lemma TrimFirst(s: string)
    ensures |Trim(s)| == 0 <==> forall j :: 0 <= j < |s| ==> IsJsSpace(s[j])
    ensures forall k :: FirstNonSpace(s, k) ==> |Trim(s)| > 0 && Trim(s)[0] == s[k]
  {
    var t := TrimStart(s);
    var k0 := |s| - |t|;
    if |t| > 0 {
      assert t[0] == s[k0];
      assert |TrimEnd(t)| > 0;
      assert FirstNonSpace(s, k0);
    } else {
      forall j | 0 <= j < |s|
        ensures IsJsSpace(s[j])
      {
      }
    }
  }

  /** The input is JSON exactly when its first character other than white
      space is `{` or `[`. */
  lemma DetectInputFormatFirst(inputText: string)
    ensures DetectInputFormat(inputText) == "json" <==>
      exists k :: FirstNonSpace(inputText, k) && (inputText[k] == '{' || inputText[k] == '[')
  {
    TrimFirst(inputText);
    var t := TrimStart(inputText);
    if |t| > 0 {
      assert FirstNonSpace(inputText, |inputText| - |t|);
    }
  }

  /** Trimming twice is trimming once. */
  lemma TrimIdempotent(s: string)
    ensures Trim(Trim(s)) == Trim(s)
  {
    var r := Trim(s);
    if |r| > 0 {
      assert TrimStart(r) == r;
      assert TrimEnd(r) == r;
    }
  }

  const EmptyInputAlert := "请输入或上传评论内容！"
  const UnknownFormatError := "无法识别输入格式，请使用JSON格式。"
  const NoCommentsError := "未找到有效评论，请检查格式。"

  /** The checks `handleCommentGeneration` makes before parsing: an alert
      for white-space-only input, the unknown-format error, or the trimmed
      text to parse. */
  function CommentInput(raw: string): Result<string>
  {
    var inputText := Trim(raw);
    if |inputText| == 0 then Err(EmptyInputAlert)
    else if DetectInputFormat(inputText) != "json" then Err(UnknownFormatError)
    else Ok(inputText)
  }

  /** The input goes on to parsing exactly when its first character other
      than white space is `{` or `[`; white space alone gets the alert. */
  lemma CommentInputAccepts(raw: string)
    ensures CommentInput(raw).Ok? <==>
      exists k :: FirstNonSpace(raw, k) && (raw[k] == '{' || raw[k] == '[')
    ensures CommentInput(raw).Ok? ==> CommentInput(raw).value == Trim(raw)
    ensures CommentInput(raw) == Err(EmptyInputAlert) <==> forall j :: 0 <= j < |raw| ==> IsJsSpace(raw[j])
  {
    TrimFirst(raw);
    TrimIdempotent(raw);
    DetectInputFormatFirst(raw);
    assert DetectInputFormat(Trim(raw)) == DetectInputFormat(raw);
  }

  // ---------------------------------------------------------------------
  // Generated groups
  // ---------------------------------------------------------------------

  const ScreenshotCaption := "视频截图 "

  function CommentCaption(index: nat, count: nat): string
  {
    "评论图 " + NatToString(index + 1) + " (含 " + NatToString(count) + " 条)"
  }

  /** The group `handleCommentGeneration` appends: one image per chunk, in
      chunk order, rendered by `render` (SVG generation and PNG conversion
      with a random background). */
  function CommentGroup(chunks: seq<seq<LaidOut>>, render: seq<LaidOut> -> string): ImageGroup
  {
    var images := seq(|chunks|, i requires 0 <= i < |chunks| =>
                      VideoGenerator.Image(render(chunks[i]), CommentCaption(i, |chunks[i]|)));
    ImageGroup("评论图组 (共 " + NatToString(|images|) + " 张)", images)
  }

  function ScreenshotImage(frame: string, i: nat): Image
  {
    VideoGenerator.Image(frame, ScreenshotCaption + NatToString(i + 1))
  }

  /** The group `handleScreenshotGeneration` appends for the captured
      frames. */
  function ScreenshotGroup(frames: seq<string>): ImageGroup
  {
    var images := seq(|frames|, i requires 0 <= i < |frames| => ScreenshotImage(frames[i], i));
    ImageGroup("视频截图组 (共 " + NatToString(|images|) + " 张)", images)
  }

  lemma DigitsUnmarked(s: string)
    requires AllDigits(s)
    ensures '视' !in s
  {
    forall j | 0 <= j < |s|
      ensures s[j] != '视'
    {
      assert IsDigit(s[j]);
    }
  }

  /** Comment images are never taken for screenshots when the video is
      assembled: each lasts the comment duration. */
  lemma CommentImagesLastCommentDuration(chunks: seq<seq<LaidOut>>, render: seq<LaidOut> -> string,
                                         config: VideoGenerator.Config)
    ensures forall i :: 0 <= i < |CommentGroup(chunks, render).images| ==>
      VideoGenerator.DurationOf(CommentGroup(chunks, render).images[i], config) == config.commentDuration
  {
    var images := CommentGroup(chunks, render).images;
    forall i | 0 <= i < |images|
      ensures VideoGenerator.DurationOf(images[i], config) == config.commentDuration
    {
      NatToStringRoundTrip(i + 1);
      NatToStringRoundTrip(|chunks[i]|);
      DigitsUnmarked(NatToString(i + 1));
      DigitsUnmarked(NatToString(|chunks[i]|));
      assert '视' !in images[i].caption;
      NotContainsByFirst(images[i].caption, VideoGenerator.ScreenshotMark);
    }
  }

  /** Screenshot images are recognised as such when the video is assembled:
      each lasts the screenshot duration. */
  lemma ScreenshotImagesLastScreenshotDuration(frames: seq<string>, config: VideoGenerator.Config)
    ensures forall i :: 0 <= i < |ScreenshotGroup(frames).images| ==>
      VideoGenerator.DurationOf(ScreenshotGroup(frames).images[i], config) == config.screenshotDuration
  {
    var images := ScreenshotGroup(frames).images;
    forall i | 0 <= i < |images|
      ensures VideoGenerator.DurationOf(images[i], config) == config.screenshotDuration
    {
      assert OccursAt(images[i].caption, VideoGenerator.ScreenshotMark, 0);
    }
  }

  /** The laid-out comments, one per comment and in order. */
  predicate LaidOutAll(layouts: seq<LaidOut>, comments: seq<Comment>)
  {
    |layouts| == |comments| && forall i :: 0 <= i < |comments| ==> layouts[i].comment == comments[i] && LayoutOf(layouts[i])
  }

  function ChunkSizes(chunks: seq<seq<LaidOut>>): nat
  {
    if |chunks| == 0 then 0 else |chunks[0]| + ChunkSizes(chunks[1..])
  }

  lemma {:induction false} ChunkSizesConcat(chunks: seq<seq<LaidOut>>)
    ensures ChunkSizes(chunks) == |Concat(chunks)|
  {
    if |chunks| > 0 {
      ChunkSizesConcat(chunks[1..]);
    }
  }

  /** For the chunks of the laid-out comments, the group holds one image per
      chunk, at least one when there are comments, and the counts in the
      captions (`含 n 条`) add up to the number of comments. */
  lemma CommentGroupCounts(chunks: seq<seq<LaidOut>>, layouts: seq<LaidOut>, comments: seq<Comment>,
                           render: seq<LaidOut> -> string)
    requires LaidOutAll(layouts, comments) && GreedyChunking(chunks, layouts)
    ensures |CommentGroup(chunks, render).images| == |chunks|
    ensures |comments| > 0 ==> |chunks| > 0
    ensures ChunkSizes(chunks) == |comments|
  {
    ChunkSizesConcat(chunks);
  }

  // ---------------------------------------------------------------------
  // The controller
  // ---------------------------------------------------------------------

  /** Whether every comment's text fields hold values whose layout the model
      covers (strings or other scalars). */
  predicate AllWrappable(comments: seq<Comment>)
  {
    forall i :: 0 <= i < |comments| ==> WrappableText(comments[i])
  }

  class UIController {
    var imageGroups: seq<ImageGroup>
    var currentPreviewIndex: Index
    var modalImage: Option<string>
    var modalOpen: bool
    var keyListeners: nat

    function Snapshot(): View
      reads this
    {
      View(imageGroups, currentPreviewIndex, modalImage, modalOpen, keyListeners)
    }

    constructor()
      ensures Snapshot() == Initial
    {
      imageGroups := [];
      currentPreviewIndex := At(0);
      modalImage := None;
      modalOpen := false;
      keyListeners := 0;
    }

    method ShowNextImage()
      modifies this
      ensures Snapshot() == ShowNext(old(Snapshot()))
    {
      var flatImages := FlatImages(imageGroups);
      currentPreviewIndex := NextIndex(currentPreviewIndex, |flatImages|);
      modalImage := ImageAt(flatImages, currentPreviewIndex);
    }

    method ShowPrevImage()
      modifies this
      ensures Snapshot() == ShowPrev(old(Snapshot()))
    {
      var flatImages := FlatImages(imageGroups);
      currentPreviewIndex := PrevIndex(currentPreviewIndex, |flatImages|);
      modalImage := ImageAt(flatImages, currentPreviewIndex);
    }

    method OpenModal(index: int)
      modifies this
      ensures Snapshot() == Opened(old(Snapshot()), index)
    {
      var flatImages := FlatImages(imageGroups);
      if |flatImages| == 0 {
        return;
      }
      currentPreviewIndex := At(index);
      modalImage := ImageAt(flatImages, currentPreviewIndex);
      modalOpen := true;
      keyListeners := keyListeners + 1;
    }

    method CloseModal()
      modifies this
      ensures Snapshot() == Closed(old(Snapshot()))
    {
      modalOpen := false;
    }

    method HandleKeyDown(key: string)
      modifies this
      ensures Snapshot() == HandleKey(old(Snapshot()), key)
    {
      if key == "ArrowLeft" {
        ShowPrevImage();
      } else if key == "ArrowRight" {
        ShowNextImage();
      } else if key == "Escape" {
        CloseModal();
      }
    }

    /** The delete button of group `groupIndex`. */
    method DeleteGroup(groupIndex: nat)
      modifies this
      ensures Snapshot() == GroupDeleted(old(Snapshot()), groupIndex)
    {
      if groupIndex < |imageGroups| {
        imageGroups := imageGroups[..groupIndex] + imageGroups[groupIndex + 1..];
      }
    }

    /** `handleCommentGeneration` from the parsed comments on: no comments
        is an error; otherwise each comment is laid out, the layouts are
        chunked, and one image per chunk is appended as a new group. */
    method GenerateCommentGroup(comments: seq<Comment>, render: seq<LaidOut> -> string)
      returns (error: Option<string>)
      requires AllWrappable(comments)
      modifies this
      ensures error == (if |comments| == 0 then Some(NoCommentsError) else None)
      ensures error.Some? ==> Snapshot() == old(Snapshot())
      ensures error.None? ==> exists layouts, chunks ::
        LaidOutAll(layouts, comments) && GreedyChunking(chunks, layouts)
        && Snapshot() == PushGroup(old(Snapshot()), CommentGroup(chunks, render))
    {
      if |comments| == 0 {
        return Some(NoCommentsError);
      }
      var commentsWithLayout: seq<LaidOut> := [];
      var i := 0;
      while i < |comments|
        invariant 0 <= i <= |comments|
        invariant LaidOutAll(commentsWithLayout, comments[..i])
        invariant Snapshot() == old(Snapshot())
      {
        var laidOut := CalculateLayout(comments[i]);
        commentsWithLayout := commentsWithLayout + [laidOut];
        i := i + 1;
      }
      assert comments[..i] == comments;
      var commentChunks := ChunkifyComments(commentsWithLayout);
      imageGroups := imageGroups + [CommentGroup(commentChunks, render)];
      error := None;
      assert LaidOutAll(commentsWithLayout, comments) && GreedyChunking(commentChunks, commentsWithLayout);
      assert Snapshot() == PushGroup(old(Snapshot()), CommentGroup(commentChunks, render));
    }

    /** `handleScreenshotGeneration` after the frames are captured: one
        image per frame, captioned by its position, appended as a new
        group. */
    method AddScreenshotGroup(frames: seq<string>)
      modifies this
      ensures Snapshot() == PushGroup(old(Snapshot()), ScreenshotGroup(frames))
    {
      var newImages: seq<Image> := [];
      var i := 0;
      while i < |frames|
        invariant 0 <= i <= |frames|
        invariant newImages == ScreenshotGroup(frames).images[..i]
      {
        newImages := newImages + [ScreenshotImage(frames[i], i)];
        i := i + 1;
      }
      assert newImages == ScreenshotGroup(frames).images;
      imageGroups := imageGroups + [ImageGroup("视频截图组 (共 " + NatToString(|newImages|) + " 张)", newImages)];
    }
  }
}
