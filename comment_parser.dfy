/** `CommentParser`: adapts a parsed JSON value to comment records (keeping
    an allowlist of fields, with defaults), computes each comment's card
    layout from its wrapped text, and packs laid-out comments greedily into
    pages of bounded height. */
module CommentParser {
  import opened Strings
  import opened JsValues
  import opened TextUtils

  const UnknownUser := "未知用户"
  const ErrorPrefix := "JSON格式错误: "

  /** A reply keeps only its author (as `username`), text and datetime. */
  datatype Reply = Reply(username: Json, text: Json, datetime: Json)

  /** A main comment keeps `author`, `text`, `like_count` and `datetime`
      (as `username`, `text`, `likes`, `datetime`) and its replies. */
  datatype Comment = Comment(username: Json, text: Json, likes: Json, datetime: Json, replies: seq<Reply>)

  // ---------------------------------------------------------------------
  // parseJSONComments
  // ---------------------------------------------------------------------

  /** The items iterated: an array is used as is; otherwise `data.comments`,
      or `[]` when that is falsy. Reading `comments` of `null` throws, and so
      does calling `forEach` on a truthy value that is not an array. */
  function ItemsOf(data: Json): (r: Result<seq<Json>>)
    ensures data.JArr? ==> r == Ok(data.items)
    ensures data == JNull ==> r.Err?
    ensures !data.JArr? && !data.JObj? && data != JNull ==> r == Ok([])
  {
    if data.JArr? then Ok(data.items)
    else
      match Get(data, "comments")
      case Err(m) => Err(m)
      case Ok(v) =>
        var items := Or(v, JArr([]));
        if items.JArr? then Ok(items.items) else Err("items.forEach is not a function")
  }

  /** The property `key` of a value that is known not to be `null`. */
  function Field(v: Json, key: string): JsValue
    requires v != JNull
  {
    Get(v, key).value
  }

  /** The reply record built from one element of `item.replies`. */
  function ReplyOf(r: Json): (res: Result<Reply>)
    ensures res.Err? <==> r == JNull
    ensures res.Ok? ==>
      && Truthy(res.value.username)
      && (res.value.text == JStr("") || Truthy(res.value.text))
      && (res.value.datetime == JNull || Truthy(res.value.datetime))
  {
    match Get(r, "author")
    case Err(m) => Err(m)
    case Ok(author) =>
      Ok(Reply(Or(author, JStr(UnknownUser)), Or(Field(r, "text"), JStr("")), Or(Field(r, "datetime"), JNull)))
  }

  /** The replies of one item, in order; the first `null` reply throws. */
  function RepliesOf(rs: seq<Json>): (res: Result<seq<Reply>>)
    ensures res.Ok? <==> forall i :: 0 <= i < |rs| ==> rs[i] != JNull
    ensures res.Ok? ==> |res.value| == |rs| && forall i :: 0 <= i < |rs| ==> res.value[i] == ReplyOf(rs[i]).value
  {
    if |rs| == 0 then Ok([])
    else
      match ReplyOf(rs[0])
      case Err(m) => Err(m)
      case Ok(first) =>
        match RepliesOf(rs[1..])
        case Err(m) => Err(m)
        case Ok(rest) => Ok([first] + rest)
  }

  /** The replies array of an item, when `item.replies` is one. */
  predicate HasReplyArray(item: Json)
    requires item != JNull
  {
    TruthyValue(Field(item, "replies")) && Field(item, "replies").value.JArr?
  }

  /** The fields of the main comment built from a non-null item, before its
      replies are pushed. */
  function MainFields(item: Json): Comment
    requires item != JNull
  {
    Comment(
      Or(Field(item, "author"), JStr(UnknownUser)),
      Or(Field(item, "text"), JStr("")),
      Or(Field(item, "like_count"), JNum(0)),
      Or(Field(item, "datetime"), JNull),
      [])
  }

  /** The comment record built from one item. */
  function CommentOf(item: Json): (res: Result<Comment>)
    ensures item == JNull ==> res.Err?
    ensures item != JNull && !HasReplyArray(item) ==> res.Ok? && res.value.replies == []
    ensures item != JNull && HasReplyArray(item) ==> res.Ok? == RepliesOf(Field(item, "replies").value.items).Ok?
    ensures res.Ok? ==>
      && Truthy(res.value.username)
      && (res.value.text == JStr("") || Truthy(res.value.text))
      && res.value.likes != JNull
      && (res.value.datetime == JNull || Truthy(res.value.datetime))
  {
    match Get(item, "author")
    case Err(m) => Err(m)
    case Ok(author) =>
      var main := MainFields(item);
      if HasReplyArray(item) then
        match RepliesOf(Field(item, "replies").value.items)
        case Err(m) => Err(m)
        case Ok(replies) => Ok(main.(replies := replies))
      else Ok(main)
  }

  /** `CommentParser.parseJSONComments`, after `JSON.parse` (whose outcome is
      the input): one comment per item, in order; any failure is rethrown
      with the message prefixed by `JSON格式错误: `. */
  method ParseJsonComments(parsed: Result<Json>) returns (r: Result<seq<Comment>>)
    ensures r.Err? ==> ErrorPrefix <= r.message
    ensures parsed.Err? ==> r == Err(ErrorPrefix + parsed.message)
    ensures parsed.Ok? && ItemsOf(parsed.value).Err? ==> r == Err(ErrorPrefix + ItemsOf(parsed.value).message)
    ensures parsed.Ok? && ItemsOf(parsed.value).Ok? ==>
      var items := ItemsOf(parsed.value).value;
      && (r.Ok? <==> forall i :: 0 <= i < |items| ==> CommentOf(items[i]).Ok?)
      && (r.Ok? ==> |r.value| == |items| && forall i :: 0 <= i < |items| ==> r.value[i] == CommentOf(items[i]).value)
      && (r.Err? ==> exists i :: 0 <= i < |items| && (forall j :: 0 <= j < i ==> CommentOf(items[j]).Ok?)
                                 && CommentOf(items[i]).Err? && r == Err(ErrorPrefix + CommentOf(items[i]).message))
  {
    if parsed.Err? {
      return Err(ErrorPrefix + parsed.message);
    }
    var itemsResult := ItemsOf(parsed.value);
    if itemsResult.Err? {
      return Err(ErrorPrefix + itemsResult.message);
    }
    var items := itemsResult.value;
    var comments: seq<Comment> := [];
    var i := 0;
    while i < |items|
      invariant 0 <= i <= |items|
      invariant forall j :: 0 <= j < i ==> CommentOf(items[j]).Ok?
      invariant |comments| == i && forall j :: 0 <= j < i ==> comments[j] == CommentOf(items[j]).value
    {
      var comment := ParseItem(items[i]);
      if comment.Err? {
        return Err(ErrorPrefix + comment.message);
      }
      comments := comments + [comment.value];
      i := i + 1;
    }
    return Ok(comments);
  }

  /** The body of the outer `forEach` of `parseJSONComments` for one item:
      reading `item.author` of `null` throws; otherwise the main comment is
      built with its defaults and the replies array, if any, is pushed. */
  method ParseItem(item: Json) returns (r: Result<Comment>)
    ensures r == CommentOf(item)
  {
    if item == JNull {
      return Err(Get(item, "author").message);
    }
    var mainComment := Comment(
      Or(Field(item, "author"), JStr(UnknownUser)),
      Or(Field(item, "text"), JStr("")),
      Or(Field(item, "like_count"), JNum(0)),
      Or(Field(item, "datetime"), JNull),
      []);
    assert mainComment == MainFields(item);
    if HasReplyArray(item) {
      var replies := ParseReplies(Field(item, "replies").value.items);
      if replies.Err? {
        return Err(replies.message);
      }
      mainComment := mainComment.(replies := replies.value);
    }
    return Ok(mainComment);
  }

  /** The inner `item.replies.forEach` of `parseJSONComments`: each reply is
      pushed in order; the first `null` reply throws. */
  method ParseReplies(rs: seq<Json>) returns (res: Result<seq<Reply>>)
    ensures res == RepliesOf(rs)
  {
    var replies: seq<Reply> := [];
    var k := 0;
    while k < |rs|
      invariant 0 <= k <= |rs|
      invariant forall j :: 0 <= j < k ==> rs[j] != JNull
      invariant |replies| == k
      invariant forall j :: 0 <= j < k ==> replies[j] == ReplyOf(rs[j]).value
    {
      var reply := rs[k];
      if reply == JNull {
        RepliesFirstError(rs, k);
        return Err(Get(reply, "author").message);
      }
      replies := replies + [
        Reply(Or(Field(reply, "author"), JStr(UnknownUser)), Or(Field(reply, "text"), JStr("")), Or(Field(reply, "datetime"), JNull))];
      k := k + 1;
    }
    assert RepliesOf(rs).Ok?;
    assert replies == RepliesOf(rs).value;
    return Ok(replies);
  }

  /** When the replies before index k are not null and the k-th one is, the
      replies fail with the k-th reply's error. */
  lemma {:induction false} RepliesFirstError(rs: seq<Json>, k: nat)
    requires k < |rs| && rs[k] == JNull
    requires forall j :: 0 <= j < k ==> rs[j] != JNull
    ensures RepliesOf(rs) == Err(ReplyOf(rs[k]).message)
  {
    if k > 0 {
      RepliesFirstError(rs[1..], k - 1);
    }
  }

  // ---------------------------------------------------------------------
  // calculateLayout
  // ---------------------------------------------------------------------

  const TextYOffset: real := 38.5
  /** The line height; the height formulas below write it as the literal 18.0. */
  const LineHeight: real := 18.0
  const CardGap: real := 5.0
  const ReplyGap: real := 2.0
  const MainMaxWidthChars := 60
  const ReplyMaxWidthChars := 55
  const MinCardHeight: real := 45.0

  datatype ReplyLayout = ReplyLayout(textLines: seq<string>, cardHeight: real)

  datatype Layout = Layout(
    mainTextLines: seq<string>,
    mainCardHeight: real,
    repliesLayout: seq<ReplyLayout>,
    totalHeight: real)

  /** A comment with its layout attached (`{ ...comment, layout }`). */
  datatype LaidOut = LaidOut(comment: Comment, layout: Layout)

  function Max(a: real, b: real): real { if a >= b then a else b }

  /** Height of a main card holding `lines` lines of text. */
  function MainCardHeight(lines: nat): (h: real)
    ensures h >= MinCardHeight
  {
    Max(45.0, TextYOffset + (lines as real - 1.0) * 18.0 + 10.0)
  }

  /** Height of a reply card holding `lines` lines of text (text starts 10 higher). */
  function ReplyCardHeight(lines: nat): (h: real)
    ensures h >= MinCardHeight
  {
    Max(45.0, (TextYOffset - 10.0) + (lines as real - 1.0) * 18.0 + 10.0)
  }

  /** The layout the source computes for one reply. */
  function ReplyLayoutOf(r: Reply): ReplyLayout
  {
    var lines := Wrapped(TextOf(r.text), ReplyMaxWidthChars);
    ReplyLayout(lines, ReplyCardHeight(|lines|))
  }

  /** Sum of `cardHeight + replyGap` over a sequence of reply layouts. */
  function RepliesHeight(rls: seq<ReplyLayout>): real
  {
    if |rls| == 0 then 0.0 else RepliesHeight(rls[..|rls| - 1]) + rls[|rls| - 1].cardHeight + ReplyGap
  }

  lemma RepliesHeightAppend(rls: seq<ReplyLayout>, x: ReplyLayout)
    ensures RepliesHeight(rls + [x]) == RepliesHeight(rls) + x.cardHeight + ReplyGap
  {
    assert (rls + [x])[..|rls|] == rls;
  }

  /** The text-bearing fields hold values whose wrapping the model covers:
      strings or other scalars (any non-string scalar wraps to one empty line). */
  predicate WrappableText(c: Comment)
  {
    Scalar(c.text) && forall i :: 0 <= i < |c.replies| ==> Scalar(c.replies[i].text)
  }

  /** The invariants of a computed layout: the card heights follow from the
      wrapped lines, there is one reply layout per reply, in order, and the
      total is the main card plus every reply card with its gap plus the gap
      after the comment. */
  predicate LayoutOf(lc: LaidOut)
  {
    var c, l := lc.comment, lc.layout;
    && l.mainTextLines == Wrapped(TextOf(c.text), MainMaxWidthChars)
    && l.mainCardHeight == MainCardHeight(|l.mainTextLines|)
    && |l.repliesLayout| == |c.replies|
    && (forall i :: 0 <= i < |c.replies| ==> l.repliesLayout[i] == ReplyLayoutOf(c.replies[i]))
    && l.totalHeight == l.mainCardHeight + RepliesHeight(l.repliesLayout) + CardGap
  }

  /** `CommentParser.calculateLayout`: the comment's fields are returned
      unchanged with a `layout` attached; every card is at least 45 high. */
  method CalculateLayout(c: Comment) returns (r: LaidOut)
    requires WrappableText(c)
    ensures r.comment == c
    ensures LayoutOf(r)
    ensures r.layout.mainCardHeight >= MinCardHeight
    ensures forall i :: 0 <= i < |r.layout.repliesLayout| ==> r.layout.repliesLayout[i].cardHeight >= MinCardHeight
    ensures r.layout.totalHeight >= MinCardHeight + CardGap + 47.0 * |c.replies| as real
  {
    var mainTextLines := WrapText(TextOf(c.text), MainMaxWidthChars);
    var mainTextHeight := TextYOffset + (|mainTextLines| as real - 1.0) * 18.0;
    var mainCardHeight := Max(45.0, mainTextHeight + 10.0);
    var repliesLayout, repliesHeight := LayOutReplies(c.replies);
    var totalHeight := mainCardHeight + repliesHeight;
    assert mainCardHeight == MainCardHeight(|mainTextLines|);
    r := LaidOut(c, Layout(mainTextLines, mainCardHeight, repliesLayout, totalHeight + CardGap));
  }

  /** The loop over the replies in `calculateLayout`: one layout per reply,
      in order, and the height they add to the card. */
  method LayOutReplies(replies: seq<Reply>) returns (rls: seq<ReplyLayout>, height: real)
    ensures |rls| == |replies| && forall j :: 0 <= j < |replies| ==> rls[j] == ReplyLayoutOf(replies[j])
    ensures height == RepliesHeight(rls)
    ensures forall j :: 0 <= j < |rls| ==> rls[j].cardHeight >= MinCardHeight
    ensures height >= 47.0 * |replies| as real
  {
    height := 0.0;
    rls := [];
    var i := 0;
    while i < |replies|
      invariant 0 <= i <= |replies|
      invariant |rls| == i && forall j :: 0 <= j < i ==> rls[j] == ReplyLayoutOf(replies[j])
      invariant forall j :: 0 <= j < |rls| ==> rls[j].cardHeight >= MinCardHeight
      invariant height == RepliesHeight(rls)
    {
      var replyLayout := LayOutReply(replies[i]);
      height := height + replyLayout.cardHeight + ReplyGap;
      RepliesHeightAppend(rls, replyLayout);
      rls := rls + [replyLayout];
      i := i + 1;
    }
    RepliesHeightBound(rls);
  }

  /** Every reply adds at least 47 to the height: a 45-high card and the gap. */
  lemma {:induction false} RepliesHeightBound(rls: seq<ReplyLayout>)
    requires forall j :: 0 <= j < |rls| ==> rls[j].cardHeight >= MinCardHeight
    ensures RepliesHeight(rls) >= 47.0 * |rls| as real
    decreases |rls|
  {
    if |rls| > 0 {
      RepliesHeightBound(rls[..|rls| - 1]);
    }
  }

  /** The body of the loop over replies in `calculateLayout`: wraps one
      reply's text at 55 characters and sizes its card. */
  method LayOutReply(reply: Reply) returns (rl: ReplyLayout)
    ensures rl == ReplyLayoutOf(reply)
    ensures rl.cardHeight >= MinCardHeight
  {
    var textLines := WrapText(TextOf(reply.text), ReplyMaxWidthChars);
    var replyTextHeight := (TextYOffset - 10.0) + (|textLines| as real - 1.0) * 18.0;
    rl := ReplyLayout(textLines, Max(45.0, replyTextHeight + 10.0));
  }

  // ---------------------------------------------------------------------
  // chunkifyComments
  // ---------------------------------------------------------------------

  const MaxImageHeight: real := 1060.0

  function Height(x: LaidOut): real { x.layout.totalHeight }

  /** Sum of the total heights of a run of laid-out comments. */
  function SumHeights(xs: seq<LaidOut>): real
  {
    if |xs| == 0 then 0.0 else SumHeights(xs[..|xs| - 1]) + Height(xs[|xs| - 1])
  }

  /** Each item of the chunk after the first was added while the chunk still
      had room for it. */
  predicate Fits(chunk: seq<LaidOut>)
  {
    forall j :: 1 <= j < |chunk| ==> SumHeights(chunk[..j]) + Height(chunk[j]) <= MaxImageHeight
  }

  /** Each chunk after the first starts with an item that did not fit in the
      chunk before it. */
  predicate Breaks(chunks: seq<seq<LaidOut>>)
    requires forall k :: 0 <= k < |chunks| ==> chunks[k] != []
  {
    forall k :: 1 <= k < |chunks| ==> SumHeights(chunks[k - 1]) + Height(chunks[k][0]) > MaxImageHeight
  }

  /** `chunks` is the greedy packing of `items`: in order, nothing lost or
      repeated, no empty chunk, every chunk filled as far as it could be. */
  predicate GreedyChunking(chunks: seq<seq<LaidOut>>, items: seq<LaidOut>)
  {
    && Concat(chunks) == items
    && (forall k :: 0 <= k < |chunks| ==> chunks[k] != [])
    && (forall k :: 0 <= k < |chunks| ==> Fits(chunks[k]))
    && Breaks(chunks)
  }

  /** `CommentParser.chunkifyComments`. */
  method ChunkifyComments(items: seq<LaidOut>) returns (chunks: seq<seq<LaidOut>>)
    ensures GreedyChunking(chunks, items)
    ensures items == [] ==> chunks == []
  {
    var closed: seq<seq<LaidOut>> := [];
    var currentChunk: seq<LaidOut> := [];
    var currentHeight := 0.0;
    var i := 0;
    while i < |items|
      invariant 0 <= i <= |items|
      invariant Progress(closed, currentChunk, items, i)
      invariant currentHeight == SumHeights(currentChunk)
    {
      closed, currentChunk, currentHeight := PlaceItem(closed, currentChunk, currentHeight, items, i);
      i := i + 1;
    }
    chunks := CloseOpen(closed, currentChunk, items);
  }

  /** The loop invariant of `ChunkifyComments` after `i` items: the closed
      chunks and the open one hold exactly those items, packed greedily. */
  predicate Progress(chunks: seq<seq<LaidOut>>, current: seq<LaidOut>, items: seq<LaidOut>, i: nat)
  {
    i <= |items| && Concat(chunks) + current == items[..i] && Packing(chunks, current)
  }

  /** One pass of the loop of `ChunkifyComments`: item `i` closes the open
      chunk and opens the next one when it would make the open chunk taller
      than the maximum, and joins the open chunk otherwise. */
  method PlaceItem(chunks: seq<seq<LaidOut>>, current: seq<LaidOut>, height: real, items: seq<LaidOut>, i: nat)
    returns (chunks': seq<seq<LaidOut>>, current': seq<LaidOut>, height': real)
    requires i < |items| && Progress(chunks, current, items, i) && height == SumHeights(current)
    ensures Progress(chunks', current', items, i + 1) && height' == SumHeights(current')
  {
    var comment := items[i];
    var commentHeight := Height(comment);
    if height + commentHeight > MaxImageHeight && |current| > 0 {
      StartChunk(chunks, current, items, i);
      chunks' := chunks + [current];
      current' := [comment];
      height' := commentHeight;
    } else {
      ExtendChunk(chunks, current, items, i);
      chunks' := chunks;
      current' := current + [comment];
      height' := height + commentHeight;
    }
  }

  /** After the loop: the open chunk, if any, is pushed as the last chunk. */
  method CloseOpen(chunks: seq<seq<LaidOut>>, current: seq<LaidOut>, items: seq<LaidOut>)
    returns (result: seq<seq<LaidOut>>)
    requires Progress(chunks, current, items, |items|)
    ensures GreedyChunking(result, items)
    ensures items == [] ==> result == []
  {
    assert items[..|items|] == items;
    result := chunks;
    if |current| > 0 {
      CloseChunk(chunks, current, items);
      result := chunks + [current];
    }
  }

  /** The loop invariant of `ChunkifyComments` apart from the bookkeeping:
      the closed chunks are a greedy packing, the open chunk fits, and the
      open chunk's first item broke the last closed chunk. */
  predicate Packing(chunks: seq<seq<LaidOut>>, current: seq<LaidOut>)
  {
    && (forall k :: 0 <= k < |chunks| ==> chunks[k] != [] && Fits(chunks[k]))
    && Breaks(chunks)
    && Fits(current)
    && (current == [] ==> chunks == [])
    && (current != [] && chunks != [] ==> SumHeights(chunks[|chunks| - 1]) + Height(current[0]) > MaxImageHeight)
  }

  /** The `else` branch of the loop: the item joins the open chunk. */
  lemma ExtendChunk(chunks: seq<seq<LaidOut>>, current: seq<LaidOut>, items: seq<LaidOut>, i: nat)
    requires i < |items| && Concat(chunks) + current == items[..i]
    requires Packing(chunks, current)
    requires current == [] || SumHeights(current) + Height(items[i]) <= MaxImageHeight
    ensures Packing(chunks, current + [items[i]])
    ensures SumHeights(current + [items[i]]) == SumHeights(current) + Height(items[i])
    ensures Concat(chunks) + (current + [items[i]]) == items[..i + 1]
  {
    var x := items[i];
    assert items[..i + 1] == items[..i] + [x];
    ExtendPacking(chunks, current, x);
  }

  lemma ExtendPacking(chunks: seq<seq<LaidOut>>, current: seq<LaidOut>, x: LaidOut)
    requires Packing(chunks, current)
    requires current == [] || SumHeights(current) + Height(x) <= MaxImageHeight
    ensures Packing(chunks, current + [x])
    ensures SumHeights(current + [x]) == SumHeights(current) + Height(x)
  {
    FitsAppend(current, x);
    if current != [] {
      assert (current + [x])[0] == current[0];
    }
  }

  /** The `then` branch of the loop: the open chunk is closed and the item
      opens the next one. */
  lemma StartChunk(chunks: seq<seq<LaidOut>>, current: seq<LaidOut>, items: seq<LaidOut>, i: nat)
    requires i < |items| && Concat(chunks) + current == items[..i]
    requires Packing(chunks, current) && current != []
    requires SumHeights(current) + Height(items[i]) > MaxImageHeight
    ensures Packing(chunks + [current], [items[i]])
    ensures SumHeights([items[i]]) == Height(items[i])
    ensures Concat(chunks + [current]) + [items[i]] == items[..i + 1]
  {
    var x := items[i];
    assert items[..i + 1] == items[..i] + [x];
    ConcatAppend(chunks, current);
    var c := chunks + [current];
    assert c[|c| - 1] == current;
    assert Fits([x]);
    forall k | 0 <= k < |c|
      ensures c[k] != [] && Fits(c[k])
    {
      if k < |chunks| {
        assert c[k] == chunks[k];
      }
    }
    forall k | 1 <= k < |c|
      ensures SumHeights(c[k - 1]) + Height(c[k][0]) > MaxImageHeight
    {
      if k < |chunks| {
        assert c[k - 1] == chunks[k - 1] && c[k] == chunks[k];
      }
    }
  }

  lemma CloseChunk(chunks: seq<seq<LaidOut>>, current: seq<LaidOut>, items: seq<LaidOut>)
    requires Packing(chunks, current) && current != []
    requires Concat(chunks) + current == items
    ensures GreedyChunking(chunks + [current], items)
  {
    var c := chunks + [current];
    ConcatAppend(chunks, current);
    forall k | 0 <= k < |c|
      ensures c[k] != [] && Fits(c[k])
    {
      if k < |chunks| {
        assert c[k] == chunks[k];
      }
    }
    forall k | 1 <= k < |c|
      ensures SumHeights(c[k - 1]) + Height(c[k][0]) > MaxImageHeight
    {
      if k < |chunks| {
        assert c[k - 1] == chunks[k - 1] && c[k] == chunks[k];
      }
    }
  }

  lemma FitsAppend(chunk: seq<LaidOut>, x: LaidOut)
    requires Fits(chunk)
    requires chunk == [] || SumHeights(chunk) + Height(x) <= MaxImageHeight
    ensures Fits(chunk + [x]) && SumHeights(chunk + [x]) == SumHeights(chunk) + Height(x)
  {
    var c := chunk + [x];
    assert c[..|chunk|] == chunk;
    forall j | 1 <= j < |c|
      ensures SumHeights(c[..j]) + Height(c[j]) <= MaxImageHeight
    {
      if j < |chunk| {
        assert c[..j] == chunk[..j] && c[j] == chunk[j];
      }
    }
  }

  /** A chunk of two or more comments fits the page height; only a lone
      comment may exceed it. */
  lemma ChunkHeightBound(chunk: seq<LaidOut>)
    requires |chunk| >= 2 && Fits(chunk)
    ensures SumHeights(chunk) <= MaxImageHeight
  {
    var j := |chunk| - 1;
    assert chunk[..j + 1] == chunk;
  }

  /** The length of the first greedy chunk: the first index at which the
      next item no longer fits (or the end of the input). */
  function FirstBreakFrom(items: seq<LaidOut>, j: nat): (m: nat)
    requires 1 <= j <= |items|
    ensures j <= m <= |items|
    decreases |items| - j
  {
    if j == |items| || SumHeights(items[..j]) + Height(items[j]) > MaxImageHeight then j
    else FirstBreakFrom(items, j + 1)
  }

  lemma {:induction false} FirstBreakIs(items: seq<LaidOut>, j: nat, m: nat)
    requires 1 <= j <= m <= |items|
    requires forall t :: j <= t < m ==> SumHeights(items[..t]) + Height(items[t]) <= MaxImageHeight
    requires m == |items| || SumHeights(items[..m]) + Height(items[m]) > MaxImageHeight
    ensures FirstBreakFrom(items, j) == m
    decreases m - j
  {
    if j < m {
      FirstBreakIs(items, j + 1, m);
    }
  }

  /** The greedy packing is determined by the input: two chunkings that both
      satisfy the contract of `ChunkifyComments` are equal. */
  lemma {:induction false} GreedyChunkingUnique(a: seq<seq<LaidOut>>, b: seq<seq<LaidOut>>, items: seq<LaidOut>)
    requires GreedyChunking(a, items) && GreedyChunking(b, items)
    ensures a == b
    decreases |items|
  {
    if |a| == 0 || |b| == 0 {
      EmptyChunking(a, items);
      EmptyChunking(b, items);
    } else {
      var m := FirstChunkLength(a, items);
      var m' := FirstChunkLength(b, items);
      assert m == m';
      assert a[0] == items[..m] == b[0];
      TailChunking(a, items);
      TailChunking(b, items);
      GreedyChunkingUnique(a[1..], b[1..], items[m..]);
      assert a == [a[0]] + a[1..] && b == [b[0]] + b[1..];
    }
  }

  lemma EmptyChunking(a: seq<seq<LaidOut>>, items: seq<LaidOut>)
    requires GreedyChunking(a, items)
    ensures |a| == 0 <==> |items| == 0
  {
    if |a| > 0 {
      assert Concat(a) == a[0] + Concat(a[1..]);
    }
  }

  lemma FirstChunkLength(a: seq<seq<LaidOut>>, items: seq<LaidOut>) returns (m: nat)
    requires GreedyChunking(a, items) && |a| > 0
    ensures m == |a[0]| && 1 <= m <= |items| && a[0] == items[..m]
    ensures m == FirstBreakFrom(items, 1)
  {
    m := |a[0]|;
    assert Concat(a) == a[0] + Concat(a[1..]);
    assert items[..m] == a[0];
    forall t | 1 <= t < m
      ensures SumHeights(items[..t]) + Height(items[t]) <= MaxImageHeight
    {
      assert a[0][..t] == items[..t] && a[0][t] == items[t];
    }
    if m < |items| {
      assert |Concat(a[1..])| > 0;
      assert Concat(a[1..]) == a[1] + Concat(a[2..]);
      assert items[m] == a[1][0];
      assert SumHeights(a[0]) + Height(a[1][0]) > MaxImageHeight;
    }
    FirstBreakIs(items, 1, m);
  }

  lemma TailChunking(a: seq<seq<LaidOut>>, items: seq<LaidOut>)
    requires GreedyChunking(a, items) && |a| > 0
    ensures |a[0]| <= |items| && GreedyChunking(a[1..], items[|a[0]|..])
  {
    assert Concat(a) == a[0] + Concat(a[1..]);
    var tail := a[1..];
    forall k | 1 <= k < |tail|
      ensures SumHeights(tail[k - 1]) + Height(tail[k][0]) > MaxImageHeight
    {
      assert tail[k - 1] == a[k] && tail[k] == a[k + 1];
    }
  }
}
