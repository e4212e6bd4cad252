/** `ImageGenerator.generateSVG`: renders one page of laid-out comments as a
    scene of cards. The SVG text is modelled as the list of draw directives it
    describes: one translated group per card, in emission order, each holding
    its rectangle, avatar circle, labels and text lines with their
    coordinates and (escaped) text. */
module ImageGenerator {
  import opened Strings
  import opened JsValues
  import opened TextUtils
  import opened CommentParser

  const CanvasSize: real := 1080.0
  const SceneOffsetX: real := 40.0
  /** Where the vertical cursor starts. */
  const Top: real := 20.0
  const MainDatetimeX: real := 800.0
  const ReplyDatetimeX: real := 780.0
  const ReplyIndentX: real := 50.0

  /** The `font-size` attribute of a text block: inherited from its class, or
      given in pixels. */
  datatype FontSize = Inherited | Px(size: nat)

  /** The style classes the scene's stylesheet defines. */
  datatype Style = CardDense | ReplyCardStyle | AvatarBg | NicknameDense | CommentDense | DatetimeText

  /** One `<tspan>`: a line of text at `x`, `dy` below the previous line. */
  datatype Tspan = Tspan(x: real, dy: real, content: string)

  /** The elements a card group draws, in coordinates local to the card. */
  datatype Element =
    | Rect(width: real, height: real, cls: Style, shadow: bool)
    | Circle(cx: real, cy: real, r: real)
    | Label(x: real, y: real, cls: Style, content: string)
    | Paragraph(x: real, y: real, cls: Style, fontSize: FontSize, spans: seq<Tspan>)
    | LikeBadge(x: real, y: real, count: string)

  /** A `<g transform="translate(x, y)">` group holding one card. */
  datatype Card = Card(x: real, y: real, elements: seq<Element>)

  /** The whole picture: a `width`×`height` canvas whose cards are shifted
      right by `offsetX`. */
  datatype Scene = Scene(width: real, height: real, offsetX: real, cards: seq<Card>)

  /** A value `escapeHTML` accepts: a string, or a falsy value (which it maps
      to the empty string). */
  predicate Escapable(v: Json)
  {
    v.JStr? || !Truthy(v)
  }

  /** `Utils.escapeHTML(v)` on a value it accepts (see `Escapable`). */
  function EscapeValue(v: Json): string
  {
    if v.JStr? then EscapeHtml(v.s) else ""
  }

  /** `${likes}` for a scalar like count (see `Renderable`). */
  function LikeText(likes: Json): string
  {
    if Scalar(likes) then ScalarString(likes) else ""
  }

  /** What the renderer needs of a comment so that no template expression
      throws: escapable username and datetimes, a scalar like count (one whose
      `${likes}` rendering the model covers) and a layout for every reply. */
  predicate Renderable(lc: LaidOut)
  {
    var c := lc.comment;
    && Escapable(c.username) && Escapable(c.datetime) && Scalar(c.likes)
    && HasReplyLayouts(lc)
    && forall i :: 0 <= i < |c.replies| ==> Escapable(c.replies[i].username) && Escapable(c.replies[i].datetime)
  }

  predicate AllRenderable(cs: seq<LaidOut>)
  {
    forall k :: 0 <= k < |cs| ==> Renderable(cs[k])
  }

  /** Every reply has a layout: what the renderer's spec functions index. */
  predicate HasReplyLayouts(lc: LaidOut)
  {
    |lc.layout.repliesLayout| >= |lc.comment.replies|
  }

  predicate AllHaveReplyLayouts(cs: seq<LaidOut>)
  {
    forall k :: 0 <= k < |cs| ==> HasReplyLayouts(cs[k])
  }

  /** One tspan per wrapped line, at `x`; the first line has `dy` 0 and every
      later line `dy` 18; each line is escaped. */
  function Tspans(lines: seq<string>, x: real): (r: seq<Tspan>)
    ensures |r| == |lines|
  {
    seq(|lines|, i requires 0 <= i < |lines| => Tspan(x, if i == 0 then 0.0 else LineHeight, EscapeHtml(lines[i])))
  }

  /** The datetime label, present only for a truthy datetime. */
  function DatetimeLabel(datetime: Json, x: real): seq<Element>
  {
    if Truthy(datetime) then [Label(x, 19.5, DatetimeText, EscapeValue(datetime))] else []
  }

  /** The like badge, present only when `likes !== null`. */
  function LikeBadgeOf(likes: Json): seq<Element>
  {
    if likes != JNull then [LikeBadge(930.0, 15.0, LikeText(likes))] else []
  }

  /** The group of a main comment card whose top is at `y`. */
  function MainCard(lc: LaidOut, y: real): Card
  {
    var c, l := lc.comment, lc.layout;
    Card(0.0, y,
      [ Rect(1000.0, l.mainCardHeight, CardDense, true),
        Circle(35.0, 22.5, 15.0),
        Label(65.0, 19.5, NicknameDense, "@" + EscapeValue(c.username)) ]
      + DatetimeLabel(c.datetime, MainDatetimeX)
      + [ Paragraph(65.0, TextYOffset, CommentDense, Inherited, Tspans(l.mainTextLines, 65.0)) ]
      + LikeBadgeOf(c.likes))
  }

  /** The group of a reply card whose top is at `y`. */
  function ReplyCard(r: Reply, rl: ReplyLayout, y: real): Card
  {
    Card(ReplyIndentX, y,
      [ Rect(950.0, rl.cardHeight, ReplyCardStyle, false),
        Circle(32.0, 22.5, 12.0),
        Label(55.0, 19.5, NicknameDense, "@" + EscapeValue(r.username)) ]
      + DatetimeLabel(r.datetime, ReplyDatetimeX)
      + [ Paragraph(55.0, 37.5, CommentDense, Px(13), Tspans(rl.textLines, 55.0)) ])
  }

  /** The top of reply card `i` of a comment whose main card starts at `y`:
      the main card, then each earlier reply card with the 2-pixel gap above
      it, then this card's own gap. */
  function ReplyTop(lc: LaidOut, y: real, i: nat): real
    requires i <= |lc.layout.repliesLayout|
  {
    y + lc.layout.mainCardHeight + Span(lc.layout.repliesLayout, i) + ReplyGap
  }

  /** The height of the first `n` reply cards with the gap above each. */
  function Span(rls: seq<ReplyLayout>, n: nat): real
    requires n <= |rls|
  {
    if n == 0 then 0.0 else Span(rls, n - 1) + rls[n - 1].cardHeight + ReplyGap
  }

  lemma {:induction false} SpanIsRepliesHeight(rls: seq<ReplyLayout>, n: nat)
    requires n <= |rls|
    ensures Span(rls, n) == RepliesHeight(rls[..n])
  {
    if n > 0 {
      SpanIsRepliesHeight(rls, n - 1);
      assert rls[..n][..n - 1] == rls[..n - 1];
    }
  }

  /** Where a card goes, before it is drawn: a main card of a comment, or a
      reply card with its layout, with the top of its group. */
  datatype Slot =
    | MainAt(lc: LaidOut, top: real)
    | ReplyAt(reply: Reply, rl: ReplyLayout, top: real)

  /** The card drawn in a slot. */
  function Draw(s: Slot): Card
  {
    match s
    case MainAt(lc, y) => MainCard(lc, y)
    case ReplyAt(r, rl, y) => ReplyCard(r, rl, y)
  }

  /** The cards drawn in a run of slots, in order. */
  function DrawAll(ss: seq<Slot>): (r: seq<Card>)
    ensures |r| == |ss|
  {
    seq(|ss|, i requires 0 <= i < |ss| => Draw(ss[i]))
  }

  /** The slots of the first `n` replies of a comment whose main card starts at `y`. */
  function ReplySlots(lc: LaidOut, y: real, n: nat): (r: seq<Slot>)
    requires HasReplyLayouts(lc) && n <= |lc.comment.replies|
    ensures |r| == n
  {
    if n == 0 then []
    else ReplySlots(lc, y, n - 1) + [ReplyAt(lc.comment.replies[n - 1], lc.layout.repliesLayout[n - 1], ReplyTop(lc, y, n - 1))]
  }

  /** The slots of one comment: its main card, then one per reply. */
  function CommentSlots(lc: LaidOut, y: real): (r: seq<Slot>)
    requires HasReplyLayouts(lc)
    ensures |r| == 1 + |lc.comment.replies|
  {
    [MainAt(lc, y)] + ReplySlots(lc, y, |lc.comment.replies|)
  }

  /** How far the cursor moves over one comment: the main card, a 2-pixel gap
      and a card per reply, and 5 pixels after the comment. */
  function Advance(lc: LaidOut): real
    requires HasReplyLayouts(lc)
  {
    lc.layout.mainCardHeight + Span(lc.layout.repliesLayout, |lc.comment.replies|) + CardGap
  }

  /** The cursor advance over a run of comments. */
  function Offset(cs: seq<LaidOut>): real
    requires AllHaveReplyLayouts(cs)
  {
    if |cs| == 0 then 0.0 else Advance(cs[0]) + Offset(cs[1..])
  }

  /** The slots of a run of comments whose first main card starts at `y`, in
      emission order. */
  function Slots(cs: seq<LaidOut>, y: real): seq<Slot>
    requires AllHaveReplyLayouts(cs)
  {
    if |cs| == 0 then [] else CommentSlots(cs[0], y) + Slots(cs[1..], y + Advance(cs[0]))
  }

  /** The cards of a page: the slots of its comments, drawn. */
  function Cards(cs: seq<LaidOut>): seq<Card>
    requires AllHaveReplyLayouts(cs)
  {
    DrawAll(Slots(cs, Top))
  }

  /** `ImageGenerator.generateSVG`. */
  method GenerateSvg(comments: seq<LaidOut>) returns (scene: Scene)
    requires AllRenderable(comments)
    ensures scene == Scene(CanvasSize, CanvasSize, SceneOffsetX, Cards(comments))
  {
    assert AllHaveReplyLayouts(comments);
    var currentY := Top;
    var cards: seq<Card> := [];
    ghost var done: seq<Slot> := [];
    var k := 0;
    assert comments[k..] == comments;
    while k < |comments|
      invariant 0 <= k <= |comments|
      invariant done + Slots(comments[k..], currentY) == Slots(comments, Top)
      invariant cards == DrawAll(done)
    {
      var lc := comments[k];
      var mainCard := MainCard(lc, currentY);
      var replyCards, replyEnd := RenderReplies(lc, currentY);
      GenerateStep(comments, k, currentY, done, replyEnd);
      cards := cards + ([mainCard] + replyCards);
      done := done + CommentSlots(lc, currentY);
      currentY := replyEnd + CardGap;
      k := k + 1;
    }
    assert done + [] == done;
    scene := Scene(CanvasSize, CanvasSize, SceneOffsetX, cards);
  }

  /** The inner `replies.forEach` of `generateSVG` for a comment whose main
      card starts at `y`: the cursor moves past the main card, then, per
      reply, down 2 pixels, emits the reply card and moves past it. */
  method RenderReplies(lc: LaidOut, y: real) returns (cards: seq<Card>, end: real)
    requires HasReplyLayouts(lc)
    ensures cards == DrawAll(ReplySlots(lc, y, |lc.comment.replies|))
    ensures end + CardGap == y + Advance(lc)
  {
    var currentY := y + lc.layout.mainCardHeight;
    cards := [];
    var i := 0;
    while i < |lc.comment.replies|
      invariant 0 <= i <= |lc.comment.replies|
      invariant cards == DrawAll(ReplySlots(lc, y, i))
      invariant currentY == y + lc.layout.mainCardHeight + Span(lc.layout.repliesLayout, i)
    {
      var replyLayout := lc.layout.repliesLayout[i];
      currentY := currentY + ReplyGap;
      assert currentY == ReplyTop(lc, y, i);
      DrawReplyNext(lc, y, i);
      cards := cards + [ReplyCard(lc.comment.replies[i], replyLayout, currentY)];
      currentY := currentY + replyLayout.cardHeight;
      i := i + 1;
    }
    end := currentY;
  }

  /** Drawing one more reply slot appends that reply's card. */
  lemma DrawReplyNext(lc: LaidOut, y: real, i: nat)
    requires HasReplyLayouts(lc) && i < |lc.comment.replies|
    ensures DrawAll(ReplySlots(lc, y, i + 1))
      == DrawAll(ReplySlots(lc, y, i)) + [ReplyCard(lc.comment.replies[i], lc.layout.repliesLayout[i], ReplyTop(lc, y, i))]
    ensures Span(lc.layout.repliesLayout, i + 1) == Span(lc.layout.repliesLayout, i) + lc.layout.repliesLayout[i].cardHeight + ReplyGap
  {
    var ss := ReplySlots(lc, y, i + 1);
    assert ss[..i] == ReplySlots(lc, y, i);
  }

  /** One pass of the outer loop of `GenerateSvg`: the slots of comment `k`
      move from the pending run to the finished one. */
  lemma GenerateStep(cs: seq<LaidOut>, k: nat, y: real, done: seq<Slot>, end: real)
    requires AllHaveReplyLayouts(cs) && k < |cs|
    requires done + Slots(cs[k..], y) == Slots(cs, Top)
    requires end + CardGap == y + Advance(cs[k])
    ensures (done + CommentSlots(cs[k], y)) + Slots(cs[k + 1..], end + CardGap) == Slots(cs, Top)
    ensures DrawAll(done + CommentSlots(cs[k], y)) == DrawAll(done) + ([MainCard(cs[k], y)] + DrawAll(ReplySlots(cs[k], y, |cs[k].comment.replies|)))
  {
    var current := CommentSlots(cs[k], y);
    var rest := Slots(cs[k + 1..], end + CardGap);
    SlotsUnfold(cs, k, y);
    assert Slots(cs[k..], y) == current + rest;
    AppendAssoc(done, current, rest);
    DrawComment(done, cs[k], y);
  }

  /** Drawing the slots of one more comment appends its main card and its
      reply cards. */
  lemma DrawComment(done: seq<Slot>, lc: LaidOut, y: real)
    requires HasReplyLayouts(lc)
    ensures DrawAll(done + CommentSlots(lc, y)) == DrawAll(done) + ([MainCard(lc, y)] + DrawAll(ReplySlots(lc, y, |lc.comment.replies|)))
  {
    var rs := ReplySlots(lc, y, |lc.comment.replies|);
    DrawAllAppend([MainAt(lc, y)], rs);
    assert DrawAll([MainAt(lc, y)]) == [MainCard(lc, y)] by {
      assert [MainAt(lc, y)][..0] == [];
    }
    DrawAllAppend(done, CommentSlots(lc, y));
  }

  lemma DrawAllAppend(a: seq<Slot>, b: seq<Slot>)
    ensures DrawAll(a + b) == DrawAll(a) + DrawAll(b)
  {
    assert forall i :: 0 <= i < |a + b| ==> DrawAll(a + b)[i] == (DrawAll(a) + DrawAll(b))[i];
  }

  lemma DrawAllAt(ss: seq<Slot>, i: nat)
    requires i < |ss|
    ensures DrawAll(ss)[i] == Draw(ss[i])
  {
  }

  /** One step of `Slots` over the rest of the input. */
  lemma SlotsUnfold(cs: seq<LaidOut>, k: nat, y: real)
    requires AllHaveReplyLayouts(cs) && k < |cs|
    ensures AllHaveReplyLayouts(cs[k..]) && AllHaveReplyLayouts(cs[k + 1..])
    ensures Slots(cs[k..], y) == CommentSlots(cs[k], y) + Slots(cs[k + 1..], y + Advance(cs[k]))
  {
    assert cs[k..][1..] == cs[k + 1..];
  }

  // ---------------------------------------------------------------------
  // Where the cards go
  // ---------------------------------------------------------------------

  /** Every comment of the run carries a layout computed by `calculateLayout`. */
  predicate AllLaidOut(cs: seq<LaidOut>)
  {
    forall k :: 0 <= k < |cs| ==> LayoutOf(cs[k])
  }

  /** The cursor advance over one comment is exactly the `totalHeight` that
      `calculateLayout` computed for it. */
  lemma AdvanceIsTotalHeight(lc: LaidOut)
    requires LayoutOf(lc)
    ensures HasReplyLayouts(lc) && Advance(lc) == lc.layout.totalHeight
  {
    SpanIsRepliesHeight(lc.layout.repliesLayout, |lc.comment.replies|);
    assert lc.layout.repliesLayout[..|lc.comment.replies|] == lc.layout.repliesLayout;
  }

  /** Over a run of laid-out comments the cursor advances by the sum of their
      total heights, the quantity `chunkifyComments` bounds. */
  lemma {:induction false} OffsetIsSumHeights(cs: seq<LaidOut>)
    requires AllLaidOut(cs)
    ensures AllHaveReplyLayouts(cs) && Offset(cs) == SumHeights(cs)
  {
    if |cs| > 0 {
      assert AllLaidOut(cs[1..]);
      OffsetIsSumHeights(cs[1..]);
      AdvanceIsTotalHeight(cs[0]);
      SumHeightsFront(cs);
    }
  }

  lemma {:induction false} SumHeightsFront(xs: seq<LaidOut>)
    requires |xs| > 0
    ensures SumHeights(xs) == Height(xs[0]) + SumHeights(xs[1..])
  {
    if |xs| > 1 {
      var p := xs[..|xs| - 1];
      SumHeightsFront(p);
      assert p[1..] == xs[1..][..|xs[1..]| - 1];
    } else {
      assert xs[..0] == [] && xs[1..] == [];
    }
  }

  /** The number of cards a run of comments produces: one per comment and one
      per reply. */
  function CardCount(cs: seq<LaidOut>): nat
  {
    if |cs| == 0 then 0 else 1 + |cs[0].comment.replies| + CardCount(cs[1..])
  }

  lemma {:induction false} SlotsLength(cs: seq<LaidOut>, y: real)
    requires AllHaveReplyLayouts(cs)
    ensures |Slots(cs, y)| == CardCount(cs)
  {
    if |cs| > 0 {
      SlotsLength(cs[1..], y + Advance(cs[0]));
    }
  }

  /** Slot `j` of comment `k` on the page is slot `j` of that comment's own
      slots, placed after the slots of the comments before it, with its main
      card at `y` advanced over those comments. */
  lemma CommentSlotAt(cs: seq<LaidOut>, y: real, k: nat, j: nat)
    requires AllHaveReplyLayouts(cs) && k < |cs| && j <= |cs[k].comment.replies|
    ensures AllHaveReplyLayouts(cs[..k])
    ensures CardCount(cs[..k]) + j < |Slots(cs, y)|
    ensures Slots(cs, y)[CardCount(cs[..k]) + j] == CommentSlots(cs[k], y + Offset(cs[..k]))[j]
  {
    assert AllHaveReplyLayouts(cs[..k]);
    SlotOf(cs, y, k, j, CardCount(cs[..k]), y + Offset(cs[..k]));
  }

  /** `CommentSlotAt`, with the card count and the cursor position before
      comment `k` named. */
  lemma {:induction false} SlotOf(cs: seq<LaidOut>, y: real, k: nat, j: nat, before: nat, yk: real)
    requires AllHaveReplyLayouts(cs) && k < |cs| && j <= |cs[k].comment.replies|
    requires AllHaveReplyLayouts(cs[..k]) && before == CardCount(cs[..k]) && yk == y + Offset(cs[..k])
    ensures before + j < |Slots(cs, y)| && Slots(cs, y)[before + j] == CommentSlots(cs[k], yk)[j]
  {
    SlotsCons(cs, y);
    var first, rest := CommentSlots(cs[0], y), Slots(cs[1..], y + Advance(cs[0]));
    if k == 0 {
      assert cs[..0] == [];
    } else {
      PrefixCons(cs, k);
      assert cs[1..][k - 1] == cs[k];
      SlotOf(cs[1..], y + Advance(cs[0]), k - 1, j, before - |first|, yk);
      IndexAfter(Slots(cs, y), first, rest, before + j, before - |first| + j);
    }
  }

  lemma IndexAfter(whole: seq<Slot>, first: seq<Slot>, rest: seq<Slot>, i: nat, n: nat)
    requires whole == first + rest && i == |first| + n && n < |rest|
    ensures i < |whole| && whole[i] == rest[n]
  {
  }

  /** The first `k` comments are the first one and the next `k - 1`: their
      cursor advance and card count split the same way. */
  lemma PrefixCons(cs: seq<LaidOut>, k: nat)
    requires AllHaveReplyLayouts(cs) && 0 < k <= |cs|
    ensures AllHaveReplyLayouts(cs[..k]) && AllHaveReplyLayouts(cs[1..][..k - 1])
    ensures Offset(cs[..k]) == Advance(cs[0]) + Offset(cs[1..][..k - 1])
    ensures CardCount(cs[..k]) == 1 + |cs[0].comment.replies| + CardCount(cs[1..][..k - 1])
  {
    assert cs[..k][1..] == cs[1..][..k - 1];
    assert cs[..k][0] == cs[0];
  }

  lemma SlotsCons(cs: seq<LaidOut>, y: real)
    requires AllHaveReplyLayouts(cs) && |cs| > 0
    ensures AllHaveReplyLayouts(cs[1..])
    ensures Slots(cs, y) == CommentSlots(cs[0], y) + Slots(cs[1..], y + Advance(cs[0]))
  {
  }

  /** Reply slot `i` of a comment holds reply `i` with layout
      `repliesLayout[i]`, at `ReplyTop`. */
  lemma {:induction false} ReplySlotAt(lc: LaidOut, y: real, n: nat, i: nat)
    requires HasReplyLayouts(lc) && i < n <= |lc.comment.replies|
    ensures ReplySlots(lc, y, n)[i] == ReplyAt(lc.comment.replies[i], lc.layout.repliesLayout[i], ReplyTop(lc, y, i))
  {
    if i < n - 1 {
      ReplySlotAt(lc, y, n - 1, i);
    }
  }

  /** The first reply card starts 2 pixels below the main card; every later
      one starts 2 pixels below the end of the reply card before it. */
  lemma ReplyGaps(lc: LaidOut, y: real, i: nat)
    requires i <= |lc.layout.repliesLayout|
    ensures i == 0 ==> ReplyTop(lc, y, i) == y + lc.layout.mainCardHeight + ReplyGap
    ensures i > 0 ==> ReplyTop(lc, y, i) == ReplyTop(lc, y, i - 1) + lc.layout.repliesLayout[i - 1].cardHeight + ReplyGap
  {
  }

  /** Within the slots of one comment, slot `1 + i` is reply `i`. */
  lemma ReplyInBlock(lc: LaidOut, y: real, i: nat)
    requires HasReplyLayouts(lc) && i < |lc.comment.replies|
    ensures CommentSlots(lc, y)[1 + i] == ReplyAt(lc.comment.replies[i], lc.layout.repliesLayout[i], ReplyTop(lc, y, i))
  {
    ReplySlotAt(lc, y, |lc.comment.replies|, i);
  }

  /** On a page, the main slot of comment `k` comes after the slots of the
      comments before it, at y = 20 plus the cursor advance over them. */
  lemma MainSlotPlacement(cs: seq<LaidOut>, k: nat)
    requires AllHaveReplyLayouts(cs) && k < |cs|
    ensures AllHaveReplyLayouts(cs[..k])
    ensures
      var start := CardCount(cs[..k]);
      && start < |Slots(cs, Top)|
      && Slots(cs, Top)[start] == MainAt(cs[k], Top + Offset(cs[..k]))
  {
    CommentSlotAt(cs, Top, k, 0);
  }

  /** On a page, the main card of comment `k` is drawn after the cards of the
      comments before it, at x = 0 and at y = 20 plus the cursor advance over
      those comments. */
  lemma MainCardPlacement(cs: seq<LaidOut>, k: nat)
    requires AllHaveReplyLayouts(cs) && k < |cs|
    ensures AllHaveReplyLayouts(cs[..k])
    ensures
      var start := CardCount(cs[..k]);
      var y := Top + Offset(cs[..k]);
      && start < |Cards(cs)|
      && Cards(cs)[start] == MainCard(cs[k], y)
      && Cards(cs)[start].x == 0.0 && Cards(cs)[start].y == y
  {
    MainSlotPlacement(cs, k);
    DrawnMain(Slots(cs, Top), CardCount(cs[..k]), cs[k], Top + Offset(cs[..k]));
  }

  /** A main slot is drawn as that comment's main card. */
  lemma DrawnMain(ss: seq<Slot>, j: nat, lc: LaidOut, y: real)
    requires j < |ss| && ss[j] == MainAt(lc, y)
    ensures DrawAll(ss)[j] == MainCard(lc, y) && DrawAll(ss)[j].x == 0.0 && DrawAll(ss)[j].y == y
  {
  }

  /** With the layouts `calculateLayout` computes, the main card of comment
      `k` is at y = 20 plus the `totalHeight`s of the comments before it. */
  lemma MainCardAtTotalHeights(cs: seq<LaidOut>, k: nat)
    requires AllLaidOut(cs) && k < |cs|
    ensures AllHaveReplyLayouts(cs)
    ensures CardCount(cs[..k]) < |Cards(cs)| && Cards(cs)[CardCount(cs[..k])].y == Top + SumHeights(cs[..k])
  {
    OffsetIsSumHeights(cs);
    MainCardPlacement(cs, k);
    assert AllLaidOut(cs[..k]);
    OffsetIsSumHeights(cs[..k]);
  }

  /** On a page, the slot of reply `i` of comment `k` comes right after the
      main slot and the earlier reply slots of that comment, with reply `i`,
      `repliesLayout[i]` and `ReplyTop`. */
  lemma ReplySlotPlacement(cs: seq<LaidOut>, k: nat, i: nat)
    requires AllHaveReplyLayouts(cs) && k < |cs| && i < |cs[k].comment.replies|
    ensures AllHaveReplyLayouts(cs[..k])
    ensures
      var start := CardCount(cs[..k]);
      && start + 1 + i < |Slots(cs, Top)|
      && Slots(cs, Top)[start + 1 + i]
           == ReplyAt(cs[k].comment.replies[i], cs[k].layout.repliesLayout[i], ReplyTop(cs[k], Top + Offset(cs[..k]), i))
  {
    CommentSlotAt(cs, Top, k, 1 + i);
    ReplyInBlock(cs[k], Top + Offset(cs[..k]), i);
  }

  /** On a page, reply `i` of comment `k` is drawn right after the main card
      and the earlier replies of that comment, at x = 50 and at `ReplyTop`,
      from reply `i` and `repliesLayout[i]`. */
  lemma ReplyCardPlacement(cs: seq<LaidOut>, k: nat, i: nat)
    requires AllHaveReplyLayouts(cs) && k < |cs| && i < |cs[k].comment.replies|
    ensures AllHaveReplyLayouts(cs[..k])
    ensures
      var start := CardCount(cs[..k]);
      var y := Top + Offset(cs[..k]);
      && start + 1 + i < |Cards(cs)|
      && Cards(cs)[start + 1 + i] == ReplyCard(cs[k].comment.replies[i], cs[k].layout.repliesLayout[i], ReplyTop(cs[k], y, i))
      && Cards(cs)[start + 1 + i].x == ReplyIndentX
  {
    ReplySlotPlacement(cs, k, i);
    var y := Top + Offset(cs[..k]);
    DrawnReply(Slots(cs, Top), CardCount(cs[..k]) + 1 + i, cs[k].comment.replies[i], cs[k].layout.repliesLayout[i], ReplyTop(cs[k], y, i));
  }

  /** A reply slot is drawn as that reply's card. */
  lemma DrawnReply(ss: seq<Slot>, j: nat, r: Reply, rl: ReplyLayout, y: real)
    requires j < |ss| && ss[j] == ReplyAt(r, rl, y)
    ensures DrawAll(ss)[j] == ReplyCard(r, rl, y) && DrawAll(ss)[j].x == ReplyIndentX
  {
  }

  // ---------------------------------------------------------------------
  // What each card holds
  // ---------------------------------------------------------------------

  /** The text lines of a paragraph: one tspan per line, at `x`, the first
      with `dy` 0 and every later one with `dy` 18, each holding its line
      escaped. */
  predicate LinesAt(spans: seq<Tspan>, lines: seq<string>, x: real)
  {
    && |spans| == |lines|
    && forall i :: 0 <= i < |spans| ==>
         && spans[i].x == x
         && (i == 0 ==> spans[i].dy == 0.0)
         && (i > 0 ==> spans[i].dy == 18.0)
         && spans[i].content == EscapeHtml(lines[i])
  }

  /** The order of a main card's elements: frame, avatar and name come
      first, then the datetime label when there is one, then the text block,
      and the like badge, when there is one, is the last element. */
  lemma MainCardElements(lc: LaidOut, y: real)
    ensures var els, c := MainCard(lc, y).elements, lc.comment;
      var d, b := (if Truthy(c.datetime) then 1 else 0), (if c.likes != JNull then 1 else 0);
      && |els| == 4 + d + b
      && els[0].Rect? && els[1].Circle?
      && els[2] == Label(65.0, 19.5, NicknameDense, "@" + EscapeValue(c.username))
      && (d == 1 ==> els[3].Label? && els[3].cls == DatetimeText)
      && els[3 + d].Paragraph?
      && (b == 1 ==> els[4 + d].LikeBadge?)
  {
  }

  /** A main card is a group at (0, y) opening with a 1000-wide shadowed
      rectangle of the comment's main card height. */
  lemma MainCardFrame(lc: LaidOut, y: real)
    ensures MainCard(lc, y).x == 0.0 && MainCard(lc, y).y == y
    ensures MainCard(lc, y).elements[0] == Rect(1000.0, lc.layout.mainCardHeight, CardDense, true)
  {
  }

  /** A main card has a like badge exactly when the like count is not `null`;
      the badge sits at (930, 15) and shows `${likes}`. */
  lemma MainCardLikeBadge(lc: LaidOut, y: real)
    ensures var els := MainCard(lc, y).elements;
      && ((exists e :: e in els && e.LikeBadge?) <==> lc.comment.likes != JNull)
      && (forall e :: e in els && e.LikeBadge? ==> e == LikeBadge(930.0, 15.0, LikeText(lc.comment.likes)))
  {
    if lc.comment.likes != JNull {
      assert LikeBadge(930.0, 15.0, LikeText(lc.comment.likes)) in MainCard(lc, y).elements;
    }
  }

  /** A main card has a datetime label exactly when the datetime is truthy;
      the label sits at x = 800 and holds the escaped datetime. */
  lemma MainCardDatetime(lc: LaidOut, y: real)
    ensures var els, d := MainCard(lc, y).elements, lc.comment.datetime;
      && ((exists e :: e in els && e.Label? && e.cls == DatetimeText) <==> Truthy(d))
      && (forall e :: e in els && e.Label? && e.cls == DatetimeText ==> e.x == MainDatetimeX && e.content == EscapeValue(d))
  {
    if Truthy(lc.comment.datetime) {
      assert Label(MainDatetimeX, 19.5, DatetimeText, EscapeValue(lc.comment.datetime)) in MainCard(lc, y).elements;
    }
  }

  /** A main card has one text block, at (65, 38.5) in the inherited type
      size, holding the comment's wrapped lines at x = 65. */
  lemma MainCardText(lc: LaidOut, y: real)
    ensures var els := MainCard(lc, y).elements;
      && (exists e :: e in els && e.Paragraph?)
      && (forall e :: e in els && e.Paragraph? ==>
            e.x == 65.0 && e.y == TextYOffset && e.fontSize == Inherited && LinesAt(e.spans, lc.layout.mainTextLines, 65.0))
  {
    assert Paragraph(65.0, TextYOffset, CommentDense, Inherited, Tspans(lc.layout.mainTextLines, 65.0)) in MainCard(lc, y).elements;
  }

  /** The order of a reply card's elements: frame, avatar and name come
      first, then the datetime label when there is one, and the text block is
      the last element; a reply card has no like badge. */
  lemma ReplyCardElements(r: Reply, rl: ReplyLayout, y: real)
    ensures var els := ReplyCard(r, rl, y).elements;
      var d := if Truthy(r.datetime) then 1 else 0;
      && |els| == 4 + d
      && els[0].Rect? && els[1].Circle?
      && els[2] == Label(55.0, 19.5, NicknameDense, "@" + EscapeValue(r.username))
      && (d == 1 ==> els[3].Label? && els[3].cls == DatetimeText)
      && els[3 + d].Paragraph?
      && forall i :: 0 <= i < |els| ==> !els[i].LikeBadge?
  {
  }

  /** A reply card is a group at (50, y) opening with a 950-wide rectangle of
      the reply's card height, and it never has a like badge. */
  lemma ReplyCardFrame(r: Reply, rl: ReplyLayout, y: real)
    ensures ReplyCard(r, rl, y).x == ReplyIndentX && ReplyCard(r, rl, y).y == y
    ensures ReplyCard(r, rl, y).elements[0] == Rect(950.0, rl.cardHeight, ReplyCardStyle, false)
    ensures forall e :: e in ReplyCard(r, rl, y).elements ==> !e.LikeBadge?
  {
  }

  /** A reply card has a datetime label exactly when the reply's datetime is
      truthy; the label sits at x = 780 and holds the escaped datetime. */
  lemma ReplyCardDatetime(r: Reply, rl: ReplyLayout, y: real)
    ensures var els := ReplyCard(r, rl, y).elements;
      && ((exists e :: e in els && e.Label? && e.cls == DatetimeText) <==> Truthy(r.datetime))
      && (forall e :: e in els && e.Label? && e.cls == DatetimeText ==> e.x == ReplyDatetimeX && e.content == EscapeValue(r.datetime))
  {
    if Truthy(r.datetime) {
      assert Label(ReplyDatetimeX, 19.5, DatetimeText, EscapeValue(r.datetime)) in ReplyCard(r, rl, y).elements;
    }
  }

  /** A reply card has one text block, at (55, 37.5) in 13-pixel type, holding
      the reply's wrapped lines at x = 55. */
  lemma ReplyCardText(r: Reply, rl: ReplyLayout, y: real)
    ensures var els := ReplyCard(r, rl, y).elements;
      && (exists e :: e in els && e.Paragraph?)
      && (forall e :: e in els && e.Paragraph? ==>
            e.x == 55.0 && e.y == 37.5 && e.fontSize == Px(13) && LinesAt(e.spans, rl.textLines, 55.0))
  {
    assert Paragraph(55.0, 37.5, CommentDense, Px(13), Tspans(rl.textLines, 55.0)) in ReplyCard(r, rl, y).elements;
  }

  // ---------------------------------------------------------------------
  // Escaping
  // ---------------------------------------------------------------------

  /** No `<`, `>` or `'` that could close or open markup. */
  predicate NoRaw(s: string)
  {
    forall k :: 0 <= k < |s| ==> !Unescaped(s[k])
  }

  /** The text an element embeds from the input is escaped: labels (username,
      datetime) and paragraph lines. The like badge's count is embedded as
      `${likes}` without escaping, so it is not covered. */
  predicate TextEscaped(e: Element)
  {
    match e
    case Label(_, _, _, t) => NoRaw(t)
    case Paragraph(_, _, _, _, spans) => forall i :: 0 <= i < |spans| ==> NoRaw(spans[i].content)
    case _ => true
  }

  lemma EscapeValueSafe(v: Json)
    ensures NoRaw(EscapeValue(v)) && NoRaw("@" + EscapeValue(v))
  {
    if v.JStr? {
      EscapeHtmlSafe(v.s);
    }
    assert forall k :: 1 <= k < |"@" + EscapeValue(v)| ==> ("@" + EscapeValue(v))[k] == EscapeValue(v)[k - 1];
  }

  lemma TspansSafe(lines: seq<string>, x: real)
    ensures forall i :: 0 <= i < |Tspans(lines, x)| ==> NoRaw(Tspans(lines, x)[i].content)
  {
    forall i | 0 <= i < |lines|
      ensures NoRaw(Tspans(lines, x)[i].content)
    {
      EscapeHtmlSafe(lines[i]);
    }
  }

  lemma DrawEscaped(s: Slot)
    ensures forall e :: e in Draw(s).elements ==> TextEscaped(e)
  {
    match s
    case MainAt(lc, y) =>
      EscapeValueSafe(lc.comment.username);
      EscapeValueSafe(lc.comment.datetime);
      TspansSafe(lc.layout.mainTextLines, 65.0);
    case ReplyAt(r, rl, y) =>
      EscapeValueSafe(r.username);
      EscapeValueSafe(r.datetime);
      TspansSafe(rl.textLines, 55.0);
  }

  /** Every username, datetime and text line on a page is escaped: no label
      or line of any card holds a raw `<`, `>` or `'`. */
  lemma CardsEscaped(cs: seq<LaidOut>)
    requires AllHaveReplyLayouts(cs)
    ensures forall j, e :: 0 <= j < |Cards(cs)| && e in Cards(cs)[j].elements ==> TextEscaped(e)
  {
    var ss := Slots(cs, Top);
    forall j | 0 <= j < |ss|
      ensures forall e :: e in DrawAll(ss)[j].elements ==> TextEscaped(e)
    {
      DrawAllAt(ss, j);
      DrawEscaped(ss[j]);
    }
  }

  // ---------------------------------------------------------------------
  // Cards stay on the canvas
  // ---------------------------------------------------------------------

  /** No card of the comment has a negative height (true of every layout
      `calculateLayout` computes). */
  predicate Heights(lc: LaidOut)
  {
    && HasReplyLayouts(lc)
    && lc.layout.mainCardHeight >= 0.0
    && forall i :: 0 <= i < |lc.comment.replies| ==> lc.layout.repliesLayout[i].cardHeight >= 0.0
  }

  predicate AllHeights(cs: seq<LaidOut>)
  {
    forall k :: 0 <= k < |cs| ==> Heights(cs[k])
  }

  lemma LaidOutHeights(cs: seq<LaidOut>)
    requires AllLaidOut(cs)
    ensures AllHeights(cs)
  {
    forall k | 0 <= k < |cs|
      ensures Heights(cs[k])
    {
      var c, l := cs[k].comment, cs[k].layout;
      assert LayoutOf(cs[k]);
      forall i | 0 <= i < |c.replies|
        ensures l.repliesLayout[i].cardHeight >= 0.0
      {
        assert l.repliesLayout[i] == ReplyLayoutOf(c.replies[i]);
      }
    }
  }

  /** The height of the card drawn in a slot. */
  function SlotHeight(s: Slot): real
  {
    match s
    case MainAt(lc, _) => lc.layout.mainCardHeight
    case ReplyAt(_, rl, _) => rl.cardHeight
  }

  lemma {:induction false} SpanMonotone(rls: seq<ReplyLayout>, i: nat, n: nat)
    requires i <= n <= |rls|
    requires forall j :: 0 <= j < n ==> rls[j].cardHeight >= 0.0
    ensures Span(rls, i) <= Span(rls, n)
    decreases n
  {
    if i < n {
      SpanMonotone(rls, i, n - 1);
    }
  }

  /** Every slot of `ss` holds a card that starts at or below `lo` and ends at
      or above `hi`. */
  predicate Within(ss: seq<Slot>, lo: real, hi: real)
  {
    forall j :: 0 <= j < |ss| ==> lo <= ss[j].top && ss[j].top + SlotHeight(ss[j]) <= hi
  }

  lemma WithinAppend(a: seq<Slot>, b: seq<Slot>, lo: real, mid: real, hi: real)
    requires Within(a, lo, hi) && Within(b, mid, hi) && lo <= mid
    ensures Within(a + b, lo, hi)
  {
    forall j | 0 <= j < |a + b|
      ensures lo <= (a + b)[j].top && (a + b)[j].top + SlotHeight((a + b)[j]) <= hi
    {
      if j >= |a| {
        assert (a + b)[j] == b[j - |a|];
      }
    }
  }

  /** The cards of one comment lie between the top of its main card and the
      cursor position before the trailing 5-pixel gap. */
  lemma CommentSlotsWithin(lc: LaidOut, y: real)
    requires Heights(lc)
    ensures Within(CommentSlots(lc, y), y, y + Advance(lc) - CardGap)
  {
    var n := |lc.comment.replies|;
    var rls := lc.layout.repliesLayout;
    var ss := CommentSlots(lc, y);
    SpanMonotone(rls, 0, n);
    forall j | 1 <= j < |ss|
      ensures y <= ss[j].top && ss[j].top + SlotHeight(ss[j]) <= y + Advance(lc) - CardGap
    {
      ReplySlotAt(lc, y, n, j - 1);
      assert ss[j] == ReplySlots(lc, y, n)[j - 1];
      SpanMonotone(rls, 0, j - 1);
      SpanMonotone(rls, j, n);
    }
  }

  lemma {:induction false} OffsetNonNegative(cs: seq<LaidOut>)
    requires AllHeights(cs)
    ensures AllHaveReplyLayouts(cs) && Offset(cs) >= 0.0
  {
    if |cs| > 0 {
      assert AllHeights(cs[1..]);
      OffsetNonNegative(cs[1..]);
      SpanMonotone(cs[0].layout.repliesLayout, 0, |cs[0].comment.replies|);
    }
  }

  /** Every card of a run of comments starting at `y` lies between `y` and
      the cursor position before the last trailing gap. */
  lemma {:induction false} SlotsWithin(cs: seq<LaidOut>, y: real)
    requires AllHeights(cs)
    ensures AllHaveReplyLayouts(cs)
    ensures Within(Slots(cs, y), y, y + Offset(cs) - CardGap)
  {
    if |cs| > 0 {
      var lc := cs[0];
      var y' := y + Advance(lc);
      assert AllHeights(cs[1..]);
      SlotsWithin(cs[1..], y');
      OffsetNonNegative(cs[1..]);
      CommentSlotsWithin(lc, y);
      SpanMonotone(lc.layout.repliesLayout, 0, |lc.comment.replies|);
      assert Offset(cs) == Advance(lc) + Offset(cs[1..]);
      WithinAppend(CommentSlots(lc, y), Slots(cs[1..], y'), y, y', y + Offset(cs) - CardGap);
    }
  }

  /** A card that lies on the 1080×1080 canvas: it opens with its rectangle,
      which starts at or below the cursor's start and ends above the bottom. */
  predicate OnCanvas(c: Card)
  {
    && |c.elements| > 0 && c.elements[0].Rect?
    && Top <= c.y && c.y + c.elements[0].height <= CanvasSize
  }

  lemma DrawnHeight(s: Slot)
    ensures |Draw(s).elements| > 0 && Draw(s).elements[0].Rect?
    ensures Draw(s).y == s.top && Draw(s).elements[0].height == SlotHeight(s)
  {
  }

  /** A page over which the cursor advances at most 1060 pixels is drawn
      entirely on the canvas: every card starts at or below y = 20 and ends at
      or above y = 1075. */
  lemma PageOnCanvas(cs: seq<LaidOut>)
    requires AllHeights(cs)
    requires AllHaveReplyLayouts(cs) && Offset(cs) <= MaxImageHeight
    ensures forall j :: 0 <= j < |Cards(cs)| ==> OnCanvas(Cards(cs)[j])
  {
    SlotsWithin(cs, Top);
    var ss := Slots(cs, Top);
    forall j | 0 <= j < |ss|
      ensures OnCanvas(DrawAll(ss)[j])
    {
      DrawAllAt(ss, j);
      DrawnHeight(ss[j]);
    }
  }

  lemma {:induction false} InConcat<T>(chunks: seq<seq<T>>, k: nat, x: T)
    requires k < |chunks| && x in chunks[k]
    ensures x in Concat(chunks)
  {
    if k > 0 {
      InConcat(chunks[1..], k - 1, x);
    }
  }

  /** Every page `chunkifyComments` makes with two or more comments is drawn
      entirely on the canvas. */
  lemma ChunksOnCanvas(chunks: seq<seq<LaidOut>>, items: seq<LaidOut>, k: nat)
    requires GreedyChunking(chunks, items) && AllLaidOut(items)
    requires k < |chunks| && |chunks[k]| >= 2
    ensures AllHaveReplyLayouts(chunks[k])
    ensures forall j :: 0 <= j < |Cards(chunks[k])| ==> OnCanvas(Cards(chunks[k])[j])
  {
    forall i | 0 <= i < |chunks[k]|
      ensures LayoutOf(chunks[k][i])
    {
      InConcat(chunks, k, chunks[k][i]);
    }
    ChunkHeightBound(chunks[k]);
    LaidOutHeights(chunks[k]);
    OffsetIsSumHeights(chunks[k]);
    PageOnCanvas(chunks[k]);
  }
}
