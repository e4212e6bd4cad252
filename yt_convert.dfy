/** The conversion inside `download_and_convert_yt_info`: the first pass runs
    `process_comment` over the downloaded comments into `comments_map` and
    `stats`, the second pass threads the kept comments under their parents,
    and the result is the converted video record. Running `yt-dlp`, parsing
    its output and writing the file are left out. */
module YtConvert {
  import Strings
  import opened JsValues
  import opened YtComments

  // ---------------------------------------------------------------------
  // First pass: filtering into `comments_map`
  // ---------------------------------------------------------------------

  /** `process_comment` as the first pass calls it: the URL search and the
      timestamp formatting are fixed for the whole run. */
  type Processor = Json -> Result<(Option<Processed>, Status)>

  /** `stats`: the counters the first pass increments. */
  datatype Stats = Stats(spam: nat, sensitive: nat, censoredAuthor: nat)

  /** `comments_map` (its keys in insertion order and its values) and
      `stats`. */
  datatype Pass = Pass(order: seq<Key>, byId: map<Key, Processed>, stats: Stats)

  predicate Distinct<T(==)>(s: seq<T>)
  {
    forall p, q :: 0 <= p < q < |s| ==> s[p] != s[q]
  }

  /** A dict: every key once in the insertion order, and the order holding
      exactly the keys. */
  predicate ValidPass(p: Pass)
  {
    && Distinct(p.order)
    && (forall k :: k in p.order ==> k in p.byId)
    && (forall k :: k in p.byId ==> k in p.order)
  }

  /** `stats[status] += 1` for every status but `clean`. */
  function Bump(s: Stats, status: Status): (r: Stats)
    ensures r.spam + r.sensitive + r.censoredAuthor
         == s.spam + s.sensitive + s.censoredAuthor + (if status == Clean then 0 else 1)
  {
    match status
    case Clean => s
    case CensoredAuthor => s.(censoredAuthor := s.censoredAuthor + 1)
    case Spam => s.(spam := s.spam + 1)
    case Sensitive => s.(sensitive := s.sensitive + 1)
  }

  /** `comments_map[k] = rec`: a new key goes to the end of the order; a key
      already present keeps its place and takes the new value. */
  function Put(p: Pass, k: Key, rec: Processed): (r: Pass)
    ensures ValidPass(p) ==> ValidPass(r)
    ensures k in r.byId && r.byId[k] == rec && r.stats == p.stats
    ensures forall j :: j != k ==> (j in r.byId <==> j in p.byId) && (j in p.byId ==> r.byId[j] == p.byId[j])
  {
    var r := Pass(if k in p.byId then p.order else p.order + [k], p.byId[k := rec], p.stats);
    assert ValidPass(p) ==> forall j :: j in p.order ==> j != k || k in p.byId;
    r
  }

  /** One iteration of the first loop: the comment is processed; a kept one
      is stored under its id and counted when its author was censored; a
      rejected one is counted as spam or sensitive. */
  function FilterStep(p: Pass, c: Json, process: Processor): Result<Pass>
  {
    match process(c)
    case Err(m) => Err(m)
    case Ok((kept, status)) =>
      match kept
      case None => Ok(p.(stats := Bump(p.stats, status)))
      case Some(rec) =>
        match KeyOf(rec.id)
        case None => Err("TypeError: unhashable type")
        case Some(k) =>
          var q := Put(p, k, rec);
          Ok(q.(stats := Bump(q.stats, status)))
  }

  /** The state after the first loop has run over `cs`, or the exception it
      raised. */
  function FilterSpec(cs: seq<Json>, process: Processor): Result<Pass>
    decreases |cs|
  {
    if cs == [] then Ok(Pass([], map[], Stats(0, 0, 0)))
    else
      match FilterSpec(cs[..|cs| - 1], process)
      case Err(m) => Err(m)
      case Ok(p) => FilterStep(p, cs[|cs| - 1], process)
  }

  /** The first loop of `download_and_convert_yt_info`. */
  method FilterPass(cs: seq<Json>, process: Processor) returns (r: Result<Pass>)
    ensures r == FilterSpec(cs, process)
  {
    var order: seq<Key> := [];
    var byId: map<Key, Processed> := map[];
    var stats := Stats(0, 0, 0);
    var i := 0;
    while i < |cs|
      invariant 0 <= i <= |cs|
      invariant FilterSpec(cs[..i], process) == Ok(Pass(order, byId, stats))
    {
      assert cs[..i + 1][..i] == cs[..i];
      var processed := process(cs[i]);
      if processed.Err? {
        FilterErrSticky(cs, i + 1, process);
        return Err(processed.message);
      }
      var (kept, status) := processed.value;
      if kept.Some? {
        var key := KeyOf(kept.value.id);
        if key.None? {
          FilterErrSticky(cs, i + 1, process);
          return Err("TypeError: unhashable type");
        }
        if key.value !in byId {
          order := order + [key.value];
        }
        byId := byId[key.value := kept.value];
      }
      stats := Bump(stats, status);
      i := i + 1;
    }
    assert cs[..i] == cs;
    r := Ok(Pass(order, byId, stats));
  }

  /** One more key of the order is one more `ThreadStep`. */
  lemma ThreadSpecNext(order: seq<Key>, i: nat, m: map<Key, Processed>)
    requires forall k :: k in order ==> k in m
    requires i < |order| && ThreadSpec(order[..i], m).Ok?
    ensures order[i] in ThreadSpec(order[..i], m).value.records
    ensures ThreadSpec(order[..i + 1], m) == ThreadStep(ThreadSpec(order[..i], m).value, order[i])
  {
    assert order[..i + 1][..i] == order[..i];
  }

  /** Once the loop has raised, the whole pass raises the same error. */
  lemma {:induction false} FilterErrSticky(cs: seq<Json>, i: nat, process: Processor)
    requires i <= |cs| && FilterSpec(cs[..i], process).Err?
    ensures FilterSpec(cs, process) == FilterSpec(cs[..i], process)
    decreases |cs| - i
  {
    if i < |cs| {
      assert cs[..i + 1][..i] == cs[..i];
      FilterErrSticky(cs, i + 1, process);
    } else {
      assert cs[..i] == cs;
    }
  }

  /** `comments_map` stays a dict through the first pass. */
  lemma {:induction false} FilterValid(cs: seq<Json>, process: Processor)
    requires FilterSpec(cs, process).Ok?
    ensures ValidPass(FilterSpec(cs, process).value)
    decreases |cs|
  {
    if cs != [] {
      FilterValid(cs[..|cs| - 1], process);
    }
  }

  /** The status `process_comment` gives a comment, when it does not raise. */
  function StatusOf(c: Json, process: Processor): Option<Status>
  {
    match process(c)
    case Err(_) => None
    case Ok((_, status)) => Some(status)
  }

  /** How many of `cs` get status `st`. */
  function CountStatus(cs: seq<Json>, st: Status, process: Processor): nat
    decreases |cs|
  {
    if cs == [] then 0
    else CountStatus(cs[..|cs| - 1], st, process) + (if StatusOf(cs[|cs| - 1], process) == Some(st) then 1 else 0)
  }

  /** Each counter counts the comments of its status: every rejected comment
      counts once as spam or as sensitive, and every kept comment whose
      author was censored counts once. */
  lemma {:induction false} FilterStats(cs: seq<Json>, process: Processor)
    requires FilterSpec(cs, process).Ok?
    ensures var s := FilterSpec(cs, process).value.stats;
      && s.spam == CountStatus(cs, Spam, process)
      && s.sensitive == CountStatus(cs, Sensitive, process)
      && s.censoredAuthor == CountStatus(cs, CensoredAuthor, process)
    decreases |cs|
  {
    if cs != [] {
      FilterStats(cs[..|cs| - 1], process);
    }
  }

  /** The key a comment is stored under, when `process_comment` keeps it. */
  function KeptKey(c: Json, process: Processor): Option<Key>
  {
    match process(c)
    case Err(_) => None
    case Ok((kept, _)) => if kept.Some? then KeyOf(kept.value.id) else None
  }

  /** `comments_map[k]` holds the record of the LAST comment kept under `k`:
      a later comment with the same id replaces an earlier one. */
  predicate StoredFrom(cs: seq<Json>, k: Key, rec: Processed, process: Processor)
  {
    exists i :: 0 <= i < |cs| && KeptKey(cs[i], process) == Some(k)
      && process(cs[i]).value.0.value == rec
      && NoLaterKept(cs, i, k, process)
  }

  /** No comment after the `i`-th is kept under `k`. */
  predicate NoLaterKept(cs: seq<Json>, i: nat, k: Key, process: Processor)
  {
    forall j :: i < j < |cs| ==> KeptKey(cs[j], process) != Some(k)
  }

  lemma NoLaterKeptExtend(cs: seq<Json>, i: nat, k: Key, process: Processor)
    requires cs != [] && i < |cs| - 1
    requires NoLaterKept(cs[..|cs| - 1], i, k, process) && KeptKey(cs[|cs| - 1], process) != Some(k)
    ensures NoLaterKept(cs, i, k, process)
  {
    forall j | i < j < |cs|
      ensures KeptKey(cs[j], process) != Some(k)
    {
      if j < |cs| - 1 {
        assert cs[j] == cs[..|cs| - 1][j];
      }
    }
  }

  /** What one iteration does to `comments_map`: the comment's key is added
      with its record, and every other entry stays. */
  lemma FilterStepKept(p: Pass, c: Json, process: Processor)
    requires FilterStep(p, c, process).Ok?
    ensures var m := FilterStep(p, c, process).value.byId;
      && (forall k :: k in m <==> k in p.byId || KeptKey(c, process) == Some(k))
      && (forall k :: KeptKey(c, process) == Some(k) ==> m[k] == process(c).value.0.value)
      && (forall k :: k in p.byId && KeptKey(c, process) != Some(k) ==> m[k] == p.byId[k])
  {
  }

  /** The last comment of a non-empty list and the ones before it. */
  lemma SplitLast(cs: seq<Json>)
    requires cs != []
    ensures forall i :: 0 <= i < |cs| - 1 ==> cs[..|cs| - 1][i] == cs[i]
  {
  }

  /** The keys of `comments_map` are the ids of the kept comments. */
  lemma {:induction false} FilterKeys(cs: seq<Json>, process: Processor)
    requires FilterSpec(cs, process).Ok?
    ensures var m := FilterSpec(cs, process).value.byId;
      forall k :: k in m <==> exists i :: 0 <= i < |cs| && KeptKey(cs[i], process) == Some(k)
    decreases |cs|
  {
    if cs != [] {
      var init := cs[..|cs| - 1];
      FilterKeys(init, process);
      FilterStepKept(FilterSpec(init, process).value, cs[|cs| - 1], process);
      SplitLast(cs);
      var m := FilterSpec(cs, process).value.byId;
      forall k
        ensures k in m <==> exists i :: 0 <= i < |cs| && KeptKey(cs[i], process) == Some(k)
      {
        if exists i :: 0 <= i < |cs| && KeptKey(cs[i], process) == Some(k) {
          var i :| 0 <= i < |cs| && KeptKey(cs[i], process) == Some(k);
          if i < |init| {
            assert KeptKey(init[i], process) == Some(k);
          }
        }
      }
    }
  }

  /** Each value of `comments_map` is the record of the last kept comment
      with that id: a later comment with the same id replaces an earlier
      one. */
  lemma {:induction false} FilterStored(cs: seq<Json>, process: Processor)
    requires FilterSpec(cs, process).Ok?
    ensures var m := FilterSpec(cs, process).value.byId;
      forall k :: k in m ==> StoredFrom(cs, k, m[k], process)
    decreases |cs|
  {
    if cs != [] {
      var init := cs[..|cs| - 1];
      var last := cs[|cs| - 1];
      FilterStored(init, process);
      var m0 := FilterSpec(init, process).value.byId;
      FilterStepKept(FilterSpec(init, process).value, last, process);
      SplitLast(cs);
      var m := FilterSpec(cs, process).value.byId;
      forall k | k in m
        ensures StoredFrom(cs, k, m[k], process)
      {
        if KeptKey(last, process) == Some(k) {
          assert NoLaterKept(cs, |cs| - 1, k, process);
        } else {
          var i :| 0 <= i < |init| && KeptKey(init[i], process) == Some(k)
            && process(init[i]).value.0.value == m0[k]
            && NoLaterKept(init, i, k, process);
          NoLaterKeptExtend(cs, i, k, process);
          assert cs[i] == init[i];
          assert m[k] == m0[k];
        }
      }
    }
  }

  // ---------------------------------------------------------------------
  // Second pass: threading replies under their parents
  // ---------------------------------------------------------------------

  /** The threaded comments: the keys of the top-level comments in order, and
      every kept record, whose `replies` lists the keys of the records
      appended to it (`threaded_comments` and the parents' `replies` hold
      the very dicts of `comments_map`). */
  datatype Thread = Thread(top: seq<Key>, records: map<Key, Processed>)

  /** `parent_id and parent_id != 'root'`. */
  predicate HasParent(parent: Json)
  {
    PyTruthy(parent) && parent != JStr("root")
  }

  /** One iteration of the second loop, for the comment stored under `k`:
      without a parent it goes to the top level; with a parent still in the
      map it is appended to that parent's replies; otherwise it is dropped.
      An unhashable parent id raises. */
  function ThreadStep(t: Thread, k: Key): (r: Result<Thread>)
    requires k in t.records
    ensures r.Ok? ==> r.value.records.Keys == t.records.Keys
  {
    var parent := t.records[k].parent;
    if !HasParent(parent) then Ok(t.(top := t.top + [k]))
    else
      match KeyOf(parent)
      case None => Err("TypeError: unhashable type")
      case Some(pk) =>
        if pk in t.records then
          var pc := t.records[pk];
          Ok(t.(records := t.records[pk := pc.(replies := pc.replies + [k])]))
        else Ok(t)
  }

  /** The state after the second loop has run over the keys `order` of the
      map `m`, or the exception it raised. */
  function ThreadSpec(order: seq<Key>, m: map<Key, Processed>): (r: Result<Thread>)
    requires forall k :: k in order ==> k in m
    ensures r.Ok? ==> r.value.records.Keys == m.Keys
    decreases |order|
  {
    if order == [] then Ok(Thread([], m))
    else
      match ThreadSpec(order[..|order| - 1], m)
      case Err(e) => Err(e)
      case Ok(t) => ThreadStep(t, order[|order| - 1])
  }

  /** The second loop of `download_and_convert_yt_info`, over the items of
      `comments_map` in insertion order. */
  method ThreadPass(p: Pass) returns (r: Result<Thread>)
    requires ValidPass(p)
    ensures r == ThreadSpec(p.order, p.byId)
  {
    var top: seq<Key> := [];
    var records := p.byId;
    var i := 0;
    while i < |p.order|
      invariant 0 <= i <= |p.order|
      invariant ThreadSpec(p.order[..i], p.byId) == Ok(Thread(top, records))
    {
      var k := p.order[i];
      ThreadSpecNext(p.order, i, p.byId);
      var parent := records[k].parent;
      if HasParent(parent) {
        var pk := KeyOf(parent);
        if pk.None? {
          ThreadErrSticky(p.order, i + 1, p.byId);
          return Err("TypeError: unhashable type");
        }
        if pk.value in records {
          var pc := records[pk.value];
          records := records[pk.value := pc.(replies := pc.replies + [k])];
        }
      } else {
        top := top + [k];
      }
      i := i + 1;
    }
    assert p.order[..i] == p.order;
    r := Ok(Thread(top, records));
  }

  /** Once the loop has raised, the whole pass raises the same error. */
  lemma {:induction false} ThreadErrSticky(order: seq<Key>, i: nat, m: map<Key, Processed>)
    requires forall k :: k in order ==> k in m
    requires i <= |order| && ThreadSpec(order[..i], m).Err?
    ensures ThreadSpec(order, m) == ThreadSpec(order[..i], m)
    decreases |order| - i
  {
    if i < |order| {
      assert order[..i + 1][..i] == order[..i];
      ThreadErrSticky(order, i + 1, m);
    } else {
      assert order[..i] == order;
    }
  }

  /** The keys in `order` whose comment has no parent, in order. */
  function Roots(order: seq<Key>, m: map<Key, Processed>): (r: seq<Key>)
    requires forall k :: k in order ==> k in m
    ensures forall k :: k in r <==> k in order && !HasParent(m[k].parent)
    decreases |order|
  {
    if order == [] then []
    else
      var k := order[|order| - 1];
      Roots(order[..|order| - 1], m) + (if HasParent(m[k].parent) then [] else [k])
  }

  /** The keys in `order` whose comment names `q` as its parent, in order. */
  function Children(order: seq<Key>, m: map<Key, Processed>, q: Key): (r: seq<Key>)
    requires forall k :: k in order ==> k in m
    ensures forall k :: k in r <==> k in order && HasParent(m[k].parent) && KeyOf(m[k].parent) == Some(q)
    decreases |order|
  {
    if order == [] then []
    else
      var k := order[|order| - 1];
      Children(order[..|order| - 1], m, q)
        + (if HasParent(m[k].parent) && KeyOf(m[k].parent) == Some(q) then [k] else [])
  }

  /** What one iteration does: the comment goes to the top level when it has
      no parent, or to the end of its parent's replies when the parent is in
      the map; nothing else changes. */
  lemma ThreadStepEffect(t: Thread, k: Key)
    requires k in t.records && ThreadStep(t, k).Ok?
    ensures var r := ThreadStep(t, k).value;
      var parent := t.records[k].parent;
      && r.top == t.top + (if HasParent(parent) then [] else [k])
      && forall q :: q in t.records ==>
           && r.records[q] == t.records[q].(replies := r.records[q].replies)
           && r.records[q].replies
              == t.records[q].replies + (if HasParent(parent) && KeyOf(parent) == Some(q) then [k] else [])
  {
  }

  /** The second pass changes only `replies`: every other field of every
      record, its parent included, is as the first pass left it. */
  lemma {:induction false} ThreadFields(order: seq<Key>, m: map<Key, Processed>)
    requires forall k :: k in order ==> k in m
    requires ThreadSpec(order, m).Ok?
    ensures var rs := ThreadSpec(order, m).value.records;
      forall q :: q in m ==> rs[q] == m[q].(replies := rs[q].replies)
    decreases |order|
  {
    if order != [] {
      var init := order[..|order| - 1];
      ThreadFields(init, m);
      ThreadStepEffect(ThreadSpec(init, m).value, order[|order| - 1]);
    }
  }

  /** The second pass raises exactly when some comment has a parent id that
      is a non-empty list or dict. */
  lemma {:induction false} ThreadOk(order: seq<Key>, m: map<Key, Processed>)
    requires forall k :: k in order ==> k in m
    ensures ThreadSpec(order, m).Ok?
        <==> forall i :: 0 <= i < |order| ==> HasParent(m[order[i]].parent) ==> Scalar(m[order[i]].parent)
    decreases |order|
  {
    if order != [] {
      var init := order[..|order| - 1];
      ThreadOk(init, m);
      assert forall i :: 0 <= i < |init| ==> init[i] == order[i];
      if ThreadSpec(init, m).Ok? {
        ThreadFields(init, m);
      }
    }
  }

  /** `threaded_comments` holds the comments without a parent, in map order. */
  lemma {:induction false} ThreadTop(order: seq<Key>, m: map<Key, Processed>)
    requires forall k :: k in order ==> k in m
    requires ThreadSpec(order, m).Ok?
    ensures ThreadSpec(order, m).value.top == Roots(order, m)
    decreases |order|
  {
    if order != [] {
      var init := order[..|order| - 1];
      ThreadTop(init, m);
      ThreadFields(init, m);
      ThreadStepEffect(ThreadSpec(init, m).value, order[|order| - 1]);
    }
  }

  /** Every record's replies are the comments naming it as their parent, in
      map order, after the replies it already had. */
  lemma {:induction false} ThreadReplies(order: seq<Key>, m: map<Key, Processed>)
    requires forall k :: k in order ==> k in m
    requires ThreadSpec(order, m).Ok?
    ensures var rs := ThreadSpec(order, m).value.records;
      forall q :: q in m ==> rs[q].replies == m[q].replies + Children(order, m, q)
    decreases |order|
  {
    if order != [] {
      var init := order[..|order| - 1];
      var k := order[|order| - 1];
      var t := ThreadSpec(init, m).value;
      ThreadReplies(init, m);
      ThreadFields(init, m);
      ThreadStepEffect(t, k);
      assert ThreadSpec(order, m) == ThreadStep(t, k);
      var rs := ThreadStep(t, k).value.records;
      var parent := m[k].parent;
      assert t.records[k].parent == parent;
      forall q | q in m
        ensures rs[q].replies == m[q].replies + Children(order, m, q)
      {
        var extra := if HasParent(parent) && KeyOf(parent) == Some(q) then [k] else [];
        assert rs[q].replies == t.records[q].replies + extra;
        assert Children(order, m, q) == Children(init, m, q) + extra;
        assert t.records[q].replies == m[q].replies + Children(init, m, q);
        Strings.AppendAssoc(m[q].replies, Children(init, m, q), extra);
      }
    }
  }

  /** A comment whose parent was filtered out is dropped: it is neither at the
      top level nor among anybody's replies. */
  lemma OrphanDropped(order: seq<Key>, m: map<Key, Processed>, k: Key)
    requires forall j :: j in order ==> j in m
    requires (forall q :: q in m ==> m[q].replies == []) && ThreadSpec(order, m).Ok?
    requires k in m && HasParent(m[k].parent) && KeyOf(m[k].parent).Some? && KeyOf(m[k].parent).value !in m
    ensures var t := ThreadSpec(order, m).value;
      k !in t.top && forall q :: q in t.records ==> k !in t.records[q].replies
  {
    ThreadTop(order, m);
    ThreadReplies(order, m);
  }

  // ---------------------------------------------------------------------
  // The converted record
  // ---------------------------------------------------------------------

  /** The fields `converted_data` copies from the downloaded record with
      `data.get`, in their order; `comments` follows them. */
  const MetaFields: seq<string> := [
    "id", "title", "description", "upload_date", "uploader", "uploader_id",
    "channel", "duration", "view_count", "like_count", "comment_count"
  ]

  /** `converted_data`: the copied fields and the threaded comments. */
  datatype Converted = Converted(meta: seq<(string, Json)>, comments: Thread)

  function Meta(members: seq<(string, Json)>): (r: seq<(string, Json)>)
    ensures |r| == |MetaFields|
  {
    seq(|MetaFields|, i requires 0 <= i < |MetaFields| => (MetaFields[i], PyGet(members, MetaFields[i])))
  }

  /** What `for comment in v` walks: a list's items, a string's characters
      (each a one-character string), a dict's keys; `None` where Python
      raises `TypeError` (a number or a boolean is not iterable). */
  function Items(v: Json): (r: Option<seq<Json>>)
    ensures r.None? <==> v.JNull? || v.JNum? || v.JBool?
  {
    match v
    case JArr(items) => Some(items)
    case JStr(s) => Some(seq(|s|, i requires 0 <= i < |s| => JStr([s[i]])))
    case JObj(members) => Some(seq(|members|, i requires 0 <= i < |members| => JStr(members[i].0)))
    case _ => None
  }

  /** The conversion: a downloaded record that is not a dict raises; falsy
      `comments` give no comments; otherwise both passes run over them. */
  function Convert(data: Json, process: Processor): Result<Converted>
  {
    if !data.JObj? then Err("AttributeError: data has no attribute 'get'")
    else
      var comments := PyGet(data.members, "comments");
      if !PyTruthy(comments) then Ok(Converted(Meta(data.members), Thread([], map[])))
      else
        match Items(comments)
        case None => Err("TypeError: object is not iterable")
        case Some(cs) =>
          match FilterSpec(cs, process)
          case Err(e) => Err(e)
          case Ok(p) =>
            FilterValid(cs, process);
            match ThreadSpec(p.order, p.byId)
            case Err(e) => Err(e)
            case Ok(t) => Ok(Converted(Meta(data.members), t))
  }

  /** The conversion part of `download_and_convert_yt_info`. */
  method ConvertComments(data: Json, process: Processor) returns (r: Result<Converted>)
    ensures r == Convert(data, process)
  {
    if !data.JObj? {
      return Err("AttributeError: data has no attribute 'get'");
    }
    var thread := Thread([], map[]);
    var comments := PyGet(data.members, "comments");
    if PyTruthy(comments) {
      var cs := Items(comments);
      if cs.None? {
        return Err("TypeError: object is not iterable");
      }
      var pass := FilterPass(cs.value, process);
      if pass.Err? {
        return Err(pass.message);
      }
      FilterValid(cs.value, process);
      var threaded := ThreadPass(pass.value);
      if threaded.Err? {
        return Err(threaded.message);
      }
      thread := threaded.value;
    }
    r := Ok(Converted(Meta(data.members), thread));
  }

  /** `process_comment` with a given URL search and timestamp format. */
  function Processing(urlMatch: string -> bool, fmt: int -> string): Processor
  {
    c => ProcessComment(c, urlMatch, fmt)
  }

  /** Every comment of a converted record, at the top level or among
      replies, is a kept comment: no sensitive keyword in its text or its
      author. */
  lemma ConvertedClean(data: Json, urlMatch: string -> bool, fmt: int -> string)
    requires Convert(data, Processing(urlMatch, fmt)).Ok?
    ensures var rs := Convert(data, Processing(urlMatch, fmt)).value.comments.records;
      forall q :: q in rs ==>
        && !ContainsKeyword(rs[q].author, SensitiveKeywords)
        && !(rs[q].text.JStr? && ContainsKeyword(rs[q].text.s, SensitiveKeywords))
  {
    var process := Processing(urlMatch, fmt);
    var comments := PyGet(data.members, "comments");
    if PyTruthy(comments) {
      var cs := Items(comments).value;
      var p := FilterSpec(cs, process).value;
      FilterValid(cs, process);
      FilterStored(cs, process);
      ThreadFields(p.order, p.byId);
      var rs := ThreadSpec(p.order, p.byId).value.records;
      forall q | q in rs
        ensures !ContainsKeyword(rs[q].author, SensitiveKeywords)
        ensures !(rs[q].text.JStr? && ContainsKeyword(rs[q].text.s, SensitiveKeywords))
      {
        var i :| 0 <= i < |cs| && KeptKey(cs[i], process) == Some(q)
          && process(cs[i]).value.0.value == p.byId[q];
        KeptClean(cs[i], urlMatch, fmt);
      }
    }
  }

  /** Every record the first pass stores starts without replies. */
  lemma FilterFresh(cs: seq<Json>, urlMatch: string -> bool, fmt: int -> string)
    requires FilterSpec(cs, Processing(urlMatch, fmt)).Ok?
    ensures var m := FilterSpec(cs, Processing(urlMatch, fmt)).value.byId;
      forall q :: q in m ==> m[q].replies == []
  {
    var process := Processing(urlMatch, fmt);
    var m := FilterSpec(cs, process).value.byId;
    FilterStored(cs, process);
    forall q | q in m
      ensures m[q].replies == []
    {
      var i :| 0 <= i < |cs| && KeptKey(cs[i], process) == Some(q)
        && process(cs[i]).value.0.value == m[q];
      KeptClean(cs[i], urlMatch, fmt);
    }
  }

  /** For a list of comments, the converted comments are what the second
      pass makes of what the first pass kept. */
  lemma ConvertPasses(data: Json, process: Processor)
    requires Convert(data, process).Ok? && PyGet(data.members, "comments").JArr?
    ensures var cs := PyGet(data.members, "comments").items;
      && FilterSpec(cs, process).Ok?
      && ValidPass(FilterSpec(cs, process).value)
      && var p := FilterSpec(cs, process).value;
         ThreadSpec(p.order, p.byId).Ok?
         && Convert(data, process).value.comments == ThreadSpec(p.order, p.byId).value
  {
    var cs := PyGet(data.members, "comments").items;
    assert Items(PyGet(data.members, "comments")) == Some(cs);
    FilterValid(cs, process);
    if cs == [] {
      assert FilterSpec(cs, process) == Ok(Pass([], map[], Stats(0, 0, 0)));
    }
  }

  /** The threads of a converted record: the top level lists the kept
      comments without a parent, and each kept comment's replies are exactly
      the kept comments naming it as their parent, both in the order the
      comments were first kept. */
  lemma ConvertedThreads(data: Json, urlMatch: string -> bool, fmt: int -> string)
    requires Convert(data, Processing(urlMatch, fmt)).Ok?
    requires PyGet(data.members, "comments").JArr?
    ensures var cs := PyGet(data.members, "comments").items;
      var p := FilterSpec(cs, Processing(urlMatch, fmt)).value;
      var t := Convert(data, Processing(urlMatch, fmt)).value.comments;
      && ValidPass(p)
      && t.top == Roots(p.order, p.byId)
      && forall q :: q in p.byId ==> t.records[q].replies == Children(p.order, p.byId, q)
  {
    var process := Processing(urlMatch, fmt);
    var cs := PyGet(data.members, "comments").items;
    ConvertPasses(data, process);
    var p := FilterSpec(cs, process).value;
    FilterFresh(cs, urlMatch, fmt);
    ThreadTop(p.order, p.byId);
    ThreadReplies(p.order, p.byId);
  }
}
