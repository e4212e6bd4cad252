/** The comment filter of the YouTube downloader script: keyword detection,
    censoring of author names, the per-comment decision, and the two passes
    that filter the downloaded comments and thread replies under their
    parents. The URL search, the time-zone formatting of timestamps and the
    download itself are parameters or left out. */
module YtComments {
  import opened Strings
  import opened JsValues

  const SpamKeywords: seq<string> := [
    "翻墙", "翻牆", "VPN", "软件", "軟體", "免费", "免費",
    "推广", "推廣", "福利", "赚钱", "賺錢", "加微", "v信",
    "V信", "Q群", "扣群", "奈飞", "奈飛", "chatgpt", "gpt-4",
    "好人一生平安"
  ]

  /** `SENSITIVE_KEYWORDS`, group by group as the source lists them. */
  const SensitiveKeywords: seq<string> :=
    HistoryKeywords + BannedKeywords + SeparatistKeywords + TaiwanStateKeywords
    + RepublicKeywords + PeoplesRepublicKeywords + HongKongKeywords
    + AttackKeywords + MediaKeywords + LeaderKeywords

  const HistoryKeywords: seq<string> := ["六四", "天安门事件", "天安門事件", "8964"]
  const BannedKeywords: seq<string> := ["法轮功", "法輪功", "大法好"]
  const SeparatistKeywords: seq<string> := [
    "台独", "台獨", "臺独", "臺獨",
    "台湾独立", "台灣獨立", "臺灣獨立",
    "藏独", "藏獨", "疆独", "疆獨", "港独", "港獨"
  ]
  const TaiwanStateKeywords: seq<string> := [
    "台湾国", "台灣國", "臺灣國",
    "台湾民主共和国", "臺灣民主共和國", "台灣民主共和國",
    "台湾共和国", "台灣共和國", "臺灣共和國"
  ]
  const RepublicKeywords: seq<string> := [
    "中华民国台湾", "中華民國台灣", "中華民國臺灣",
    "中华民国", "中華民國", "中国民国", "中國民國",
    "台湾民国", "臺灣民國"
  ]
  const PeoplesRepublicKeywords: seq<string> := [
    "中华人民共和国", "中華人民共和國", "中国人民共和国", "中國人民共和國",
    "中华人民共合国", "中華人民共合國", "中国人民共合国", "中國人民共合國"
  ]
  const HongKongKeywords: seq<string> := ["光复香港", "光復香港", "时代革命", "時代革命"]
  const AttackKeywords: seq<string> := [
    "共匪", "赤匪", "支那", "中国共产党黑暗", "中國共產黨黑暗", "中国共产党灭亡", "中國共產黨滅亡"
  ]
  const MediaKeywords: seq<string> := ["民报", "民報"]
  const LeaderKeywords: seq<string> := ["维尼", "維尼", "包子", "习大大", "習大大", "习近平", "習近平"]

  // ---------------------------------------------------------------------
  // Keyword detection
  // ---------------------------------------------------------------------

  /** `c.lower()` on the letters A to Z; every other character is kept. */
  function LowerChar(c: char): (r: char)
    ensures r == '*' <==> c == '*'
  {
    if 'A' <= c <= 'Z' then (c as int + 32) as char else c
  }

  /** `s.lower()`, character by character. */
  function Lower(s: string): string
  {
    seq(|s|, i requires 0 <= i < |s| => LowerChar(s[i]))
  }

  /** `contains_keyword(text, keywords)`: false for empty text; otherwise
      whether some keyword, lowercased, occurs in the lowercased text, trying
      the keywords in order and stopping at the first hit. */
  function ContainsKeyword(text: string, keywords: seq<string>): bool
  {
    if text == "" then false else AnyOccurs(Lower(text), keywords)
  }

  function AnyOccurs(lowerText: string, keywords: seq<string>): bool
  {
    |keywords| > 0 && (Contains(lowerText, Lower(keywords[0])) || AnyOccurs(lowerText, keywords[1..]))
  }

  lemma {:induction false} AnyOccursIff(lowerText: string, keywords: seq<string>)
    ensures AnyOccurs(lowerText, keywords) <==> exists i :: 0 <= i < |keywords| && Contains(lowerText, Lower(keywords[i]))
  {
    if |keywords| > 0 {
      AnyOccursIff(lowerText, keywords[1..]);
      assert forall i :: 1 <= i < |keywords| ==> keywords[i] == keywords[1..][i - 1];
    }
  }

  /** Detection is case-insensitive: the text contains a keyword exactly when
      it is non-empty and some keyword occurs in it once both are lowercased. */
  lemma ContainsKeywordIff(text: string, keywords: seq<string>)
    ensures ContainsKeyword(text, keywords) <==>
      text != "" && exists i :: 0 <= i < |keywords| && Contains(Lower(text), Lower(keywords[i]))
  {
    AnyOccursIff(Lower(text), keywords);
  }

  // ---------------------------------------------------------------------
  // Censoring
  // ---------------------------------------------------------------------

  /** `k` matches `s` at `i`, ignoring case. */
  predicate MatchAt(s: string, k: string, i: nat)
  {
    i + |k| <= |s| && forall j :: 0 <= j < |k| ==> LowerChar(s[i + j]) == LowerChar(k[j])
  }

  /** A case-insensitive match is an occurrence of the lowercased keyword in
      the lowercased string. */
  lemma MatchAtIsOccurrence(s: string, k: string, i: nat)
    ensures MatchAt(s, k, i) <==> OccursAt(Lower(s), Lower(k), i)
  {
    if i + |k| <= |s| {
      if MatchAt(s, k, i) {
        assert Lower(s)[i..i + |k|] == Lower(k);
      }
      if OccursAt(Lower(s), Lower(k), i) {
        forall j | 0 <= j < |k|
          ensures LowerChar(s[i + j]) == LowerChar(k[j])
        {
          assert Lower(s)[i..i + |k|][j] == Lower(k)[j];
        }
      }
    }
  }

  /** `re.compile(re.escape(k), re.IGNORECASE).sub('*' * len(k), s)`. An empty
      keyword matches only empty strings and leaves `s` as it is. */
  function Sub(s: string, k: string): (r: string)
    ensures |r| == |s|
  {
    if k == "" then s else Scan(s, k)
  }

  /** The left-to-right scan of `re.sub` for a non-empty keyword: a match at
      the current position becomes `*`s and the scan resumes after it;
      otherwise the character is kept and the scan moves on by one. */
  function Scan(s: string, k: string): (r: string)
    requires k != ""
    ensures |r| == |s|
    decreases |s|
  {
    if |s| == 0 then []
    else if MatchAt(s, k, 0) then Repeat('*', |k|) + Scan(s[|k|..], k)
    else [s[0]] + Scan(s[1..], k)
  }

  /** `r` is `s` with some characters turned into `*`. */
  predicate Masks(r: string, s: string)
  {
    |r| == |s| && forall i :: 0 <= i < |s| ==> r[i] == s[i] || r[i] == '*'
  }

  lemma MasksTransitive(a: string, b: string, c: string)
    requires Masks(a, b) && Masks(b, c)
    ensures Masks(a, c)
  {
  }

  /** Replacing a keyword only turns characters into `*`. */
  lemma {:induction false} ScanMasks(s: string, k: string)
    requires k != ""
    ensures Masks(Scan(s, k), s)
    decreases |s|
  {
    if |s| > 0 {
      var r := Scan(s, k);
      if MatchAt(s, k, 0) {
        ScanMasks(s[|k|..], k);
        assert forall i :: |k| <= i < |s| ==> r[i] == Scan(s[|k|..], k)[i - |k|] && s[i] == s[|k|..][i - |k|];
      } else {
        ScanMasks(s[1..], k);
        assert forall i :: 1 <= i < |s| ==> r[i] == Scan(s[1..], k)[i - 1] && s[i] == s[1..][i - 1];
      }
    }
  }

  /** Where a masked string matches a keyword without `*`, the original
      matched too. */
  lemma MaskedMatch(r: string, s: string, k: string, p: nat)
    requires Masks(r, s) && '*' !in k
    ensures MatchAt(r, k, p) ==> MatchAt(s, k, p)
  {
    if MatchAt(r, k, p) {
      forall j | 0 <= j < |k|
        ensures LowerChar(s[p + j]) == LowerChar(k[j])
      {
        assert k[j] in k;
      }
    }
  }

  lemma MatchInSuffix(a: string, b: string, k: string, p: nat)
    requires p >= |a|
    ensures MatchAt(a + b, k, p) <==> MatchAt(b, k, p - |a|)
  {
  }

  /** Masking keeps a keyword without `*` from matching where it did not
      match before. */
  lemma MasksKeepNoMatch(r: string, s: string, k: string)
    requires Masks(r, s) && '*' !in k
    requires forall p :: !MatchAt(s, k, p)
    ensures forall p :: !MatchAt(r, k, p)
  {
    forall p: nat
      ensures !MatchAt(r, k, p)
    {
      MaskedMatch(r, s, k, p);
    }
  }

  /** After replacing a non-empty keyword without `*`, it matches nowhere. */
  lemma {:induction false} ScanNoMatch(s: string, k: string)
    requires k != "" && '*' !in k
    ensures forall p :: !MatchAt(Scan(s, k), k, p)
    decreases |s|
  {
    if |s| > 0 {
      var r := Scan(s, k);
      if MatchAt(s, k, 0) {
        var stars := Repeat('*', |k|);
        var rest := Scan(s[|k|..], k);
        ScanNoMatch(s[|k|..], k);
        assert r == stars + rest;
        assert k[0] in k;
        forall p: nat
          ensures !MatchAt(r, k, p)
        {
          if p >= |k| {
            MatchInSuffix(stars, rest, k, p);
          } else if p + |k| <= |r| {
            assert r[p] == '*';
          }
        }
      } else {
        var rest := Scan(s[1..], k);
        ScanNoMatch(s[1..], k);
        ScanMasks(s, k);
        assert r == [s[0]] + rest;
        forall p: nat
          ensures !MatchAt(r, k, p)
        {
          if p >= 1 {
            MatchInSuffix([s[0]], rest, k, p);
          } else {
            MaskedMatch(r, s, k, 0);
          }
        }
      }
    }
  }

  /** Position `i` of `s` lies inside a case-insensitive occurrence of `k`. */
  predicate InMatch(s: string, k: string, i: nat)
  {
    exists p: nat :: p <= i < p + |k| && MatchAt(s, k, p)
  }

  /** Position `i` of `s` lies inside an occurrence of one of `keywords`. */
  predicate InSomeMatch(s: string, keywords: seq<string>, i: nat)
  {
    exists j :: 0 <= j < |keywords| && InMatch(s, keywords[j], i)
  }

  lemma InMatchShift(a: string, b: string, k: string, i: nat)
    requires InMatch(b, k, i)
    ensures InMatch(a + b, k, |a| + i)
  {
    var p: nat :| p <= i < p + |k| && MatchAt(b, k, p);
    MatchInSuffix(a, b, k, |a| + p);
  }

  /** Replacing a keyword changes only characters inside one of its
      occurrences; every other character is kept. */
  lemma {:induction false} ScanOnlyMatches(s: string, k: string)
    requires k != ""
    ensures forall i :: 0 <= i < |s| && Scan(s, k)[i] != s[i] ==> InMatch(s, k, i)
    decreases |s|
  {
    if |s| > 0 {
      var r := Scan(s, k);
      var n := if MatchAt(s, k, 0) then |k| else 1;
      var rest := s[n..];
      ScanOnlyMatches(rest, k);
      assert s == s[..n] + rest;
      forall i | 0 <= i < |s| && r[i] != s[i]
        ensures InMatch(s, k, i)
      {
        if i < n {
          assert MatchAt(s, k, 0);
        } else {
          assert r[i] == Scan(rest, k)[i - n] && s[i] == rest[i - n];
          InMatchShift(s[..n], rest, k, i - n);
        }
      }
    }
  }

  /** Replacing the keywords in turn changes only characters inside an
      occurrence of one of them in the original string: a later keyword
      cannot match across the `*`s of an earlier one. */
  lemma {:induction false} CensorAllOnlyMatches(s: string, keywords: seq<string>)
    requires AllPlain(keywords)
    ensures forall i :: 0 <= i < |s| && CensorAll(s, keywords)[i] != s[i] ==> InSomeMatch(s, keywords, i)
    decreases |keywords|
  {
    if |keywords| > 0 {
      var k := keywords[0];
      var s' := Sub(s, k);
      var r := CensorAll(s, keywords);
      ScanOnlyMatches(s, k);
      ScanMasks(s, k);
      assert AllPlain(keywords[1..]) by {
        forall j | 0 <= j < |keywords[1..]|
          ensures Plain(keywords[1..][j])
        {
          assert keywords[1..][j] == keywords[j + 1];
        }
      }
      CensorAllOnlyMatches(s', keywords[1..]);
      forall i | 0 <= i < |s| && r[i] != s[i]
        ensures InSomeMatch(s, keywords, i)
      {
        if s'[i] != s[i] {
          assert InMatch(s, keywords[0], i);
        } else {
          var j :| 0 <= j < |keywords[1..]| && InMatch(s', keywords[1..][j], i);
          var kj := keywords[j + 1];
          assert kj == keywords[1..][j];
          var p: nat :| p <= i < p + |kj| && MatchAt(s', kj, p);
          MaskedMatch(s', s, kj, p);
          assert InMatch(s, keywords[j + 1], i);
        }
      }
    }
  }

  /** A keyword that matches nowhere leaves the string as it is. */
  lemma {:induction false} ScanUnchanged(s: string, k: string)
    requires k != "" && forall p :: !MatchAt(s, k, p)
    ensures Scan(s, k) == s
    decreases |s|
  {
    if |s| > 0 {
      assert s == [s[0]] + s[1..];
      forall p: nat
        ensures !MatchAt(s[1..], k, p)
      {
        MatchInSuffix([s[0]], s[1..], k, p + 1);
      }
      ScanUnchanged(s[1..], k);
    }
  }

  /** The keywords replaced in turn, in the given order. */
  function CensorAll(s: string, keywords: seq<string>): (r: string)
    ensures |r| == |s|
    decreases |keywords|
  {
    if |keywords| == 0 then s else CensorAll(Sub(s, keywords[0]), keywords[1..])
  }

  lemma {:induction false} CensorAllMasks(s: string, keywords: seq<string>)
    ensures Masks(CensorAll(s, keywords), s)
    decreases |keywords|
  {
    if |keywords| > 0 {
      var s' := Sub(s, keywords[0]);
      if keywords[0] != "" {
        ScanMasks(s, keywords[0]);
      }
      CensorAllMasks(s', keywords[1..]);
      MasksTransitive(CensorAll(s, keywords), s', s);
    }
  }

  /** A keyword usable for censoring: non-empty and without `*`. */
  predicate Plain(k: string)
  {
    k != "" && '*' !in k
  }

  /** After all keywords are replaced, none of them matches anywhere. */
  lemma {:induction false} CensorAllNoMatch(s: string, keywords: seq<string>)
    requires forall i :: 0 <= i < |keywords| ==> Plain(keywords[i])
    ensures forall i, p :: 0 <= i < |keywords| ==> !MatchAt(CensorAll(s, keywords), keywords[i], p)
    decreases |keywords|
  {
    if |keywords| > 0 {
      var s' := Sub(s, keywords[0]);
      var r := CensorAll(s, keywords);
      CensorAllNoMatch(s', keywords[1..]);
      ScanNoMatch(s, keywords[0]);
      CensorAllMasks(s', keywords[1..]);
      MasksKeepNoMatch(r, s', keywords[0]);
      forall i, p | 1 <= i < |keywords|
        ensures !MatchAt(r, keywords[i], p)
      {
        assert keywords[i] == keywords[1..][i - 1];
      }
    }
  }

  /** When no keyword matches, censoring changes nothing. */
  lemma {:induction false} CensorAllUnchanged(s: string, keywords: seq<string>)
    requires forall i :: 0 <= i < |keywords| ==> keywords[i] != ""
    requires forall i, p :: 0 <= i < |keywords| ==> !MatchAt(s, keywords[i], p)
    ensures CensorAll(s, keywords) == s
    decreases |keywords|
  {
    if |keywords| > 0 {
      ScanUnchanged(s, keywords[0]);
      CensorAllUnchanged(s, keywords[1..]);
    }
  }

  // ---------------------------------------------------------------------
  // Longest keywords first
  // ---------------------------------------------------------------------

  predicate LongestFirst(ks: seq<string>)
  {
    forall p, q :: 0 <= p < q < |ks| ==> |ks[p]| >= |ks[q]|
  }

  /** Puts `x` after every keyword at least as long as it. */
  function Insert(x: string, ks: seq<string>): (r: seq<string>)
    ensures multiset(r) == multiset(ks) + multiset{x}
  {
    if |ks| == 0 then [x]
    else
      assert ks == [ks[0]] + ks[1..];
      if |ks[0]| >= |x| then [ks[0]] + Insert(x, ks[1..])
      else [x] + ks
  }

  lemma {:induction false} InsertLongestFirst(x: string, ks: seq<string>)
    requires LongestFirst(ks)
    ensures LongestFirst(Insert(x, ks))
    ensures |Insert(x, ks)| > 0 && (|Insert(x, ks)[0]| == |x| || (|ks| > 0 && Insert(x, ks)[0] == ks[0]))
  {
    if |ks| > 0 && |ks[0]| >= |x| {
      InsertLongestFirst(x, ks[1..]);
      var tail := Insert(x, ks[1..]);
      forall q | 0 < q < |tail| + 1
        ensures |ks[0]| >= |([ks[0]] + tail)[q]|
      {
        assert ([ks[0]] + tail)[q] == tail[q - 1];
        assert tail[q - 1] in multiset(tail);
      }
    }
  }

  /** `sorted(keywords, key=len, reverse=True)`: an insertion sort that puts
      each keyword after the earlier ones of the same length (Python's sort is
      stable). */
  function SortByLength(ks: seq<string>): (r: seq<string>)
    ensures multiset(r) == multiset(ks)
  {
    if |ks| == 0 then []
    else
      assert ks == ks[..|ks| - 1] + [ks[|ks| - 1]];
      Insert(ks[|ks| - 1], SortByLength(ks[..|ks| - 1]))
  }

  /** The keywords are tried longest first, and none is lost or added. */
  lemma {:induction false} SortByLengthOrdered(ks: seq<string>)
    ensures LongestFirst(SortByLength(ks))
    ensures |SortByLength(ks)| == |ks|
    ensures forall i :: 0 <= i < |ks| ==> ks[i] in SortByLength(ks)
  {
    var r := SortByLength(ks);
    assert |r| == |multiset(r)| == |multiset(ks)| == |ks|;
    if |ks| > 0 {
      SortByLengthOrdered(ks[..|ks| - 1]);
      InsertLongestFirst(ks[|ks| - 1], SortByLength(ks[..|ks| - 1]));
    }
    forall i | 0 <= i < |ks|
      ensures ks[i] in r
    {
      assert ks[i] in multiset(ks);
    }
  }

  /** What `censor_keywords` computes: an empty string is returned as is;
      otherwise the keywords are replaced longest first. */
  function Censor(s: string, keywords: seq<string>): string
  {
    if s == "" then s else CensorAll(s, SortByLength(keywords))
  }

  /** `censor_keywords(input_string, keywords)`. */
  method CensorKeywords(input: string, keywords: seq<string>) returns (output: string)
    ensures output == Censor(input, keywords)
    ensures |output| == |input|
  {
    if input == "" {
      return input;
    }
    var sorted := SortByLength(keywords);
    output := input;
    var i := 0;
    while i < |sorted|
      invariant 0 <= i <= |sorted|
      invariant CensorAll(output, sorted[i..]) == CensorAll(input, sorted)
    {
      assert sorted[i..][1..] == sorted[i + 1..];
      output := Sub(output, sorted[i]);
      i := i + 1;
    }
  }

  /** Censoring keeps the length and only turns characters into `*`, and
      afterwards no plain keyword occurs in the result in any letter case,
      so `contains_keyword` no longer finds one. */
  lemma CensorRemovesKeywords(s: string, keywords: seq<string>)
    requires forall i :: 0 <= i < |keywords| ==> Plain(keywords[i])
    ensures Masks(Censor(s, keywords), s)
    ensures forall i :: 0 <= i < |s| && Censor(s, keywords)[i] != s[i] ==> InSomeMatch(s, keywords, i)
    ensures forall i :: 0 <= i < |keywords| ==> !Contains(Lower(Censor(s, keywords)), Lower(keywords[i]))
    ensures !ContainsKeyword(Censor(s, keywords), keywords)
  {
    var sorted := SortByLength(keywords);
    var r := Censor(s, keywords);
    SortByLengthOrdered(keywords);
    if s == "" {
      assert Masks(r, s);
    } else {
      CensorAllMasks(s, sorted);
      forall i | 0 <= i < |sorted|
        ensures Plain(sorted[i])
      {
        assert sorted[i] in multiset(keywords);
      }
      CensorAllNoMatch(s, sorted);
      CensorAllOnlyMatches(s, sorted);
      forall i | 0 <= i < |s| && r[i] != s[i]
        ensures InSomeMatch(s, keywords, i)
      {
        var j :| 0 <= j < |sorted| && InMatch(s, sorted[j], i);
        assert sorted[j] in multiset(keywords);
        var m :| 0 <= m < |keywords| && keywords[m] == sorted[j];
      }
      forall i | 0 <= i < |keywords|
        ensures !Contains(Lower(r), Lower(keywords[i]))
      {
        var m :| 0 <= m < |sorted| && sorted[m] == keywords[i];
        forall p | 0 <= p <= |Lower(r)|
          ensures !OccursAt(Lower(r), Lower(keywords[i]), p)
        {
          MatchAtIsOccurrence(r, keywords[i], p);
        }
      }
    }
    ContainsKeywordIff(r, keywords);
  }

  /** Censoring twice is censoring once. */
  lemma CensorIdempotent(s: string, keywords: seq<string>)
    requires forall i :: 0 <= i < |keywords| ==> Plain(keywords[i])
    ensures Censor(Censor(s, keywords), keywords) == Censor(s, keywords)
  {
    var r := Censor(s, keywords);
    var sorted := SortByLength(keywords);
    if r != "" {
      CensorRemovesKeywords(s, keywords);
      SortByLengthOrdered(keywords);
      forall i | 0 <= i < |sorted|
        ensures Plain(sorted[i]) && forall p :: !MatchAt(r, sorted[i], p)
      {
        assert sorted[i] in multiset(keywords);
        var m :| 0 <= m < |keywords| && keywords[m] == sorted[i];
        forall p: nat | MatchAt(r, sorted[i], p)
          ensures false
        {
          MatchAtIsOccurrence(r, sorted[i], p);
        }
      }
      CensorAllUnchanged(r, sorted);
    }
  }

  /** Every keyword of the list is usable for censoring. */
  predicate AllPlain(keywords: seq<string>)
  {
    forall i :: 0 <= i < |keywords| ==> Plain(keywords[i])
  }

  lemma AllPlainAppend(a: seq<string>, b: seq<string>)
    requires AllPlain(a) && AllPlain(b)
    ensures AllPlain(a + b)
  {
    forall i | 0 <= i < |a + b|
      ensures Plain((a + b)[i])
    {
      if i >= |a| {
        assert (a + b)[i] == b[i - |a|];
      }
    }
  }

  /** The first five groups of sensitive keywords are usable for censoring. */
  lemma FirstGroupsPlain()
    ensures AllPlain(HistoryKeywords) && AllPlain(BannedKeywords) && AllPlain(SeparatistKeywords)
    ensures AllPlain(TaiwanStateKeywords) && AllPlain(RepublicKeywords)
  {
  }

  /** The last five groups of sensitive keywords are usable for censoring. */
  lemma LastGroupsPlain()
    ensures AllPlain(PeoplesRepublicKeywords) && AllPlain(HongKongKeywords) && AllPlain(AttackKeywords)
    ensures AllPlain(MediaKeywords) && AllPlain(LeaderKeywords)
  {
  }

  /** Every sensitive keyword is non-empty and free of `*`, so censoring
      author names with them removes every one of them. */
  lemma SensitiveKeywordsPlain()
    ensures AllPlain(SensitiveKeywords)
  {
    FirstGroupsPlain();
    LastGroupsPlain();
    var acc := HistoryKeywords;
    AllPlainAppend(acc, BannedKeywords);
    acc := acc + BannedKeywords;
    AllPlainAppend(acc, SeparatistKeywords);
    acc := acc + SeparatistKeywords;
    AllPlainAppend(acc, TaiwanStateKeywords);
    acc := acc + TaiwanStateKeywords;
    AllPlainAppend(acc, RepublicKeywords);
    acc := acc + RepublicKeywords;
    AllPlainAppend(acc, PeoplesRepublicKeywords);
    acc := acc + PeoplesRepublicKeywords;
    AllPlainAppend(acc, HongKongKeywords);
    acc := acc + HongKongKeywords;
    AllPlainAppend(acc, AttackKeywords);
    acc := acc + AttackKeywords;
    AllPlainAppend(acc, MediaKeywords);
    acc := acc + MediaKeywords;
    AllPlainAppend(acc, LeaderKeywords);
    acc := acc + LeaderKeywords;
  }

  // ---------------------------------------------------------------------
  // One comment
  // ---------------------------------------------------------------------

  /** Python truthiness of a parsed JSON value: empty containers are falsy. */
  predicate PyTruthy(v: Json)
  {
    match v
    case JNull => false
    case JBool(b) => b
    case JNum(n) => n != 0
    case JStr(s) => s != ""
    case JArr(items) => items != []
    case JObj(members) => members != []
  }

  /** `d.get(key)` on a parsed JSON object: the member, or `None`. */
  function PyGet(members: seq<(string, Json)>, key: string): Json
  {
    match Member(members, key)
    case Undefined => JNull
    case Defined(v) => v
  }

  /** `is_spam_comment(text, author)`: a spam keyword in the text or the
      author name, or, for non-empty text, a hit of the URL pattern (the
      regular-expression search is the parameter `urlMatch`). */
  function IsSpam(text: string, author: string, urlMatch: string -> bool): bool
  {
    ContainsKeyword(text, SpamKeywords) || ContainsKeyword(author, SpamKeywords) || (text != "" && urlMatch(text))
  }

  /** One leading `@` removed. */
  function StripAt(a: string): (r: string)
    ensures |a| > 0 && a[0] == '@' ==> a == "@" + r
    ensures !(|a| > 0 && a[0] == '@') ==> r == a
  {
    if |a| > 0 && a[0] == '@' then a[1..] else a
  }

  // ---------------------------------------------------------------------
  // Dictionary keys
  // ---------------------------------------------------------------------

  /** A Python dict key made from a parsed JSON value. `True` and `False`
      are the integers 1 and 0, so they are the same keys as those. */
  datatype Key = KNull | KNum(n: int) | KStr(s: string)

  /** The key `d[v]` uses; `None` for a list or a dict, which are unhashable
      (Python raises `TypeError`). */
  function KeyOf(v: Json): (r: Option<Key>)
    ensures r.None? <==> !Scalar(v)
  {
    match v
    case JNull => Some(KNull)
    case JBool(b) => Some(KNum(if b then 1 else 0))
    case JNum(n) => Some(KNum(n))
    case JStr(s) => Some(KStr(s))
    case _ => None
  }

  /** Distinct non-boolean scalars are distinct keys; a boolean and the
      matching integer are one key. */
  lemma KeyOfInjective(u: Json, v: Json)
    requires Scalar(u) && Scalar(v) && !u.JBool? && !v.JBool?
    ensures KeyOf(u) == KeyOf(v) <==> u == v
    ensures KeyOf(JBool(true)) == KeyOf(JNum(1)) && KeyOf(JBool(false)) == KeyOf(JNum(0))
  {
  }

  /** What `process_comment` decided. */
  datatype Status = Clean | CensoredAuthor | Spam | Sensitive

  /** The record `process_comment` builds for a kept comment; `replies` holds
      the ids of the replies attached later. */
  datatype Processed = Processed(
    id: Json, parent: Json, text: Json, likeCount: Json, author: string,
    authorId: Json, authorIsUploader: Json, timestamp: Json, datetime: Json,
    replies: seq<Key>)

  /** `comment.get('author', '')`, which must be a string for `startswith`. */
  function AuthorOf(members: seq<(string, Json)>): Result<string>
  {
    match Member(members, "author")
    case Undefined => Ok("")
    case Defined(v) => if v.JStr? then Ok(v.s) else Err("AttributeError: author has no attribute 'startswith'")
  }

  /** The readable datetime of a numeric timestamp (booleans are integers in
      Python), formatted by `fmt`; `None` otherwise. */
  function ReadableDatetime(ts: Json, fmt: int -> string): Json
  {
    match ts
    case JNum(n) => JStr(fmt(n))
    case JBool(b) => JStr(fmt(if b then 1 else 0))
    case _ => JNull
  }

  /** `process_comment(comment)`: `(record, status)`, or `(None, status)` for
      a rejected comment; `Err` where Python raises (a comment that is not an
      object, an author that is not a string, a truthy text that is not a
      string). */
  function ProcessComment(c: Json, urlMatch: string -> bool, fmt: int -> string): (r: Result<(Option<Processed>, Status)>)
    ensures r.Ok? ==> (r.value.0.None? <==> r.value.1 == Spam || r.value.1 == Sensitive)
  {
    if !c.JObj? then Err("AttributeError: comment has no attribute 'get'")
    else
      var text := PyGet(c.members, "text");
      match AuthorOf(c.members)
      case Err(m) => Err(m)
      case Ok(a) =>
        var author := StripAt(a);
        if PyTruthy(text) && !text.JStr? then Err("AttributeError: text has no attribute 'lower'")
        else
          var t := if text.JStr? then text.s else "";
          if IsSpam(t, author, urlMatch) then Ok((None, Spam))
          else if ContainsKeyword(t, SensitiveKeywords) then Ok((None, Sensitive))
          else
            var censored := Censor(author, SensitiveKeywords);
            var ts := PyGet(c.members, "timestamp");
            var record := Processed(
              PyGet(c.members, "id"), PyGet(c.members, "parent"), text, PyGet(c.members, "like_count"),
              censored, PyGet(c.members, "author_id"), PyGet(c.members, "author_is_uploader"),
              ts, ReadableDatetime(ts, fmt), []);
            Ok((Some(record), if censored != author then CensoredAuthor else Clean))
  }

  /** The decisions of `process_comment`, in their order: spam (in the text,
      the author or a URL) rejects first; then a sensitive keyword in the text
      rejects; otherwise the comment is kept with its author censored (never
      rejected for it), its status saying whether censoring changed the
      author, and no replies yet. */
  lemma ProcessCommentDecision(c: Json, urlMatch: string -> bool, fmt: int -> string)
    requires c.JObj? && AuthorOf(c.members).Ok?
    requires var text := PyGet(c.members, "text"); text.JStr? || !PyTruthy(text)
    ensures var r := ProcessComment(c, urlMatch, fmt);
      var text := PyGet(c.members, "text");
      var t := if text.JStr? then text.s else "";
      var author := StripAt(AuthorOf(c.members).value);
      && r.Ok?
      && (IsSpam(t, author, urlMatch) ==> r.value == (None, Spam))
      && (!IsSpam(t, author, urlMatch) && ContainsKeyword(t, SensitiveKeywords) ==> r.value == (None, Sensitive))
      && (!IsSpam(t, author, urlMatch) && !ContainsKeyword(t, SensitiveKeywords) ==>
            && r.value.0.Some?
            && r.value.0.value.author == Censor(author, SensitiveKeywords)
            && r.value.0.value.text == text
            && r.value.0.value.id == PyGet(c.members, "id")
            && r.value.0.value.parent == PyGet(c.members, "parent")
            && r.value.0.value.replies == []
            && (r.value.1 == CensoredAuthor <==> Censor(author, SensitiveKeywords) != author)
            && (r.value.1 == Clean <==> Censor(author, SensitiveKeywords) == author))
  {
  }

  /** `process_comment` raises exactly when the comment is not a dict, its
      author is present but not a string, or its text is truthy but not a
      string. */
  lemma ProcessCommentErrors(c: Json, urlMatch: string -> bool, fmt: int -> string)
    ensures ProcessComment(c, urlMatch, fmt).Err?
        <==> !c.JObj? || AuthorOf(c.members).Err?
             || (PyTruthy(PyGet(c.members, "text")) && !PyGet(c.members, "text").JStr?)
  {
  }

  /** A censored author name holds no sensitive keyword in any letter case,
      so the author of every kept comment is clean. */
  lemma CensoredAuthorClean(author: string)
    ensures !ContainsKeyword(Censor(author, SensitiveKeywords), SensitiveKeywords)
  {
    SensitiveKeywordsPlain();
    CensorRemovesKeywords(author, SensitiveKeywords);
  }

  /** A kept comment's author holds no sensitive keyword in any letter case. */
  lemma KeptAuthorClean(c: Json, urlMatch: string -> bool, fmt: int -> string)
    requires ProcessComment(c, urlMatch, fmt).Ok? && ProcessComment(c, urlMatch, fmt).value.0.Some?
    ensures !ContainsKeyword(ProcessComment(c, urlMatch, fmt).value.0.value.author, SensitiveKeywords)
  {
    ProcessCommentErrors(c, urlMatch, fmt);
    ProcessCommentDecision(c, urlMatch, fmt);
    CensoredAuthorClean(StripAt(AuthorOf(c.members).value));
  }

  /** A kept comment carries no sensitive keyword in its text or its author,
      and starts without replies. */
  lemma KeptClean(c: Json, urlMatch: string -> bool, fmt: int -> string)
    requires ProcessComment(c, urlMatch, fmt).Ok? && ProcessComment(c, urlMatch, fmt).value.0.Some?
    ensures var rec := ProcessComment(c, urlMatch, fmt).value.0.value;
      && !ContainsKeyword(rec.author, SensitiveKeywords)
      && !(rec.text.JStr? && ContainsKeyword(rec.text.s, SensitiveKeywords))
      && rec.replies == []
  {
    ProcessCommentErrors(c, urlMatch, fmt);
    ProcessCommentDecision(c, urlMatch, fmt);
    KeptAuthorClean(c, urlMatch, fmt);
  }
}
