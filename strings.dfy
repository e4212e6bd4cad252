/** Small string and sequence helpers shared by the modules of the model:
    concatenation of a sequence of pieces, substring search, and the
    decimal rendering and reading of numbers that JavaScript's template
    literals, `String(i)`, `padStart` and `Number(s)` perform. */
module Strings {

  /** Concatenation of all pieces, in order (JavaScript `join('')`). */
  function Concat<T>(pieces: seq<seq<T>>): (r: seq<T>)
    ensures |pieces| == 0 ==> r == []
  {
    if |pieces| == 0 then [] else pieces[0] + Concat(pieces[1..])
  }

  lemma {:induction false} ConcatAppend<T>(pieces: seq<seq<T>>, last: seq<T>)
    ensures Concat(pieces + [last]) == Concat(pieces) + last
  {
    if |pieces| == 0 {
      assert pieces + [last] == [last];
    } else {
      assert (pieces + [last])[1..] == pieces[1..] + [last];
      ConcatAppend(pieces[1..], last);
    }
  }

  lemma {:induction false} ConcatSplit<T>(a: seq<seq<T>>, b: seq<seq<T>>)
    ensures Concat(a + b) == Concat(a) + Concat(b)
  {
    if |a| == 0 {
      assert a + b == b;
    } else {
      assert (a + b)[1..] == a[1..] + b;
      ConcatSplit(a[1..], b);
    }
  }

  lemma AppendAssoc<T>(a: seq<T>, b: seq<T>, c: seq<T>)
    ensures (a + b) + c == a + (b + c)
  {
  }

  /** `p` occurs in `s` starting at index `i`. */
  predicate OccursAt<T(==)>(s: seq<T>, p: seq<T>, i: nat)
  {
    i + |p| <= |s| && s[i..i + |p|] == p
  }

  /** JavaScript `s.includes(p)`, Python `p in s`. */
  predicate Contains<T(==)>(s: seq<T>, p: seq<T>)
  {
    exists i :: 0 <= i <= |s| && OccursAt(s, p, i)
  }

  /** A sequence that does not hold the first element of `p` does not contain `p`. */
  lemma NotContainsByFirst<T>(s: seq<T>, p: seq<T>)
    requires |p| > 0 && p[0] !in s
    ensures !Contains(s, p)
  {
    forall i | 0 <= i <= |s|
      ensures !OccursAt(s, p, i)
    {
      if i + |p| <= |s| {
      assert s[i] in s;
        assert s[i..i + |p|][0] == s[i];
      }
    }
  }

  /** `n` copies of `c`. */
  function Repeat<T>(c: T, n: nat): (r: seq<T>)
    ensures |r| == n && forall i :: 0 <= i < n ==> r[i] == c
  {
    if n == 0 then [] else [c] + Repeat(c, n - 1)
  }

  predicate IsDigit(c: char) { '0' <= c <= '9' }

  predicate AllDigits(s: string) { forall i :: 0 <= i < |s| ==> IsDigit(s[i]) }

  function DigitChar(d: nat): (c: char)
    requires d < 10
    ensures IsDigit(c)
  {
    "0123456789"[d]
  }

  function DigitValue(c: char): nat
    requires IsDigit(c)
  {
    (c as int - '0' as int) as nat
  }

  /** Decimal rendering of a natural number, no leading zeros (`String(n)`). */
  function NatToString(n: nat): (r: string)
    decreases n
  {
    if n < 10 then [DigitChar(n)] else NatToString(n / 10) + [DigitChar(n % 10)]
  }

  /** Decimal rendering of an integer, with a leading `-` when negative. */
  function IntToString(i: int): string
  {
    if i < 0 then "-" + NatToString(-i) else NatToString(i)
  }

  /** The value of a string of decimal digits (leading zeros allowed). */
  function DigitsValue(s: string): nat
    requires AllDigits(s)
  {
    if |s| == 0 then 0 else DigitsValue(s[..|s| - 1]) * 10 + DigitValue(s[|s| - 1])
  }

  /** `NatToString` yields a non-empty digit string that reads back as `n`. */
  lemma {:induction false} NatToStringRoundTrip(n: nat)
    ensures |NatToString(n)| >= 1 && AllDigits(NatToString(n))
    ensures DigitsValue(NatToString(n)) == n
    decreases n
  {
    var s := NatToString(n);
    if n < 10 {
      assert DigitValue(DigitChar(n)) == n;
      assert s[..|s| - 1] == [];
    } else {
      NatToStringRoundTrip(n / 10);
      var p := NatToString(n / 10);
      assert s == p + [DigitChar(n % 10)];
      assert s[..|s| - 1] == p;
      assert DigitValue(DigitChar(n % 10)) == n % 10;
    }
  }

  /** Leading zeros do not change the value of a digit string. */
  lemma {:induction false} LeadingZerosValue(k: nat, s: string)
    requires AllDigits(s)
    ensures AllDigits(Repeat('0', k) + s)
    ensures DigitsValue(Repeat('0', k) + s) == DigitsValue(s)
    decreases |s|
  {
    var t := Repeat('0', k) + s;
    if |s| == 0 {
      assert t == Repeat('0', k);
      ZerosValue(k);
    } else {
      LeadingZerosValue(k, s[..|s| - 1]);
      assert t[..|t| - 1] == Repeat('0', k) + s[..|s| - 1];
    }
  }

  lemma {:induction false} ZerosValue(k: nat)
    ensures AllDigits(Repeat('0', k)) && DigitsValue(Repeat('0', k)) == 0
  {
    if k > 0 {
      ZerosValue(k - 1);
      var z := Repeat('0', k);
      assert z[..k - 1] == Repeat('0', k - 1);
    }
  }

  /** JavaScript `s.padStart(width, c)`: prefixes copies of `c` up to `width`. */
  function PadStart(s: string, width: nat, c: char): (r: string)
    ensures |s| >= width ==> r == s
    ensures |s| < width ==> |r| == width && r[width - |s|..] == s
  {
    if |s| >= width then s else Repeat(c, width - |s|) + s
  }

  /** JavaScript `s.split(sep)` for a one-character separator: the pieces
      between separators, in order, always at least one. */
  function Split(s: string, sep: char): (r: seq<string>)
    ensures |r| >= 1
    decreases |s|
  {
    if |s| == 0 then [""]
    else
      var init := Split(s[..|s| - 1], sep);
      if s[|s| - 1] == sep then init + [""]
      else init[..|init| - 1] + [init[|init| - 1] + [s[|s| - 1]]]
  }

  /** `pieces.join(sep)`. */
  function Join(pieces: seq<string>, sep: char): string
    requires |pieces| >= 1
    decreases |pieces|
  {
    if |pieces| == 1 then pieces[0]
    else Join(pieces[..|pieces| - 1], sep) + [sep] + pieces[|pieces| - 1]
  }

  /** Joining the pieces with the separator gives the string back, and no
      piece holds the separator. */
  lemma {:induction false} SplitJoin(s: string, sep: char)
    ensures Join(Split(s, sep), sep) == s
    ensures forall i :: 0 <= i < |Split(s, sep)| ==> sep !in Split(s, sep)[i]
    decreases |s|
  {
    if s != [] {
      var t, c := s[..|s| - 1], s[|s| - 1];
      var init := Split(t, sep);
      SplitJoin(t, sep);
      assert s == t + [c];
      if c == sep {
        assert Split(s, sep) == init + [""];
        JoinAppendEmpty(init, sep);
      } else {
        var r := Split(s, sep);
        assert r == init[..|init| - 1] + [init[|init| - 1] + [c]];
        JoinExtendLast(init, c, sep);
        forall i | 0 <= i < |r|
          ensures sep !in r[i]
        {
          if i < |r| - 1 {
            assert r[i] == init[i];
          }
        }
      }
    }
  }

  /** Joining one more empty piece appends the separator. */
  lemma JoinAppendEmpty(pieces: seq<string>, sep: char)
    requires |pieces| >= 1
    ensures Join(pieces + [""], sep) == Join(pieces, sep) + [sep]
  {
    var r := pieces + [""];
    assert r[..|r| - 1] == pieces;
  }

  /** Extending the last piece by a character extends the joined string. */
  lemma JoinExtendLast(pieces: seq<string>, c: char, sep: char)
    requires |pieces| >= 1
    ensures Join(pieces[..|pieces| - 1] + [pieces[|pieces| - 1] + [c]], sep) == Join(pieces, sep) + [c]
  {
    var front := pieces[..|pieces| - 1];
    var r := front + [pieces[|pieces| - 1] + [c]];
    assert r[..|r| - 1] == front;
    if |pieces| > 1 {
      assert front[..|front| - 1] == pieces[..|pieces| - 2];
      AppendAssoc(Join(front, sep) + [sep], pieces[|pieces| - 1], [c]);
    }
  }

  /** Appending one character other than the separator extends the last
      piece. */
  lemma SplitAppendChar(s: string, c: char, sep: char)
    requires c != sep
    ensures var init := Split(s, sep);
      Split(s + [c], sep) == init[..|init| - 1] + [init[|init| - 1] + [c]]
  {
    assert (s + [c])[..|s + [c]| - 1] == s;
  }

  /** Appending text without the separator extends the last piece. */
  lemma {:induction false} SplitAppendPlain(s: string, a: string, sep: char)
    requires sep !in a
    ensures var init := Split(s, sep);
      Split(s + a, sep) == init[..|init| - 1] + [init[|init| - 1] + a]
    decreases |a|
  {
    if a == [] {
      assert s + a == s;
      LastPieceWhole(Split(s, sep));
    } else {
      var a' := a[..|a| - 1];
      var c := a[|a| - 1];
      assert a == a' + [c];
      assert sep !in a' && c != sep by {
        assert c in a;
        assert forall x :: x in a' ==> x in a;
      }
      SplitAppendPlain(s, a', sep);
      SplitAppendStep(s, a', c, sep);
    }
  }

  lemma LastPieceWhole(pieces: seq<string>)
    requires |pieces| >= 1
    ensures pieces[..|pieces| - 1] + [pieces[|pieces| - 1] + []] == pieces
  {
    assert pieces[|pieces| - 1] + [] == pieces[|pieces| - 1];
  }

  lemma SplitAppendStep(s: string, a: string, c: char, sep: char)
    requires c != sep
    requires var init := Split(s, sep);
      Split(s + a, sep) == init[..|init| - 1] + [init[|init| - 1] + a]
    ensures var init := Split(s, sep);
      Split(s + (a + [c]), sep) == init[..|init| - 1] + [init[|init| - 1] + (a + [c])]
  {
    SplitAppendChar(s + a, c, sep);
    assert s + (a + [c]) == (s + a) + [c];
    LastPieceExtend(Split(s, sep), Split(s + a, sep), a, c);
  }

  lemma LastPieceExtend(init: seq<string>, mid: seq<string>, a: string, c: char)
    requires |init| >= 1 && mid == init[..|init| - 1] + [init[|init| - 1] + a]
    ensures mid[..|mid| - 1] + [mid[|mid| - 1] + [c]] == init[..|init| - 1] + [init[|init| - 1] + (a + [c])]
  {
    assert mid[..|mid| - 1] == init[..|init| - 1];
    assert (init[|init| - 1] + a) + [c] == init[|init| - 1] + (a + [c]);
  }

  /** Ending a string that splits into `lines` and a last empty piece with
      `a` and a separator adds `a` as a line. */
  lemma SplitAddLine(s: string, lines: seq<string>, a: string, sep: char)
    requires Split(s, sep) == lines + [""] && sep !in a
    ensures Split(s + a + [sep], sep) == lines + [a] + [""]
  {
    SplitAppendPlain(s, a, sep);
    var init := Split(s, sep);
    assert init[..|init| - 1] == lines && init[|init| - 1] + a == a;
    SplitAppendSep(s + a, sep);
  }

  /** A string without the separator is one piece. */
  lemma SplitPlain(a: string, sep: char)
    requires sep !in a
    ensures Split(a, sep) == [a]
  {
    assert Split([], sep) == [""];
    SplitAppendPlain([], a, sep);
    assert [] + a == a;
  }

  /** Two separator-free strings joined by the separator split back into
      the two. */
  lemma SplitPair(a: string, b: string, sep: char)
    requires sep !in a && sep !in b
    ensures Split(a + [sep] + b, sep) == [a, b]
  {
    SplitPlain(a, sep);
    SplitAppendSep(a, sep);
    assert Split(a + [sep], sep) == [a, ""];
    SplitAppendPlain(a + [sep], b, sep);
    assert "" + b == b;
    assert [a, ""][..1] == [a];
  }

  /** Appending a separator starts a new, empty piece. */
  lemma SplitAppendSep(s: string, sep: char)
    ensures Split(s + [sep], sep) == Split(s, sep) + [""]
  {
    assert (s + [sep])[..|s + [sep]| - 1] == s;
  }
}
