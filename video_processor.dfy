/** `VideoProcessor.generateTimestamps`: the times (in seconds) at which
    screenshots of a video are taken, either evenly spaced or drawn at random
    and sorted. The random draws are a parameter. */
module VideoProcessor {

  /** The `i`-th (from 1) of `count` evenly spaced times in a clip of length
      `duration`: `i * duration / (count + 1)`. */
  function UniformAt(i: nat, count: nat, duration: real): real
  {
    i as real * (duration / (count + 1) as real)
  }

  /** The timestamps uniform mode promises: `count` of them (none when `count`
      is not positive), the `i`-th being `UniformAt(i + 1)`. */
  function Uniform(count: int, duration: real): (r: seq<real>)
    ensures count <= 0 ==> r == []
    ensures count > 0 ==> |r| == count
  {
    if count <= 0 then [] else seq(count, i requires 0 <= i < count => UniformAt(i + 1, count, duration))
  }

  /** The random draws scaled to the clip: `r * duration` for each of the
      first `count` draws. */
  function Scaled(randoms: seq<real>, count: int, duration: real): (r: seq<real>)
    requires count <= |randoms|
    ensures count <= 0 ==> r == []
    ensures count > 0 ==> |r| == count
  {
    if count <= 0 then [] else seq(count, i requires 0 <= i < count => randoms[i] * duration)
  }

  predicate Sorted(s: seq<real>)
  {
    forall p, q :: 0 <= p < q < |s| ==> s[p] <= s[q]
  }

  /** `VideoProcessor.generateTimestamps(mode, count, duration)`. Any mode
      other than `"uniform"` is random mode, which consumes one draw of
      `Math.random()` from `randoms` per timestamp. */
  method GenerateTimestamps(mode: string, count: int, duration: real, randoms: seq<real>) returns (timestamps: seq<real>)
    requires mode != "uniform" ==> count <= |randoms|
    ensures mode == "uniform" ==> timestamps == Uniform(count, duration)
    ensures mode != "uniform" ==> Sorted(timestamps) && multiset(timestamps) == multiset(Scaled(randoms, count, duration))
  {
    timestamps := [];
    if mode == "uniform" {
      // For a negative count the interval is never used.
      var interval := if count >= 0 then duration / (count + 1) as real else 0.0;
      var i := 1;
      while i <= count
        invariant 1 <= i && (count >= 0 ==> i <= count + 1) && (count < 0 ==> i == 1)
        invariant count >= 0 ==> interval == duration / (count + 1) as real
        invariant |timestamps| == i - 1
        invariant count >= 0 ==> forall k :: 0 <= k < |timestamps| ==> timestamps[k] == UniformAt(k + 1, count, duration)
      {
        timestamps := timestamps + [interval * i as real];
        i := i + 1;
      }
      assert count > 0 ==> i == count + 1;
      assert |timestamps| == |Uniform(count, duration)|;
    } else {
      var i := 0;
      while i < count
        invariant 0 <= i <= |randoms| && (count >= 0 ==> i <= count) && (count < 0 ==> i == 0)
        invariant |timestamps| == i
        invariant forall k :: 0 <= k < i ==> timestamps[k] == randoms[k] * duration
      {
        timestamps := timestamps + [randoms[i] * duration];
        i := i + 1;
      }
      assert count > 0 ==> i == count;
      assert |timestamps| == |Scaled(randoms, count, duration)|;
      assert forall k :: 0 <= k < |timestamps| ==> timestamps[k] == Scaled(randoms, count, duration)[k];
      assert timestamps == Scaled(randoms, count, duration);
      var buffer := new real[|timestamps|](k requires 0 <= k < |timestamps| => timestamps[k]);
      assert buffer[..] == timestamps;
      ghost var drawn := timestamps;
      SortAscending(buffer);
      timestamps := buffer[..];
      assert multiset(timestamps) == multiset(drawn);
    }
  }

  /** `timestamps.sort((a, b) => a - b)`: sorts the array ascending in place,
      keeping its elements. */
  method SortAscending(a: array<real>)
    modifies a
    ensures Sorted(a[..])
    ensures multiset(a[..]) == multiset(old(a[..]))
  {
    var i := 0;
    while i < a.Length
      invariant 0 <= i <= a.Length
      invariant forall p, q :: 0 <= p < q < i ==> a[p] <= a[q]
      invariant multiset(a[..]) == multiset(old(a[..]))
    {
      var j := i;
      while j > 0 && a[j - 1] > a[j]
        invariant 0 <= j <= i
        invariant forall p, q :: 0 <= p < q <= i && p != j && q != j ==> a[p] <= a[q]
        invariant forall q :: j < q <= i ==> a[j] < a[q]
        invariant multiset(a[..]) == multiset(old(a[..]))
      {
        a[j - 1], a[j] := a[j], a[j - 1];
        j := j - 1;
      }
      i := i + 1;
    }
  }

  /** Evenly spaced timestamps in a clip of positive length are strictly
      increasing and lie strictly between its start and its end. */
  lemma UniformIncreasing(count: int, duration: real)
    requires duration > 0.0
    ensures var ts := Uniform(count, duration);
      && (forall p, q :: 0 <= p < q < |ts| ==> ts[p] < ts[q])
      && (forall k :: 0 <= k < |ts| ==> 0.0 < ts[k] < duration)
  {
    if count > 0 {
      var ts := Uniform(count, duration);
      var interval := duration / (count + 1) as real;
      assert interval > 0.0;
      assert interval * (count + 1) as real == duration;
      forall k | 0 <= k < |ts|
        ensures 0.0 < ts[k] < duration
      {
        StepBelow(interval, k + 1, count + 1);
      }
      forall p, q | 0 <= p < q < |ts|
        ensures ts[p] < ts[q]
      {
        StepBelow(interval, p + 1, q + 1);
      }
    }
  }

  lemma StepBelow(interval: real, i: nat, n: nat)
    requires interval > 0.0 && 0 < i < n
    ensures 0.0 < i as real * interval < n as real * interval
  {
    assert n as real * interval == i as real * interval + (n - i) as real * interval;
  }

  /** When every draw lies in [0, 1), every random timestamp lies in
      [0, duration) for a clip of positive length. */
  lemma RandomInClip(ts: seq<real>, randoms: seq<real>, count: int, duration: real)
    requires count <= |randoms| && duration > 0.0
    requires forall k :: 0 <= k < |randoms| ==> 0.0 <= randoms[k] < 1.0
    requires multiset(ts) == multiset(Scaled(randoms, count, duration))
    ensures forall k :: 0 <= k < |ts| ==> 0.0 <= ts[k] < duration
  {
    var scaled := Scaled(randoms, count, duration);
    forall k | 0 <= k < |ts|
      ensures 0.0 <= ts[k] < duration
    {
      assert ts[k] in multiset(ts);
      assert ts[k] in scaled;
      var m :| 0 <= m < |scaled| && scaled[m] == ts[k];
      assert scaled[m] == randoms[m] * duration;
      assert randoms[m] * duration < 1.0 * duration;
    }
  }

  /** There is one sorted arrangement of a multiset of draws: the result of
      random mode is determined by the draws. */
  lemma {:induction false} SortedUnique(a: seq<real>, b: seq<real>)
    requires Sorted(a) && Sorted(b) && multiset(a) == multiset(b)
    ensures a == b
    decreases |a|
  {
    assert |a| == |multiset(a)| == |multiset(b)| == |b|;
    if |a| > 0 {
      SortedHeadIsLeast(a, b[0]);
      SortedHeadIsLeast(b, a[0]);
      MultisetTail(a, b);
      SortedTail(a);
      SortedTail(b);
      SortedUnique(a[1..], b[1..]);
      assert a == [a[0]] + a[1..] && b == [b[0]] + b[1..];
    }
  }

  lemma SortedHeadIsLeast(a: seq<real>, x: real)
    requires Sorted(a) && x in multiset(a)
    ensures |a| > 0 && a[0] <= x
  {
    var p :| 0 <= p < |a| && a[p] == x;
  }

  lemma MultisetTail<T>(a: seq<T>, b: seq<T>)
    requires |a| > 0 && |b| > 0 && a[0] == b[0] && multiset(a) == multiset(b)
    ensures multiset(a[1..]) == multiset(b[1..])
  {
    assert a == [a[0]] + a[1..] && b == [b[0]] + b[1..];
    assert multiset(a[1..]) == multiset(a) - multiset{a[0]};
    assert multiset(b[1..]) == multiset(b) - multiset{b[0]};
  }

  lemma SortedTail(a: seq<real>)
    requires Sorted(a) && |a| > 0
    ensures Sorted(a[1..])
  {
    forall p, q | 0 <= p < q < |a[1..]|
      ensures a[1..][p] <= a[1..][q]
    {
      assert a[1..][p] == a[p + 1] && a[1..][q] == a[q + 1];
    }
  }
}
