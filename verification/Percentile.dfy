/** The noise threshold of the spectral denoiser: a percentile by partial selection. */
module Percentile {
  function CountLess(s: seq<real>, v: real): nat {
    if s == [] then 0 else (if s[0] < v then 1 else 0) + CountLess(s[1..], v)
  }

  function CountAtMost(s: seq<real>, v: real): nat {
    if s == [] then 0 else (if s[0] <= v then 1 else 0) + CountAtMost(s[1..], v)
  }

  /** v is the k-th smallest element of s, counting from 0. */
  predicate IsRank(s: seq<real>, k: nat, v: real) {
    CountLess(s, v) <= k < CountAtMost(s, v)
  }

  lemma {:induction false} CountSplit(s: seq<real>, t: seq<real>, v: real)
    ensures CountLess(s + t, v) == CountLess(s, v) + CountLess(t, v)
    ensures CountAtMost(s + t, v) == CountAtMost(s, v) + CountAtMost(t, v)
  {
    if s == [] {
      assert s + t == t;
    } else {
      CountSplit(s[1..], t, v);
      assert (s + t)[1..] == s[1..] + t;
    }
  }

  lemma CountWithout(t: seq<real>, j: nat, v: real)
    requires j < |t|
    ensures CountLess(t, v) == (if t[j] < v then 1 else 0) + CountLess(t[..j] + t[j + 1..], v)
    ensures CountAtMost(t, v) == (if t[j] <= v then 1 else 0) + CountAtMost(t[..j] + t[j + 1..], v)
  {
    assert t == t[..j] + t[j..] && t[j..][1..] == t[j + 1..];
    CountSplit(t[..j], t[j..], v);
    CountSplit(t[..j], t[j + 1..], v);
  }

  lemma MultisetWithout(t: seq<real>, j: nat)
    requires j < |t|
    ensures multiset(t[..j] + t[j + 1..]) == multiset(t) - multiset{t[j]}
  {
    assert t == t[..j] + [t[j]] + t[j + 1..];
  }

  /** Counts do not depend on the order. */
  lemma {:induction false} CountPermuted(s: seq<real>, t: seq<real>, v: real)
    requires multiset(s) == multiset(t)
    ensures CountLess(s, v) == CountLess(t, v) && CountAtMost(s, v) == CountAtMost(t, v)
    decreases |s|
  {
    if s == [] {
      assert |t| == |multiset(t)| == 0;
    } else {
      var rest := PermutedRest(s, t);
      CountPermuted(s[1..], rest, v);
      CountRest(s[0], t, rest, v);
    }
  }

  /** The first element of s taken out of t. */
  lemma PermutedRest(s: seq<real>, t: seq<real>) returns (rest: seq<real>)
    requires s != [] && multiset(s) == multiset(t)
    ensures multiset(rest) == multiset(s[1..])
    ensures exists j :: 0 <= j < |t| && t[j] == s[0] && rest == t[..j] + t[j + 1..]
  {
    assert s[0] in multiset(t);
    var j :| 0 <= j < |t| && t[j] == s[0];
    rest := t[..j] + t[j + 1..];
    MultisetWithout(t, j);
    MultisetWithout(s, 0);
    assert s[..0] + s[1..] == s[1..];
  }

  lemma CountRest(x: real, t: seq<real>, rest: seq<real>, v: real)
    requires exists j :: 0 <= j < |t| && t[j] == x && rest == t[..j] + t[j + 1..]
    ensures CountLess(t, v) == (if x < v then 1 else 0) + CountLess(rest, v)
    ensures CountAtMost(t, v) == (if x <= v then 1 else 0) + CountAtMost(rest, v)
  {
    var j :| 0 <= j < |t| && t[j] == x && rest == t[..j] + t[j + 1..];
    CountWithout(t, j, v);
  }

  lemma {:induction false} CountMonotone(s: seq<real>, v: real, w: real)
    requires v < w
    ensures CountAtMost(s, v) <= CountLess(s, w)
  {
    if s != [] { CountMonotone(s[1..], v, w); }
  }

  /** There is only one k-th smallest value. */
  lemma RankUnique(s: seq<real>, k: nat, v: real, w: real)
    requires IsRank(s, k, v) && IsRank(s, k, w)
    ensures v == w
  {
    if v < w { CountMonotone(s, v, w); }
    if w < v { CountMonotone(s, w, v); }
  }

  lemma {:induction false} AllAtMost(s: seq<real>, v: real)
    requires forall i :: 0 <= i < |s| ==> s[i] <= v
    ensures CountAtMost(s, v) == |s|
  {
    if s != [] { AllAtMost(s[1..], v); }
  }

  lemma {:induction false} NoneLess(s: seq<real>, v: real)
    requires forall i :: 0 <= i < |s| ==> v <= s[i]
    ensures CountLess(s, v) == 0
  {
    if s != [] { NoneLess(s[1..], v); }
  }

  lemma {:induction false} CountLessBound(s: seq<real>, v: real)
    ensures CountLess(s, v) <= |s|
  {
    if s != [] { CountLessBound(s[1..], v); }
  }

  /** An element with nothing larger before it and nothing smaller after it has the rank
      of its position. */
  lemma RankOfPivot(s: seq<real>, k: nat)
    requires k < |s|
    requires forall i :: 0 <= i < k ==> s[i] <= s[k]
    requires forall i :: k <= i < |s| ==> s[k] <= s[i]
    ensures IsRank(s, k, s[k])
  {
    assert s == s[..k] + s[k..] && s == s[..k + 1] + s[k + 1..];
    CountSplit(s[..k], s[k..], s[k]);
    CountSplit(s[..k + 1], s[k + 1..], s[k]);
    CountLessBound(s[..k], s[k]);
    NoneLess(s[k..], s[k]);
    AllAtMost(s[..k + 1], s[k]);
  }

  /** The rank a percentage asks for, clamped to the last element. */
  function RankOf(n: nat, pct: nat): (k: nat)
    requires n > 0
    ensures k < n
  {
    if n * pct / 100 >= n then n - 1 else n * pct / 100
  }

  /** What the pct-th percentile means: no more than pct percent of the elements are
      smaller, and more than that, or all, are not greater. */
  lemma PercentileIff(s: seq<real>, pct: nat, v: real)
    requires s != []
    ensures IsRank(s, RankOf(|s|, pct), v) <==>
      && 100 * CountLess(s, v) <= |s| * pct && CountLess(s, v) < |s|
      && (100 * CountAtMost(s, v) > |s| * pct || CountAtMost(s, v) == |s|)
  {
    CountAtMostBound(s, v);
    ShareIff(|s|, |s| * pct, CountLess(s, v), CountAtMost(s, v));
  }

  lemma ShareIff(n: nat, share: nat, less: nat, atMost: nat)
    requires 0 < n && atMost <= n
    ensures var k := if share / 100 >= n then n - 1 else share / 100;
      less <= k < atMost <==> 100 * less <= share && less < n && (100 * atMost > share || atMost == n)
  {
  }

  lemma {:induction false} CountAtMostBound(s: seq<real>, v: real)
    ensures CountAtMost(s, v) <= |s|
  {
    if s != [] { CountAtMostBound(s[1..], v); }
  }

  /** Index of the smallest element of a[i..]. */
  method SmallestFrom(a: array<real>, i: nat) returns (minIdx: nat)
    requires i < a.Length
    ensures i <= minIdx < a.Length
    ensures forall j :: i <= j < a.Length ==> a[minIdx] <= a[j]
  {
    minIdx := i;
    for j := i + 1 to a.Length
      invariant i <= minIdx < a.Length
      invariant forall k :: i <= k < j ==> a[minIdx] <= a[k]
    {
      if a[j] < a[minIdx] {
        minIdx := j;
      }
    }
  }

  /** The first i elements are in order, and nothing behind them is smaller. */
  ghost predicate Settled(s: seq<real>, i: nat) {
    forall a, b :: 0 <= a < i && a <= b < |s| ==> s[a] <= s[b]
  }

  /** One round of selection: the smallest of the rest is swapped to position i. */
  method SelectNext(a: array<real>, i: nat)
    requires i < a.Length && Settled(a[..], i)
    modifies a
    ensures Settled(a[..], i + 1) && multiset(a[..]) == multiset(old(a[..]))
  {
    var minIdx := SmallestFrom(a, i);
    a[i], a[minIdx] := a[minIdx], a[i];
  }

  /** Selection sort of a copy, as far as the wanted rank. */
  method Percentile(data: seq<real>, pct: nat) returns (v: real)
    requires data != []
    ensures IsRank(data, RankOf(|data|, pct), v)
  {
    var sorted := new real[|data|](i requires 0 <= i < |data| => data[i]);
    var n := sorted.Length;
    assert sorted[..] == data;
    var idx := n * pct / 100;
    if idx >= n {
      idx := n - 1;
    }
    assert idx == RankOf(n, pct);
    for i := 0 to idx + 1
      invariant multiset(sorted[..]) == multiset(data) && Settled(sorted[..], i)
    {
      SelectNext(sorted, i);
    }
    v := sorted[idx];
    RankOfPivot(sorted[..], idx);
    CountPermuted(sorted[..], data, v);
  }

  /** The denoiser averages the frames at or below the 20th percentile: there are always
      at least rank + 1 of them, so it never divides by zero. */
  method NoiseFrames(energies: seq<real>) returns (threshold: real, noiseCount: nat)
    requires energies != []
    ensures IsRank(energies, RankOf(|energies|, 20), threshold)
    ensures noiseCount == CountAtMost(energies, threshold) && noiseCount >= RankOf(|energies|, 20) + 1
  {
    threshold := Percentile(energies, 20);
    noiseCount := 0;
    for i := 0 to |energies|
      invariant noiseCount + CountAtMost(energies[i..], threshold) == CountAtMost(energies, threshold)
    {
      assert energies[i..][1..] == energies[i + 1..];
      if energies[i] <= threshold {
        noiseCount := noiseCount + 1;
      }
    }
  }
}
