/** Recall and precision of voice hashes: the number of sample pairs with a property,
    counted pair by pair and counted by groups. */
module PairCounts {
  import opened Common

  datatype Sample = Sample(speaker: string, hash: string)

  /** Hashes are long enough for the prefix lengths in use. */
  predicate LongEnough(samples: seq<Sample>, nc: nat) {
    forall s :: s in samples ==> nc <= |s.hash|
  }

  /** What two samples may have in common. */
  datatype Relation = SameSpeaker | SamePrefix | SameBoth

  function Prefix(s: Sample, nc: nat): string { s.hash[..Min(nc, |s.hash|)] }

  predicate Related(r: Relation, nc: nat, a: Sample, b: Sample) {
    match r
    case SameSpeaker => a.speaker == b.speaker
    case SamePrefix => Prefix(a, nc) == Prefix(b, nc)
    case SameBoth => a.speaker == b.speaker && Prefix(a, nc) == Prefix(b, nc)
  }

  /** How many of s are related to x. */
  function Partners(r: Relation, nc: nat, s: seq<Sample>, x: Sample): nat {
    if s == [] then 0 else (if Related(r, nc, s[0], x) then 1 else 0) + Partners(r, nc, s[1..], x)
  }

  /** The reference: related pairs of s, each counted once. */
  function Pairs(r: Relation, nc: nat, s: seq<Sample>): nat {
    if s == [] then 0 else Partners(r, nc, s[1..], s[0]) + Pairs(r, nc, s[1..])
  }

  lemma {:induction false} PartnersAppend(r: Relation, nc: nat, s: seq<Sample>, y: Sample, x: Sample)
    ensures Partners(r, nc, s + [y], x) == Partners(r, nc, s, x) + (if Related(r, nc, y, x) then 1 else 0)
  {
    if s == [] {
      assert [] + [y] == [y] && [y][1..] == [];
    } else {
      PartnersAppend(r, nc, s[1..], y, x);
      assert (s + [y])[1..] == s[1..] + [y];
    }
  }

  /** A new last sample makes a pair with each of its partners. */
  lemma {:induction false} PairsAppend(r: Relation, nc: nat, s: seq<Sample>, x: Sample)
    ensures Pairs(r, nc, s + [x]) == Pairs(r, nc, s) + Partners(r, nc, s, x)
  {
    if s == [] {
      assert [] + [x] == [x] && [x][1..] == [];
    } else {
      PairsAppend(r, nc, s[1..], x);
      PartnersAppend(r, nc, s[1..], x, s[0]);
      assert (s + [x])[1..] == s[1..] + [x];
    }
  }

  /** Samples share a prefix iff their hashes agree in each of its characters. */
  lemma SamePrefixIff(nc: nat, a: Sample, b: Sample)
    requires nc <= |a.hash| && nc <= |b.hash|
    ensures Related(SamePrefix, nc, a, b) <==> forall i :: 0 <= i < nc ==> a.hash[i] == b.hash[i]
    ensures Related(SameBoth, nc, a, b) <==> Related(SamePrefix, nc, a, b) && Related(SameSpeaker, nc, a, b)
    ensures Related(SameSpeaker, nc, a, b) <==> a.speaker == b.speaker
  {
    assert forall i :: 0 <= i < nc ==> Prefix(a, nc)[i] == a.hash[i] && Prefix(b, nc)[i] == b.hash[i];
  }

  /** The positions below n that g relates to j, and all pairs of positions below n that it
      relates, each once. */
  ghost function With(g: (int, int) -> bool, n: nat, j: int): set<(int, int)> {
    set i | 0 <= i < n && g(i, j) :: (i, j)
  }

  ghost function Ordered(g: (int, int) -> bool, n: nat): set<(int, int)> {
    set i, j | 0 <= i < j < n && g(i, j) :: (i, j)
  }

  lemma WithMore(g: (int, int) -> bool, n: nat, j: int)
    ensures |With(g, n + 1, j)| == |With(g, n, j)| + (if g(n, j) then 1 else 0)
  {
    assert With(g, n + 1, j) == With(g, n, j) + (if g(n, j) then {(n, j)} else {});
  }

  lemma OrderedMore(g: (int, int) -> bool, n: nat)
    ensures |Ordered(g, n + 1)| == |Ordered(g, n)| + |With(g, n, n)|
  {
    assert Ordered(g, n + 1) == Ordered(g, n) + With(g, n, n);
    assert Ordered(g, n) !! With(g, n, n);
  }

  ghost function Relates(r: Relation, nc: nat, s: seq<Sample>): (int, int) -> bool {
    (i, j) => 0 <= i < |s| && 0 <= j < |s| && Related(r, nc, s[i], s[j])
  }

  lemma {:induction false} PartnersAre(r: Relation, nc: nat, s: seq<Sample>, n: nat, j: nat)
    requires n <= |s| && j < |s|
    ensures |With(Relates(r, nc, s), n, j)| == Partners(r, nc, s[..n], s[j])
  {
    if n == 0 {
      assert With(Relates(r, nc, s), 0, j) == {};
    } else {
      PartnersAre(r, nc, s, n - 1, j);
      WithMore(Relates(r, nc, s), n - 1, j);
      PartnersAppend(r, nc, s[..n - 1], s[n - 1], s[j]);
      assert s[..n] == s[..n - 1] + [s[n - 1]];
    }
  }

  lemma {:induction false} PairsUpTo(r: Relation, nc: nat, s: seq<Sample>, n: nat)
    requires n <= |s|
    ensures |Ordered(Relates(r, nc, s), n)| == Pairs(r, nc, s[..n])
  {
    if n == 0 {
      assert Ordered(Relates(r, nc, s), 0) == {};
    } else {
      PairsUpTo(r, nc, s, n - 1);
      OrderedMore(Relates(r, nc, s), n - 1);
      PartnersAre(r, nc, s, n - 1, n - 1);
      PairsAppend(r, nc, s[..n - 1], s[n - 1]);
      assert s[..n] == s[..n - 1] + [s[n - 1]];
    }
  }

  /** The reference counts what it should: the pairs of positions, the first before the
      second, whose samples are related. */
  lemma PairsAre(r: Relation, nc: nat, s: seq<Sample>)
    ensures |Ordered(Relates(r, nc, s), |s|)| == Pairs(r, nc, s)
  {
    PairsUpTo(r, nc, s, |s|);
    assert s[..|s|] == s;
  }

  // ---- Sums over maps, in whatever order the keys come ----

  ghost function Sum<K(!new), V>(m: map<K, V>, f: V -> nat): nat
    decreases |m.Keys|
  {
    if m == map[] then 0
    else
      var k :| k in m;
      assert (m - {k}).Keys == m.Keys - {k};
      f(m[k]) + Sum(m - {k}, f)
  }

  /** Any key may be taken out first. */
  lemma {:induction false} SumRemove<K(!new), V>(m: map<K, V>, f: V -> nat, k: K)
    requires k in m
    ensures Sum(m, f) == f(m[k]) + Sum(m - {k}, f)
    decreases |m.Keys|
  {
    var k' :| k' in m && Sum(m, f) == f(m[k']) + Sum(m - {k'}, f);
    if k' != k {
      assert (m - {k'}).Keys == m.Keys - {k'} && (m - {k}).Keys == m.Keys - {k};
      SumRemove(m - {k'}, f, k);
      SumRemove(m - {k}, f, k');
      assert m - {k'} - {k} == m - {k} - {k'};
    }
  }

  lemma SumUpdate<K(!new), V>(m: map<K, V>, f: V -> nat, k: K, v: V)
    ensures Sum(m[k := v], f) == f(v) + Sum(m - {k}, f)
  {
    SumRemove(m[k := v], f, k);
    assert m[k := v] - {k} == m - {k};
  }

  /** The number of pairs among c things. */
  function Triangle(c: nat): nat { c * (c - 1) / 2 }

  lemma SmallTriangle(c: nat)
    requires c < 2
    ensures Triangle(c) == 0
  {
    assert c == 0 || c == 1;
  }

  lemma TriangleStep(c: nat)
    ensures Triangle(c + 1) == Triangle(c) + c
  {
    assert (c + 1) * c == c * (c - 1) + 2 * c;
  }

  // ---- Samples grouped by hash prefix, then counted by speaker ----

  type Group = map<string, nat>

  function CountIn(g: Group, speaker: string): nat { if speaker in g then g[speaker] else 0 }

  function GroupOf(groups: map<string, Group>, h: string): Group { if h in groups then groups[h] else map[] }

  function Counted(g: Group, speaker: string): Group { g[speaker := CountIn(g, speaker) + 1] }

  /** The groups after the samples of s. */
  function Grouped(nc: nat, s: seq<Sample>): map<string, Group> {
    if s == [] then map[]
    else
      var (groups, x) := (Grouped(nc, s[..|s| - 1]), s[|s| - 1]);
      groups[Prefix(x, nc) := Counted(GroupOf(groups, Prefix(x, nc)), x.speaker)]
  }

  lemma GroupedStep(nc: nat, s: seq<Sample>, i: nat)
    requires i < |s|
    ensures var (groups, h) := (Grouped(nc, s[..i]), Prefix(s[i], nc));
      Grouped(nc, s[..i + 1]) == groups[h := Counted(GroupOf(groups, h), s[i].speaker)]
  {
    assert s[..i + 1][..i] == s[..i];
  }

  function Itself(c: nat): nat { c }

  ghost function Total(g: Group): nat { Sum(g, Itself) }
  ghost function Correct(g: Group): nat { Sum(g, Triangle) }
  ghost function AllPairs(g: Group): nat { Triangle(Total(g)) }

  /** One more sample in a group: its total grows by one, its correct pairs by the
      samples of the same speaker it had. */
  lemma CountedSums(g: Group, speaker: string)
    ensures Total(Counted(g, speaker)) == Total(g) + 1
    ensures Correct(Counted(g, speaker)) == Correct(g) + CountIn(g, speaker)
  {
    var c := CountIn(g, speaker);
    SumUpdate(g, Itself, speaker, c + 1);
    SumUpdate(g, Triangle, speaker, c + 1);
    TriangleStep(c);
    if speaker in g {
      SumRemove(g, Itself, speaker);
      SumRemove(g, Triangle, speaker);
    } else {
      assert g - {speaker} == g;
    }
  }

  /** Group counts are numbers of partners. */
  lemma {:induction false} GroupedCounts(nc: nat, s: seq<Sample>, x: Sample)
    ensures var g := GroupOf(Grouped(nc, s), Prefix(x, nc));
      && Total(g) == Partners(SamePrefix, nc, s, x)
      && CountIn(g, x.speaker) == Partners(SameBoth, nc, s, x)
    decreases |s|
  {
    if s != [] {
      var t, y := s[..|s| - 1], s[|s| - 1];
      assert s == t + [y];
      GroupedCounts(nc, t, x);
      PartnersAppend(SamePrefix, nc, t, y, x);
      PartnersAppend(SameBoth, nc, t, y, x);
      CountedSums(GroupOf(Grouped(nc, t), Prefix(y, nc)), y.speaker);
    }
  }

  lemma SumReplaced<V>(m: map<string, V>, f: V -> nat, k: string, v: V, empty: V)
    requires f(empty) == 0
    ensures Sum(m[k := v], f) + f(if k in m then m[k] else empty) == Sum(m, f) + f(v)
  {
    SumUpdate(m, f, k, v);
    if k in m {
      SumRemove(m, f, k);
    } else {
      assert m - {k} == m;
    }
  }

  /** Counting by groups is counting pairs. */
  lemma {:induction false} GroupedPairs(nc: nat, s: seq<Sample>)
    ensures Sum(Grouped(nc, s), Correct) == Pairs(SameBoth, nc, s)
    ensures Sum(Grouped(nc, s), AllPairs) == Pairs(SamePrefix, nc, s)
    decreases |s|
  {
    if s != [] {
      var t, x := s[..|s| - 1], s[|s| - 1];
      assert s == t + [x];
      var groups, h := Grouped(nc, t), Prefix(x, nc);
      var g := GroupOf(groups, h);
      GroupedPairs(nc, t);
      GroupedCounts(nc, t, x);
      CountedSums(g, x.speaker);
      TriangleStep(Total(g));
      SumReplaced(groups, Correct, h, Counted(g, x.speaker), map[]);
      SumReplaced(groups, AllPairs, h, Counted(g, x.speaker), map[]);
      PairsAppend(SameBoth, nc, t, x);
      PairsAppend(SamePrefix, nc, t, x);
    }
  }

  /** A group of fewer than two samples has no pairs, so skipping it loses none. */
  lemma {:induction false} SmallGroup(g: Group)
    requires Total(g) < 2
    ensures Correct(g) == 0 && AllPairs(g) == 0
    decreases |g.Keys|
  {
    SmallTriangle(Total(g));
    if g != map[] {
      var k :| k in g;
      SumRemove(g, Itself, k);
      SumRemove(g, Triangle, k);
      assert (g - {k}).Keys == g.Keys - {k};
      SmallTriangle(g[k]);
      SmallGroup(g - {k});
    }
  }

  // ---- Samples listed by speaker ----

  function ListOf(lists: map<string, seq<Sample>>, speaker: string): seq<Sample> {
    if speaker in lists then lists[speaker] else []
  }

  function Listed(s: seq<Sample>): map<string, seq<Sample>> {
    if s == [] then map[]
    else
      var (lists, x) := (Listed(s[..|s| - 1]), s[|s| - 1]);
      lists[x.speaker := ListOf(lists, x.speaker) + [x]]
  }

  /** A speaker's list holds the samples of that speaker and no others. */
  lemma {:induction false} ListedPartners(nc: nat, s: seq<Sample>, x: Sample)
    ensures var l := ListOf(Listed(s), x.speaker);
      && (forall y :: y in l ==> y.speaker == x.speaker)
      && Partners(SamePrefix, nc, l, x) == Partners(SameBoth, nc, s, x)
      && |l| == Partners(SameSpeaker, nc, s, x)
    decreases |s|
  {
    if s != [] {
      var t, y := s[..|s| - 1], s[|s| - 1];
      assert s == t + [y];
      ListedPartners(nc, t, x);
      PartnersAppend(SameBoth, nc, t, y, x);
      PartnersAppend(SameSpeaker, nc, t, y, x);
      PartnersAppend(SamePrefix, nc, ListOf(Listed(t), x.speaker), y, x);
    }
  }

  ghost function MatchesIn(nc: nat): seq<Sample> -> nat { l => Pairs(SamePrefix, nc, l) }

  function PairsIn(l: seq<Sample>): nat { Triangle(|l|) }

  /** What one more sample adds to the two sums over the speakers' lists. */
  lemma ListedStep(nc: nat, lists: map<string, seq<Sample>>, x: Sample)
    ensures var l := ListOf(lists, x.speaker);
      var lists' := lists[x.speaker := l + [x]];
      && Sum(lists', MatchesIn(nc)) == Sum(lists, MatchesIn(nc)) + Partners(SamePrefix, nc, l, x)
      && Sum(lists', PairsIn) == Sum(lists, PairsIn) + |l|
  {
    var l := ListOf(lists, x.speaker);
    PairsAppend(SamePrefix, nc, l, x);
    TriangleStep(|l|);
    SumReplaced(lists, MatchesIn(nc), x.speaker, l + [x], []);
    SumReplaced(lists, PairsIn, x.speaker, l + [x], []);
  }

  lemma {:induction false} ListedPairs(nc: nat, s: seq<Sample>)
    ensures Sum(Listed(s), MatchesIn(nc)) == Pairs(SameBoth, nc, s)
    ensures Sum(Listed(s), PairsIn) == Pairs(SameSpeaker, nc, s)
    decreases |s|
  {
    if s != [] {
      var t, x := s[..|s| - 1], s[|s| - 1];
      assert s == t + [x];
      ListedPairs(nc, t);
      ListedPartners(nc, t, x);
      ListedStep(nc, Listed(t), x);
      PairsAppend(SameBoth, nc, t, x);
      PairsAppend(SameSpeaker, nc, t, x);
    }
  }

  lemma {:induction false} FewerPairs(nc: nat, s: seq<Sample>)
    ensures Pairs(SameBoth, nc, s) <= Pairs(SameSpeaker, nc, s)
    ensures Pairs(SameBoth, nc, s) <= Pairs(SamePrefix, nc, s)
  {
    if s != [] {
      FewerPairs(nc, s[1..]);
      FewerPartners(nc, s[1..], s[0]);
    }
  }

  lemma {:induction false} FewerPartners(nc: nat, s: seq<Sample>, x: Sample)
    ensures Partners(SameBoth, nc, s, x) <= Partners(SameSpeaker, nc, s, x)
    ensures Partners(SameBoth, nc, s, x) <= Partners(SamePrefix, nc, s, x)
  {
    if s != [] { FewerPartners(nc, s[1..], x); }
  }

  // ---- The program ----

  /** Recall: the pairs of each speaker's list, one by one. */
  method CountRecall(samples: seq<Sample>, nc: nat) returns (sameTotal: nat, sameMatch: nat)
    requires LongEnough(samples, nc)
    ensures sameTotal == Pairs(SameSpeaker, nc, samples)
    ensures sameMatch == Pairs(SameBoth, nc, samples)
  {
    var speakers := ListSamples(samples);
    sameTotal, sameMatch := 0, 0;
    var rest := speakers;
    while rest != map[]
      invariant sameTotal + Sum(rest, PairsIn) == Sum(speakers, PairsIn)
      invariant sameMatch + Sum(rest, MatchesIn(nc)) == Sum(speakers, MatchesIn(nc))
      decreases |rest.Keys|
    {
      var name :| name in rest;
      var total, matches := CountList(rest[name], nc);
      SumRemove(rest, PairsIn, name);
      SumRemove(rest, MatchesIn(nc), name);
      sameTotal, sameMatch := sameTotal + total, sameMatch + matches;
      assert (rest - {name}).Keys == rest.Keys - {name};
      rest := rest - {name};
    }
    ListedPairs(nc, samples);
  }

  method ListSamples(samples: seq<Sample>) returns (speakers: map<string, seq<Sample>>)
    ensures speakers == Listed(samples)
  {
    speakers := map[];
    for i := 0 to |samples|
      invariant speakers == Listed(samples[..i])
    {
      var s := samples[i];
      assert samples[..i + 1][..i] == samples[..i];
      speakers := speakers[s.speaker := (if s.speaker in speakers then speakers[s.speaker] else []) + [s]];
    }
    assert samples[..|samples|] == samples;
  }

  method CountList(samps: seq<Sample>, nc: nat) returns (total: nat, matches: nat)
    ensures total == PairsIn(samps) && matches == Pairs(SamePrefix, nc, samps)
  {
    total, matches := 0, 0;
    for i := 0 to |samps|
      invariant total + Triangle(|samps| - i) == Triangle(|samps|)
      invariant matches + Pairs(SamePrefix, nc, samps[i..]) == Pairs(SamePrefix, nc, samps)
    {
      ghost var total0, matches0 := total, matches;
      for j := i + 1 to |samps|
        invariant total == total0 + (j - i - 1)
        invariant matches + Partners(SamePrefix, nc, samps[j..], samps[i]) == matches0 + Partners(SamePrefix, nc, samps[i + 1..], samps[i])
      {
        assert samps[j..][1..] == samps[j + 1..];
        total := total + 1;
        if Prefix(samps[j], nc) == Prefix(samps[i], nc) {
          matches := matches + 1;
        }
      }
      assert samps[i..][1..] == samps[i + 1..];
      TriangleStep(|samps| - i - 1);
    }
  }

  /** Precision: pairs within hash groups, by counts. */
  method CountPrecision(samples: seq<Sample>, nc: nat) returns (correctPairs: nat, totalPairs: nat)
    requires LongEnough(samples, nc)
    ensures correctPairs == Pairs(SameBoth, nc, samples)
    ensures totalPairs == Pairs(SamePrefix, nc, samples)
  {
    var groups := GroupSamples(samples, nc);
    correctPairs, totalPairs := 0, 0;
    var rest := groups;
    while rest != map[]
      invariant correctPairs + Sum(rest, Correct) == Sum(groups, Correct)
      invariant totalPairs + Sum(rest, AllPairs) == Sum(groups, AllPairs)
      decreases |rest.Keys|
    {
      var h :| h in rest;
      var correct, all := CountGroup(rest[h]);
      SumRemove(rest, Correct, h);
      SumRemove(rest, AllPairs, h);
      correctPairs, totalPairs := correctPairs + correct, totalPairs + all;
      assert (rest - {h}).Keys == rest.Keys - {h};
      rest := rest - {h};
    }
    GroupedPairs(nc, samples);
  }

  method GroupSamples(samples: seq<Sample>, nc: nat) returns (groups: map<string, Group>)
    ensures groups == Grouped(nc, samples)
  {
    groups := map[];
    for i := 0 to |samples|
      invariant groups == Grouped(nc, samples[..i])
    {
      var s := samples[i];
      GroupedStep(nc, samples, i);
      var h := Prefix(s, nc);
      ghost var before := groups;
      if h !in groups {
        groups := groups[h := map[]];
      }
      var g := groups[h];
      g := g[s.speaker := (if s.speaker in g then g[s.speaker] else 0) + 1];
      groups := groups[h := g];
      assert groups == before[h := Counted(GroupOf(before, h), s.speaker)];
    }
    assert samples[..|samples|] == samples;
  }

  method CountGroup(g: Group) returns (correct: nat, all: nat)
    ensures correct == Correct(g) && all == AllPairs(g)
  {
    var total := GroupTotal(g);
    if total < 2 {
      SmallGroup(g);
      return 0, 0;
    }
    all := Triangle(total);
    correct := GroupCorrect(g);
  }

  method GroupTotal(g: Group) returns (total: nat)
    ensures total == Total(g)
  {
    total := 0;
    var rest := g;
    while rest != map[]
      invariant total + Total(rest) == Total(g)
      decreases |rest.Keys|
    {
      var k :| k in rest;
      SumRemove(rest, Itself, k);
      total := total + rest[k];
      assert (rest - {k}).Keys == rest.Keys - {k};
      rest := rest - {k};
    }
  }

  method GroupCorrect(g: Group) returns (correct: nat)
    ensures correct == Correct(g)
  {
    correct := 0;
    var rest := g;
    while rest != map[]
      invariant correct + Correct(rest) == Correct(g)
      decreases |rest.Keys|
    {
      var k :| k in rest;
      SumRemove(rest, Triangle, k);
      correct := correct + Triangle(rest[k]);
      assert (rest - {k}).Keys == rest.Keys - {k};
      rest := rest - {k};
    }
  }

  /** The two counts of the same thing agree, for every sample list and prefix length,
      and neither recall nor precision exceeds one. */
  method Analyze(samples: seq<Sample>, nc: nat)
    returns (sameTotal: nat, sameMatch: nat, correctPairs: nat, totalPairs: nat)
    requires LongEnough(samples, nc)
    ensures correctPairs == sameMatch && sameMatch <= sameTotal && correctPairs <= totalPairs
    ensures sameMatch == Pairs(SameBoth, nc, samples)
    ensures sameTotal == Pairs(SameSpeaker, nc, samples) && totalPairs == Pairs(SamePrefix, nc, samples)
  {
    sameTotal, sameMatch := CountRecall(samples, nc);
    correctPairs, totalPairs := CountPrecision(samples, nc);
    FewerPairs(nc, samples);
  }
}
