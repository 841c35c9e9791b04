/** Cluster bootstrap: statistics from cluster multiplicities against the materialised resample. */
module WeightedBootstrap {

  type Item = (real, nat)
  datatype Growth = MinusInfinity | Finite(value: real)

  function SumOf(f: real -> real, s: seq<real>): real {
    if s == [] then 0.0 else SumOf(f, s[..|s| - 1]) + f(s[|s| - 1])
  }

  function Identity(x: real): real { x }

  function MeanOf(f: real -> real, s: seq<real>): real
    requires s != []
  {
    SumOf(f, s) / (|s| as real)
  }

  /** Mean of the logs of 1 + fraction * v; a total loss anywhere makes it minus infinity. */
  function LogGrowth(log: real -> real, fraction: real, s: seq<real>): Growth
    requires s != []
  {
    if exists i | 0 <= i < |s| :: Terminal(fraction, s[i]) <= 0.0 then MinusInfinity
    else Finite(MeanOf(LogTerminal(log, fraction), s))
  }

  function LogTerminal(log: real -> real, fraction: real): real -> real {
    v => log(Terminal(fraction, v))
  }

  function Terminal(fraction: real, v: real): real { 1.0 + fraction * v }

  predicate Sorted(s: seq<real>) {
    forall i, j | 0 <= i < j < |s| :: s[i] <= s[j]
  }

  /** statistics.median of sorted data. */
  function Median(s: seq<real>): real
    requires s != []
  {
    if |s| % 2 == 1 then s[|s| / 2] else (s[|s| / 2 - 1] + s[|s| / 2]) / 2.0
  }

  /** A selection of clusters, with repetition, as the generator draws it. */
  predicate Selects(picks: seq<nat>, n: nat) {
    forall i | 0 <= i < |picks| :: picks[i] < n
  }

  /** The reference resample: every selected cluster is appended in full. */
  function Draw(groups: seq<seq<real>>, picks: seq<nat>): seq<real>
    requires Selects(picks, |groups|)
  {
    if picks == [] then [] else Draw(groups, picks[..|picks| - 1]) + groups[picks[|picks| - 1]]
  }

  /** How often each cluster is selected. */
  function Tally(n: nat, picks: seq<nat>): (m: seq<nat>)
    requires Selects(picks, n)
    ensures |m| == n
  {
    if picks == [] then seq(n, _ => 0)
    else var m := Tally(n, picks[..|picks| - 1]); var p := picks[|picks| - 1]; m[p := m[p] + 1]
  }

  function Repeat(v: real, n: nat): (s: seq<real>)
    ensures |s| == n && forall i | 0 <= i < n :: s[i] == v
  {
    seq(n, _ => v)
  }

  function Copies(group: seq<real>, n: nat): seq<real> {
    if n == 0 then [] else Copies(group, n - 1) + group
  }

  /** The values the weighted iterator yields: each group as often as it was selected. */
  function Weighted(groups: seq<seq<real>>, m: seq<nat>): seq<real>
    requires |groups| <= |m|
  {
    if groups == [] then []
    else var n := |groups| - 1; Weighted(groups[..n], m) + Copies(groups[n], m[n])
  }

  predicate InRange(items: seq<Item>, n: nat) {
    forall i | 0 <= i < |items| :: items[i].1 < n
  }

  /** Each item repeated as often as its cluster was selected: never built by the code. */
  ghost function Expand(items: seq<Item>, m: seq<nat>): seq<real>
    requires InRange(items, |m|)
  {
    if items == [] then []
    else var last := items[|items| - 1]; Expand(items[..|items| - 1], m) + Repeat(last.0, m[last.1])
  }

  /** All values with their cluster. */
  ghost function Flat(groups: seq<seq<real>>): seq<Item> {
    if groups == [] then []
    else var n := |groups| - 1; Flat(groups[..n]) + Tag(groups[n], n)
  }

  function Tag(group: seq<real>, g: nat): seq<Item> {
    seq(|group|, i requires 0 <= i < |group| => (group[i], g))
  }

  /** sorted((value, cluster) ...): by value, then by cluster. */
  ghost predicate IsOrdering(items: seq<Item>, groups: seq<seq<real>>) {
    && multiset(items) == multiset(Flat(groups)) && InRange(items, |groups|)
    && forall i, j | 0 <= i < j < |items| :: items[i].0 <= items[j].0
  }

  ghost function Members(items: seq<Item>, g: nat): seq<real> {
    if items == [] then []
    else var last := items[|items| - 1];
      Members(items[..|items| - 1], g) + if last.1 == g then [last.0] else []
  }

  // ---- the weighted sequence is a permutation of the draw ----

  lemma {:induction false} MembersCount(items: seq<Item>, g: nat, x: real)
    ensures multiset(Members(items, g))[x] == multiset(items)[(x, g)]
  {
    if items != [] {
      var n := |items| - 1;
      MembersCount(items[..n], g, x);
      assert items == items[..n] + [items[n]];
    }
  }

  lemma {:induction false} TagCount(group: seq<real>, g: nat, x: real, h: nat)
    ensures multiset(Tag(group, g))[(x, h)] == if g == h then multiset(group)[x] else 0
  {
    if group != [] {
      var n := |group| - 1;
      TagCount(group[..n], g, x, h);
      assert group == group[..n] + [group[n]];
      assert Tag(group, g) == Tag(group[..n], g) + [(group[n], g)];
    }
  }

  lemma {:induction false} FlatCount(groups: seq<seq<real>>, x: real, g: nat)
    ensures multiset(Flat(groups))[(x, g)] == if g < |groups| then multiset(groups[g])[x] else 0
  {
    if groups != [] {
      var n := |groups| - 1;
      FlatCount(groups[..n], x, g);
      TagCount(groups[n], n, x, g);
    }
  }

  lemma GroupMembers(items: seq<Item>, groups: seq<seq<real>>, g: nat)
    requires IsOrdering(items, groups) && g < |groups|
    ensures multiset(Members(items, g)) == multiset(groups[g])
  {
    forall x: real ensures multiset(Members(items, g))[x] == multiset(groups[g])[x] {
      MembersCount(items, g, x);
      FlatCount(groups, x, g);
    }
  }

  /** m2 is m with cluster g selected once more. */
  predicate Bumped(m: seq<nat>, m2: seq<nat>, g: nat) {
    |m2| == |m| && g < |m| && forall i | 0 <= i < |m| :: m2[i] == if i == g then m[i] + 1 else m[i]
  }

  lemma {:induction false} ExpandBump(items: seq<Item>, m: seq<nat>, m2: seq<nat>, g: nat)
    requires InRange(items, |m|) && Bumped(m, m2, g)
    ensures multiset(Expand(items, m2)) == multiset(Expand(items, m)) + multiset(Members(items, g))
  {
    if items != [] {
      var last, front := items[|items| - 1], items[..|items| - 1];
      ExpandBump(front, m, m2, g);
      var before, after := Repeat(last.0, m[last.1]), Repeat(last.0, m2[last.1]);
      assert last.1 == g ==> after == before + [last.0];
      assert last.1 != g ==> after == before;
      assert multiset(Expand(items, m2)) == multiset(Expand(front, m2)) + multiset(after);
      assert multiset(Expand(items, m)) == multiset(Expand(front, m)) + multiset(before);
    }
  }

  lemma {:induction false} WeightedBump(groups: seq<seq<real>>, m: seq<nat>, m2: seq<nat>, g: nat)
    requires |groups| <= |m| && Bumped(m, m2, g)
    ensures multiset(Weighted(groups, m2)) ==
            multiset(Weighted(groups, m)) + if g < |groups| then multiset(groups[g]) else multiset{}
  {
    if groups != [] {
      var n := |groups| - 1;
      WeightedBump(groups[..n], m, m2, g);
      var before, after := Copies(groups[n], m[n]), Copies(groups[n], m2[n]);
      assert n == g ==> after == before + groups[n];
      assert multiset(Weighted(groups, m2)) == multiset(Weighted(groups[..n], m2)) + multiset(after);
      assert multiset(Weighted(groups, m)) == multiset(Weighted(groups[..n], m)) + multiset(before);
    }
  }

  lemma {:induction false} NothingSelected(groups: seq<seq<real>>, items: seq<Item>, m: seq<nat>)
    requires |groups| <= |m| && InRange(items, |m|) && forall i | 0 <= i < |m| :: m[i] == 0
    ensures Weighted(groups, m) == [] && Expand(items, m) == []
  {
    if groups != [] {
      NothingSelected(groups[..|groups| - 1], items, m);
    } else if items != [] {
      NothingSelected(groups, items[..|items| - 1], m);
    }
  }

  lemma OneMorePick(groups: seq<seq<real>>, items: seq<Item>, m: seq<nat>, m2: seq<nat>, p: nat, draw: seq<real>)
    requires IsOrdering(items, groups) && |m| == |groups| && Bumped(m, m2, p)
    requires multiset(Expand(items, m)) == multiset(draw) && multiset(Weighted(groups, m)) == multiset(draw)
    ensures multiset(Expand(items, m2)) == multiset(draw + groups[p])
    ensures multiset(Weighted(groups, m2)) == multiset(draw + groups[p])
  {
    ExpandBump(items, m, m2, p);
    WeightedBump(groups, m, m2, p);
    GroupMembers(items, groups, p);
  }

  /** Multiplicities lose nothing: both weighted enumerations permute the materialised resample. */
  lemma {:induction false} SameMultiset(groups: seq<seq<real>>, items: seq<Item>, picks: seq<nat>)
    requires Selects(picks, |groups|) && IsOrdering(items, groups)
    ensures multiset(Expand(items, Tally(|groups|, picks))) == multiset(Draw(groups, picks))
    ensures multiset(Weighted(groups, Tally(|groups|, picks))) == multiset(Draw(groups, picks))
  {
    if picks == [] {
      NothingSelected(groups, items, Tally(|groups|, picks));
    } else {
      var n := |picks| - 1;
      SameMultiset(groups, items, picks[..n]);
      var m, m2 := Tally(|groups|, picks[..n]), Tally(|groups|, picks);
      OneMorePick(groups, items, m, m2, picks[n], Draw(groups, picks[..n]));
    }
  }

  lemma SortedAppend(s: seq<real>, v: real, n: nat)
    requires Sorted(s) && forall i | 0 <= i < |s| :: s[i] <= v
    ensures Sorted(s + Repeat(v, n)) && forall i | 0 <= i < |s + Repeat(v, n)| :: (s + Repeat(v, n))[i] <= v
  {
    var r := s + Repeat(v, n);
    assert forall i | 0 <= i < |r| :: r[i] == if i < |s| then s[i] else v;
  }

  lemma {:induction false} ExpandSorted(items: seq<Item>, m: seq<nat>, top: real)
    requires InRange(items, |m|) && forall i, j | 0 <= i < j < |items| :: items[i].0 <= items[j].0
    requires forall i | 0 <= i < |items| :: items[i].0 <= top
    ensures Sorted(Expand(items, m)) && forall i | 0 <= i < |Expand(items, m)| :: Expand(items, m)[i] <= top
  {
    if items != [] {
      var last, front := items[|items| - 1], items[..|items| - 1];
      ExpandSorted(front, m, last.0);
      SortedAppend(Expand(front, m), last.0, m[last.1]);
    }
  }

  // ---- statistics depend only on the multiset ----

  lemma {:induction false} SumWithout(f: real -> real, s: seq<real>, i: nat)
    requires i < |s|
    ensures SumOf(f, s) == SumOf(f, s[..i] + s[i + 1..]) + f(s[i])
  {
    var n := |s| - 1;
    if i < n {
      SumWithout(f, s[..n], i);
      assert (s[..i] + s[i + 1..])[..n - 1] == s[..n][..i] + s[..n][i + 1..];
    } else {
      assert s[..i] + s[i + 1..] == s[..n];
    }
  }

  lemma RemoveAt(s: seq<real>, i: nat)
    requires i < |s|
    ensures multiset(s[..i] + s[i + 1..]) == multiset(s) - multiset{s[i]}
  {
    assert s == s[..i] + [s[i]] + s[i + 1..];
  }

  lemma RemoveLast(s: seq<real>)
    requires s != []
    ensures multiset(s[..|s| - 1]) == multiset(s) - multiset{s[|s| - 1]}
  {
    assert s == s[..|s| - 1] + [s[|s| - 1]];
  }

  lemma SameMembers(a: seq<real>, b: seq<real>, x: real)
    requires multiset(a) == multiset(b)
    ensures x in a <==> x in b
  {
    assert x in a <==> x in multiset(a);
    assert x in b <==> x in multiset(b);
  }

  lemma SameLength(a: seq<real>, b: seq<real>)
    requires multiset(a) == multiset(b)
    ensures |a| == |b|
  {
    assert |a| == |multiset(a)| == |multiset(b)| == |b|;
  }

  lemma {:induction false} SumPermuted(f: real -> real, a: seq<real>, b: seq<real>)
    requires multiset(a) == multiset(b)
    ensures SumOf(f, a) == SumOf(f, b) && |a| == |b|
    decreases |a|
  {
    SameLength(a, b);
    if a != [] {
      var n := |a| - 1;
      SameMembers(a, b, a[n]);
      var i :| 0 <= i < |b| && b[i] == a[n];
      RemoveLast(a);
      RemoveAt(b, i);
      SumPermuted(f, a[..n], b[..i] + b[i + 1..]);
      SumWithout(f, b, i);
    }
  }

  lemma SameTop(a: seq<real>, b: seq<real>)
    requires Sorted(a) && Sorted(b) && multiset(a) == multiset(b) && a != []
    ensures |a| == |b| && a[|a| - 1] == b[|b| - 1]
  {
    SameLength(a, b);
    SameMembers(a, b, a[|a| - 1]);
    SameMembers(a, b, b[|b| - 1]);
  }

  lemma SamePrefix(a: seq<real>, b: seq<real>)
    requires multiset(a) == multiset(b) && a != [] && |a| == |b| && a[|a| - 1] == b[|b| - 1]
    ensures multiset(a[..|a| - 1]) == multiset(b[..|b| - 1])
  {
    RemoveLast(a);
    RemoveLast(b);
  }

  lemma {:induction false} SortedUnique(a: seq<real>, b: seq<real>)
    requires Sorted(a) && Sorted(b) && multiset(a) == multiset(b)
    ensures a == b
    decreases |a|
  {
    SameLength(a, b);
    if a != [] {
      var n := |a| - 1;
      SameTop(a, b);
      SamePrefix(a, b);
      SortedUnique(a[..n], b[..n]);
      assert a == a[..n] + [a[n]] && b == b[..n] + [b[n]];
    }
  }

  lemma GrowthPermuted(log: real -> real, fraction: real, a: seq<real>, b: seq<real>)
    requires multiset(a) == multiset(b) && a != []
    ensures b != [] && LogGrowth(log, fraction, a) == LogGrowth(log, fraction, b)
  {
    SumPermuted(LogTerminal(log, fraction), a, b);
    if i :| 0 <= i < |a| && Terminal(fraction, a[i]) <= 0.0 {
      SameMembers(a, b, a[i]);
    }
    if i :| 0 <= i < |b| && Terminal(fraction, b[i]) <= 0.0 {
      SameMembers(a, b, b[i]);
    }
  }

  // ---- the code ----

  lemma {:induction false} ExpandPrefix(items: seq<Item>, m: seq<nat>, k: nat)
    requires InRange(items, |m|) && k <= |items|
    ensures Expand(items[..k], m) <= Expand(items, m)
  {
    if k < |items| {
      ExpandPrefix(items[..|items| - 1], m, k);
      assert items[..|items| - 1][..k] == items[..k];
    } else {
      assert items[..k] == items;
    }
  }

  /** Item k occupies the ranks from the length before it to the length after it. */
  lemma ExpandStep(items: seq<Item>, m: seq<nat>, k: nat)
    requires InRange(items, |m|) && k < |items|
    ensures |Expand(items[..k + 1], m)| == |Expand(items[..k], m)| + m[items[k].1] <= |Expand(items, m)|
    ensures forall r | |Expand(items[..k], m)| <= r < |Expand(items[..k + 1], m)| :: Expand(items, m)[r] == items[k].0
  {
    assert items[..k + 1][..k] == items[..k];
    assert Expand(items[..k + 1], m) == Expand(items[..k], m) + Repeat(items[k].0, m[items[k].1]);
    ExpandPrefix(items, m, k + 1);
  }

  /** The rank scan always finds both ranks, and returns the median of the expansion. */
  method WeightedMedian(items: seq<Item>, m: seq<nat>, total: nat) returns (median: real)
    requires InRange(items, |m|) && total == |Expand(items, m)| > 0
    ensures median == Median(Expand(items, m))
  {
    ghost var e := Expand(items, m);
    var leftRank, rightRank := (total - 1) / 2, total / 2;
    var left, seen := 0.0, 0;
    var leftFound := false;
    assert items[..|items|] == items;
    for k := 0 to |items|
      invariant seen == |Expand(items[..k], m)| <= rightRank
      invariant leftFound == (leftRank < seen) && (leftFound ==> left == e[leftRank])
    {
      ExpandStep(items, m, k);
      var next := seen + m[items[k].1];
      if !leftFound && leftRank < next {
        left, leftFound := items[k].0, true;
      }
      if rightRank < next {
        return if leftRank != rightRank then (left + items[k].0) / 2.0 else items[k].0;
      }
      seen := next;
    }
    assert false;
    median := 0.0;
  }

  lemma SumStep(f: real -> real, s: seq<real>, i: nat)
    requires i < |s|
    ensures SumOf(f, s[..i + 1]) == SumOf(f, s[..i]) + f(s[i])
  {
    assert s[..i + 1][..i] == s[..i];
  }

  method AddCopies(v: real, weight: nat, ghost e: seq<real>, ghost start: nat, sum0: real) returns (sum: real)
    requires start + weight <= |e| && forall r | start <= r < start + weight :: e[r] == v
    requires sum0 == SumOf(Identity, e[..start])
    ensures sum == SumOf(Identity, e[..start + weight])
  {
    sum := sum0;
    for c := 0 to weight
      invariant sum == SumOf(Identity, e[..start + c])
    {
      SumStep(Identity, e, start + c);
      sum := sum + v;
    }
  }

  /** The mean of the tailN smallest resampled values. */
  method WeightedShortfall(items: seq<Item>, m: seq<nat>, tailN: nat) returns (shortfall: real)
    requires InRange(items, |m|) && 1 <= tailN <= |Expand(items, m)|
    ensures shortfall == MeanOf(Identity, Expand(items, m)[..tailN])
  {
    ghost var e := Expand(items, m);
    var remaining, sum := tailN, 0.0;
    for k := 0 to |items|
      invariant 0 <= remaining <= tailN && |Expand(items[..k], m)| <= |e|
      invariant remaining > 0 ==> tailN - remaining == |Expand(items[..k], m)|
      invariant sum == SumOf(Identity, e[..tailN - remaining])
    {
      if remaining == 0 {
        break;
      }
      ExpandStep(items, m, k);
      var weight := if m[items[k].1] < remaining then m[items[k].1] else remaining;
      sum := AddCopies(items[k].0, weight, e, tailN - remaining, sum);
      remaining := remaining - weight;
    }
    assert items[..|items|] == items;
    return sum / (tailN as real);
  }

  /** Running totals of the two streamed means after the values `read`. */
  ghost predicate Totals(read: seq<real>, log: real -> real, fraction: real, sum: real, logs: real, ruined: bool) {
    && sum == SumOf(Identity, read)
    && (ruined <==> exists i | 0 <= i < |read| :: Terminal(fraction, read[i]) <= 0.0)
    && (!ruined ==> logs == SumOf(LogTerminal(log, fraction), read))
  }

  lemma TotalsGrow(read: seq<real>, log: real -> real, fraction: real, sum: real, logs: real, ruined: bool, v: real)
    requires Totals(read, log, fraction, sum, logs, ruined)
    ensures var terminal := Terminal(fraction, v);
      Totals(read + [v], log, fraction, sum + v,
             if terminal <= 0.0 then logs else logs + log(terminal), ruined || terminal <= 0.0)
  {
    var next := read + [v];
    assert next[..|read|] == read && next[|read|] == v;
    assert LogTerminal(log, fraction)(v) == log(Terminal(fraction, v));
    assert forall i | 0 <= i < |read| :: next[i] == read[i];
  }

  method ReadGroup(group: seq<real>, ghost read: seq<real>, log: real -> real, fraction: real, sum0: real,
        logs0: real, ruined0: bool)
    returns (sum: real, logs: real, ruined: bool)
    requires Totals(read, log, fraction, sum0, logs0, ruined0)
    ensures Totals(read + group, log, fraction, sum, logs, ruined)
  {
    sum, logs, ruined := sum0, logs0, ruined0;
    assert read + group[..0] == read;
    for i := 0 to |group|
      invariant Totals(read + group[..i], log, fraction, sum, logs, ruined)
    {
      var v := group[i];
      TotalsGrow(read + group[..i], log, fraction, sum, logs, ruined, v);
      assert read + group[..i + 1] == read + group[..i] + [v];
      var terminal := Terminal(fraction, v);
      sum, ruined := sum + v, ruined || terminal <= 0.0;
      logs := if terminal <= 0.0 then logs else logs + log(terminal);
    }
    assert group[..|group|] == group;
  }

  /** Both means over the weighted iterator: groups in order, each as often as it was selected. */
  method WeightedMeans(groups: seq<seq<real>>, m: seq<nat>, total: nat, log: real -> real, fraction: real)
    returns (mean: real, growth: Growth)
    requires |groups| == |m| && total == |Weighted(groups, m)| > 0
    ensures mean == MeanOf(Identity, Weighted(groups, m))
    ensures growth == LogGrowth(log, fraction, Weighted(groups, m))
  {
    var sum, logs, ruined := 0.0, 0.0, false;
    ghost var read: seq<real> := [];
    for g := 0 to |groups|
      invariant read == Weighted(groups[..g], m) && Totals(read, log, fraction, sum, logs, ruined)
    {
      for c := 0 to m[g]
        invariant read == Weighted(groups[..g], m) + Copies(groups[g], c)
        invariant Totals(read, log, fraction, sum, logs, ruined)
      {
        sum, logs, ruined := ReadGroup(groups[g], read, log, fraction, sum, logs, ruined);
        read := read + groups[g];
      }
      assert groups[..g + 1][..g] == groups[..g];
    }
    assert groups[..|groups|] == groups;
    mean := sum / (total as real);
    growth := if ruined then MinusInfinity else Finite(logs / (total as real));
  }

  datatype Statistics = Statistics(mean: real, median: real, growth: Growth, shortfall: real)

  /** What the incumbent computes from the materialised resample, `sorted` being its sorted copy. */
  ghost predicate Incumbent(st: Statistics, draw: seq<real>, sorted: seq<real>, tailN: nat, log: real -> real,
        fraction: real)
    requires draw != [] && 1 <= tailN <= |draw| && |sorted| == |draw|
  {
    && st.mean == MeanOf(Identity, draw) && st.median == Median(sorted)
    && st.growth == LogGrowth(log, fraction, draw) && st.shortfall == MeanOf(Identity, sorted[..tailN])
  }

  ghost predicate SortedCopy(sorted: seq<real>, draw: seq<real>) {
    Sorted(sorted) && multiset(sorted) == multiset(draw)
  }

  /** The statistics are those of the resample, whichever way its values are sorted. */
  ghost predicate Exact(st: Statistics, draw: seq<real>, tailOf: nat -> nat, log: real -> real, fraction: real)
    requires draw != [] && TailSize(tailOf)
  {
    && (exists sorted :: SortedCopy(sorted, draw))
    && forall sorted | SortedCopy(sorted, draw) ::
         |sorted| == |draw| && Incumbent(st, draw, sorted, tailOf(|sorted|), log, fraction)
  }

  ghost predicate ExactSample(st: Statistics, groups: seq<seq<real>>, picks: seq<nat>, tailOf: nat -> nat,
        log: real -> real, fraction: real)
    requires TailSize(tailOf)
  {
    Selects(picks, |groups|) && Draw(groups, picks) != [] && Exact(st, Draw(groups, picks), tailOf, log, fraction)
  }

  /** max(1, ceil(n * tail)) with a tail fraction of at most one. */
  ghost predicate TailSize(tailOf: nat -> nat) {
    forall n: nat | n > 0 :: 1 <= tailOf(n) <= n
  }

  /** Clusters hold at least one value each and there is at least one, as the grouping makes them. */
  lemma {:induction false} DrawIsNotEmpty(groups: seq<seq<real>>, picks: seq<nat>)
    requires Selects(picks, |groups|) && picks != [] && forall g | 0 <= g < |groups| :: groups[g] != []
    ensures Draw(groups, picks) != []
  {
    assert groups[picks[|picks| - 1]] != [];
  }

  lemma SampleIsExact(groups: seq<seq<real>>, items: seq<Item>, picks: seq<nat>, st: Statistics, tailOf: nat -> nat,
                      log: real -> real, fraction: real)
    requires Selects(picks, |groups|) && IsOrdering(items, groups) && Draw(groups, picks) != [] && TailSize(tailOf)
    requires var m := Tally(|groups|, picks);
      var w, e := Weighted(groups, m), Expand(items, m);
      |w| > 0 && |e| > 0 && st == Statistics(MeanOf(Identity, w), Median(e), LogGrowth(log, fraction, w),
                                             MeanOf(Identity, e[..tailOf(|e|)]))
    ensures Exact(st, Draw(groups, picks), tailOf, log, fraction)
  {
    var m, draw := Tally(|groups|, picks), Draw(groups, picks);
    var w, e := Weighted(groups, m), Expand(items, m);
    SameMultiset(groups, items, picks);
    ExpandSorted(items, m, if items == [] then 0.0 else items[|items| - 1].0);
    SumPermuted(Identity, w, draw);
    GrowthPermuted(log, fraction, w, draw);
    assert SortedCopy(e, draw);
    forall sorted | SortedCopy(sorted, draw)
      ensures |sorted| == |draw| && Incumbent(st, draw, sorted, tailOf(|sorted|), log, fraction)
    {
      SortedUnique(sorted, e);
      SumPermuted(Identity, sorted, draw);
    }
  }

  lemma SameLengths(groups: seq<seq<real>>, items: seq<Item>, picks: seq<nat>)
    requires Selects(picks, |groups|) && IsOrdering(items, groups)
    ensures |Expand(items, Tally(|groups|, picks))| == |Draw(groups, picks)|
    ensures |Weighted(groups, Tally(|groups|, picks))| == |Draw(groups, picks)|
  {
    SameMultiset(groups, items, picks);
    SumPermuted(Identity, Expand(items, Tally(|groups|, picks)), Draw(groups, picks));
    SumPermuted(Identity, Weighted(groups, Tally(|groups|, picks)), Draw(groups, picks));
  }

  lemma {:induction false} CopiesLength(group: seq<real>, n: nat)
    ensures |Copies(group, n)| == n * |group|
  {
    if n > 0 {
      CopiesLength(group, n - 1);
      assert n * |group| == (n - 1) * |group| + |group|;
    }
  }

  method CountPicks(n: nat, picks: seq<nat>) returns (m: seq<nat>)
    requires Selects(picks, n)
    ensures m == Tally(n, picks)
  {
    var multiplicities := new nat[n](_ => 0);
    for i := 0 to |picks|
      invariant Selects(picks[..i], n) && multiplicities[..] == Tally(n, picks[..i])
    {
      assert picks[..i + 1][..i] == picks[..i];
      multiplicities[picks[i]] := multiplicities[picks[i]] + 1;
    }
    assert picks[..|picks|] == picks;
    return multiplicities[..];
  }

  method TotalCount(groups: seq<seq<real>>, m: seq<nat>) returns (total: nat)
    requires |groups| == |m|
    ensures total == |Weighted(groups, m)|
  {
    total := 0;
    for g := 0 to |groups|
      invariant total == |Weighted(groups[..g], m)|
    {
      CopiesLength(groups[g], m[g]);
      assert groups[..g + 1][..g] == groups[..g];
      total := total + m[g] * |groups[g]|;
    }
    assert groups[..|groups|] == groups;
  }

  /** One bootstrap sample: for any clusters and any selection of them, the statistics taken from the
      multiplicities are exactly those of the materialised, sorted resample. */
  method Sample(groups: seq<seq<real>>, items: seq<Item>, picks: seq<nat>, tailOf: nat -> nat, log: real -> real,
        fraction: real)
    returns (st: Statistics)
    requires Selects(picks, |groups|) && IsOrdering(items, groups) && picks != [] && TailSize(tailOf)
    requires forall g | 0 <= g < |groups| :: groups[g] != []
    ensures ExactSample(st, groups, picks, tailOf, log, fraction)
  {
    var m := CountPicks(|groups|, picks);
    var total := TotalCount(groups, m);
    DrawIsNotEmpty(groups, picks);
    SameLengths(groups, items, picks);
    var mean, growth := WeightedMeans(groups, m, total, log, fraction);
    var median := WeightedMedian(items, m, total);
    var shortfall := WeightedShortfall(items, m, tailOf(total));
    st := Statistics(mean, median, growth, shortfall);
    SampleIsExact(groups, items, picks, st, tailOf, log, fraction);
  }
}
