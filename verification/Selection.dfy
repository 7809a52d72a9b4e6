/**
 How a pool chooses among its healthy workers, on counters and loads alone: the
 round-robin cycle, the scan for the least load, and what repeated choices do.
 */
module Selection {
  import opened Wrappers

  // ---- Round robin ----

  /** How many of the k selections from counter c on pick index j of n. */
  function Picks(c: nat, k: nat, n: nat, j: nat): nat
    requires n > 0
  {
    if k == 0 then 0 else Picks(c, k - 1, n, j) + if (c + k - 1) % n == j then 1 else 0
  }

  /** The position after a in the cycle of n. */
  function Following(a: nat, n: nat): nat
    requires a < n
  {
    if a == n - 1 then 0 else a + 1
  }

  lemma SmallMultiple(n: int, d: int)
    requires n > 0
    ensures -n < n * d < n ==> d == 0
  {
    assert d >= 1 ==> n * d >= n * 1;
    assert d <= -1 ==> n * d <= n * -1;
  }

  lemma ModUnique(x: nat, n: nat, q: nat, r: nat)
    requires n > 0 && r < n && x == n * q + r
    ensures x % n == r
  {
    var p, s := x / n, x % n;
    assert x == n * p + s;
    assert n * (p - q) == n * p - n * q;
    SmallMultiple(n, p - q);
  }

  lemma ModStep(x: nat, n: nat)
    requires n > 0
    ensures (x + 1) % n == Following(x % n, n)
  {
    var q, r := x / n, x % n;
    assert x == n * q + r;
    if r == n - 1 {
      assert n * (q + 1) == n * q + n;
      ModUnique(x + 1, n, q + 1, 0);
    } else {
      ModUnique(x + 1, n, q, r + 1);
    }
  }

  /** How far index j is ahead of position a in the cycle of n. */
  function Ahead(a: nat, j: nat, n: nat): nat
    requires a < n && j < n
  {
    if j >= a then j - a else j + n - a
  }

  lemma AheadStep(a: nat, j: nat, n: nat)
    requires a < n && j < n
    ensures Ahead(Following(a, n), j, n) == if a == j then n - 1 else Ahead(a, j, n) - 1
    ensures a == j ==> Ahead(a, j, n) == 0
    ensures 0 <= Ahead(a, j, n) < n
  {
  }

  /** n rounds of p selections. */
  function Rounds(n: nat, p: int): int {
    n * p
  }

  lemma OneMoreRound(n: nat, p: int)
    ensures Rounds(n, p + 1) == Rounds(n, p) + n && Rounds(n, 0) == 0
  {
  }

  /** Round robin gives index j its turns exactly as the cycle comes round to it. */
  lemma {:induction false} PicksFollowCycle(c: nat, k: nat, n: nat, j: nat)
    requires n > 0 && j < n
    ensures Rounds(n, Picks(c, k, n, j)) == k - Ahead(c % n, j, n) + Ahead((c + k) % n, j, n)
    decreases k
  {
    hide Rounds;
    hide Ahead;
    if k == 0 {
      OneMoreRound(n, 0);
    } else {
      PicksFollowCycle(c, k - 1, n, j);
      var x := c + k - 1;
      ModStep(x, n);
      AheadStep(x % n, j, n);
      OneMoreRound(n, Picks(c, k - 1, n, j));
      assert c + k == x + 1;
      hide Following;
    }
  }

  /** times is k / n, rounded down or up. */
  predicate FairShare(times: int, k: int, n: nat) {
    n * (times - 1) < k < n * (times + 1)
  }

  /** Any k consecutive selections give each of n workers k / n of them, rounded down or up. */
  lemma PicksAreFair(c: nat, k: nat, n: nat, j: nat)
    requires n > 0 && j < n
    ensures FairShare(Picks(c, k, n, j), k, n)
  {
    hide Picks;
    hide Ahead;
    PicksFollowCycle(c, k, n, j);
    AheadStep(c % n, j, n);
    AheadStep((c + k) % n, j, n);
    var p: int := Picks(c, k, n, j);
    OneMoreRound(n, p);
    OneMoreRound(n, p - 1);
    assert n * (p - 1) == Rounds(n, p - 1) && n * (p + 1) == Rounds(n, p + 1);
  }

  // ---- Least loaded ----

  /** The candidate kept after looking at the first loads; -1 also stands for "none yet". */
  datatype Scan = Scan(min: int, at: Option<nat>)

  function ScanLoads(loads: seq<int>): Scan {
    if loads == [] then Scan(-1, None)
    else
      var last := |loads| - 1;
      var s := ScanLoads(loads[..last]);
      if s.min == -1 || loads[last] < s.min then Scan(loads[last], Some(last)) else s
  }

  lemma {:induction false} ScanTakesALoad(loads: seq<int>)
    requires loads != []
    ensures var s := ScanLoads(loads); s.at.Some? && s.at.value < |loads| && loads[s.at.value] == s.min
  {
    if |loads| > 1 {
      ScanTakesALoad(loads[..|loads| - 1]);
    }
  }

  predicate NoneBelow(loads: seq<int>, m: int) {
    forall i :: 0 <= i < |loads| ==> m <= loads[i]
  }

  lemma NoneBelowSnoc(loads: seq<int>, m: int)
    requires loads != []
    ensures NoneBelow(loads, m) <==> NoneBelow(loads[..|loads| - 1], m) && m <= loads[|loads| - 1]
  {
    assert forall i :: 0 <= i < |loads| - 1 ==> loads[i] == loads[..|loads| - 1][i];
  }

  /** The scan takes a smallest load, except that -1, its mark for nothing yet, is given up for whatever follows it. */
  lemma {:induction false} ScanFindsMinimumUnlessMinusOne(loads: seq<int>)
    requires loads != []
    ensures var s, last := ScanLoads(loads), loads[|loads| - 1];
            && (s.min == -1 <==> NoneBelow(loads, -1) && last == -1)
            && (NoneBelow(loads, s.min) <==> !(NoneBelow(loads, -1) && -1 in loads) || last == -1)
  {
    var last := |loads| - 1;
    var front := loads[..last];
    assert loads == front + [loads[last]];
    var s := ScanLoads(front);
    NoneBelowSnoc(loads, -1);
    NoneBelowSnoc(loads, ScanLoads(loads).min);
    if front != [] {
      ScanFindsMinimumUnlessMinusOne(front);
      ScanTakesALoad(front);
      MinimumBounds(front, s.min, loads[last]);
      hide NoneBelow;
    }
  }

  lemma MinimumBounds(loads: seq<int>, m: int, x: int)
    ensures NoneBelow(loads, m) && x <= m ==> NoneBelow(loads, x)
    ensures -1 in loads && NoneBelow(loads, m) ==> m <= -1
    ensures m in loads && NoneBelow(loads, -1) ==> m >= -1
    ensures m in loads && NoneBelow(loads, x) ==> x <= m
  {
  }

  lemma {:induction false} ScanTakesFirstMinimum(loads: seq<int>)
    requires loads != [] && forall i :: 0 <= i < |loads| ==> loads[i] >= 0
    ensures var s := ScanLoads(loads);
            && NoneBelow(loads, s.min) && s.at.Some? && s.at.value < |loads| && loads[s.at.value] == s.min
            && forall i :: 0 <= i < s.at.value ==> loads[i] > s.min
  {
    var last := |loads| - 1;
    var front := loads[..last];
    assert loads == front + [loads[last]];
    if front != [] {
      ScanTakesFirstMinimum(front);
    }
  }

  // ---- Selecting and counting up keeps the loads level ----

  function Sum(loads: seq<int>): int {
    if loads == [] then 0 else Sum(loads[..|loads| - 1]) + loads[|loads| - 1]
  }

  predicate Level(loads: seq<int>) {
    && (forall i :: 0 <= i < |loads| ==> loads[i] >= 0)
    && (forall i, j :: 0 <= i < |loads| && 0 <= j < |loads| ==> loads[i] <= loads[j] + 1)
  }

  function SelectAndCount(loads: seq<int>): seq<int> {
    var s := ScanLoads(loads);
    if s.at.Some? && s.at.value < |loads| then loads[s.at.value := loads[s.at.value] + 1] else loads
  }

  function Zeros(n: nat): seq<int> {
    seq(n, i => 0)
  }

  function AfterSelections(n: nat, k: nat): seq<int> {
    if k == 0 then Zeros(n) else SelectAndCount(AfterSelections(n, k - 1))
  }

  lemma {:induction false} SumUpdate(loads: seq<int>, i: nat, x: int)
    requires i < |loads|
    ensures Sum(loads[i := x]) == Sum(loads) - loads[i] + x
  {
    var last := |loads| - 1;
    if i == last {
      assert loads[i := x][..last] == loads[..last];
    } else {
      SumUpdate(loads[..last], i, x);
      assert loads[i := x][..last] == loads[..last][i := x];
    }
  }

  lemma {:induction false} SumZeros(n: nat)
    ensures Sum(Zeros(n)) == 0
  {
    if n > 0 {
      SumZeros(n - 1);
      assert Zeros(n)[..n - 1] == Zeros(n - 1);
    }
  }

  lemma SelectionKeepsLevel(loads: seq<int>)
    requires loads != [] && Level(loads)
    ensures var after := SelectAndCount(loads);
            |after| == |loads| && Level(after) && Sum(after) == Sum(loads) + 1
  {
    ScanTakesFirstMinimum(loads);
    var i := ScanLoads(loads).at.value;
    SumUpdate(loads, i, loads[i] + 1);
    hide ScanLoads;
    hide Sum;
  }

  lemma {:induction false} SelectionsStayLevel(n: nat, k: nat)
    requires n > 0
    ensures var loads := AfterSelections(n, k); |loads| == n && Level(loads) && Sum(loads) == k
  {
    if k == 0 {
      SumZeros(n);
    } else {
      hide Sum;
      hide Level;
      hide SelectAndCount;
      SelectionsStayLevel(n, k - 1);
      SelectionKeepsLevel(AfterSelections(n, k - 1));
    }
  }

  lemma OneMoreLoad(n: nat, p: int)
    ensures Rounds(n + 1, p) == Rounds(n, p) + p && Rounds(0, p) == 0
  {
  }

  lemma {:induction false} SumOfLevel(loads: seq<int>, m: int)
    requires forall i :: 0 <= i < |loads| ==> m - 1 <= loads[i] <= m + 1
    ensures Rounds(|loads|, m - 1) <= Sum(loads) <= Rounds(|loads|, m + 1)
  {
    OneMoreLoad(0, m - 1);
    OneMoreLoad(0, m + 1);
    if loads != [] {
      var last := |loads| - 1;
      OneMoreLoad(last, m - 1);
      OneMoreLoad(last, m + 1);
      hide Rounds;
      SumOfLevel(loads[..last], m);
    }
  }

  /** The same with the j-th load replaced by another within the bounds. */
  lemma SumWithOther(loads: seq<int>, m: int, j: nat, x: int)
    requires forall i :: 0 <= i < |loads| ==> m - 1 <= loads[i] <= m + 1
    requires j < |loads| && m - 1 <= x <= m + 1
    ensures Rounds(|loads|, m - 1) <= Sum(loads) - loads[j] + x <= Rounds(|loads|, m + 1)
  {
    SumUpdate(loads, j, x);
    hide Rounds;
    hide Sum;
    SumOfLevel(loads[j := x], m);
  }

  /** In level loads the sum is within n of n times each load. */
  lemma LevelSum(loads: seq<int>, j: nat)
    requires Level(loads) && j < |loads|
    ensures Rounds(|loads|, loads[j] - 1) < Sum(loads) < Rounds(|loads|, loads[j] + 1)
  {
    var m := loads[j];
    assert forall i :: 0 <= i < |loads| ==> loads[i] <= m + 1 && m <= loads[i] + 1;
    hide *;
    SumWithOther(loads, m, j, m - 1);
    SumWithOther(loads, m, j, m + 1);
  }

  /** After k select-and-count steps from zero each of n loads is k / n, rounded down or up. */
  lemma LoadsAreFair(n: nat, k: nat, j: nat)
    requires j < n
    ensures |AfterSelections(n, k)| == n
    ensures FairShare(AfterSelections(n, k)[j], k, n)
  {
    SelectionsStayLevel(n, k);
    var loads := AfterSelections(n, k);
    LevelSum(loads, j);
    hide Level;
    hide Sum;
    hide AfterSelections;
    assert Rounds(n, loads[j] - 1) == n * (loads[j] - 1) && Rounds(n, loads[j] + 1) == n * (loads[j] + 1);
  }

  // ---- Selections that overlap ----

  /** A round-robin selection reads the counter in one step and adds to it in another. */
  datatype Turn = Load | Advance

  /** Every advance belongs to an earlier load. */
  predicate Possible(turns: seq<Turn>, loaded: nat)
    decreases |turns|
  {
    if turns == [] then true
    else if turns[0].Load? then Possible(turns[1..], loaded + 1)
    else loaded > 0 && Possible(turns[1..], loaded - 1)
  }

  /** No selection reads the counter before the one before it has advanced it. */
  predicate OneByOne(turns: seq<Turn>)
    decreases |turns|
  {
    |turns| <= 1 || (turns[1].Advance? && OneByOne(turns[2..]))
  }

  /** The indices picked of n, from counter c on. */
  function Picked(c: nat, turns: seq<Turn>, n: nat): seq<nat>
    requires n > 0
    decreases |turns|
  {
    if turns == [] then []
    else if turns[0].Load? then [c % n] + Picked(c, turns[1..], n)
    else Picked(c + 1, turns[1..], n)
  }

  /** Every index gets its share of every stretch of picks. */
  ghost predicate AlwaysFair(picks: seq<nat>, n: nat) {
    forall i, k, j: nat :: 0 <= i <= k <= |picks| && j < n ==> FairShare(multiset(picks[i..k])[j], k - i, n)
  }

  /** The next k indices of the cycle. */
  function Cycle(c: nat, k: nat, n: nat): seq<nat>
    requires n > 0
  {
    seq(k, i requires 0 <= i < k => (c + i) % n)
  }

  lemma CycleCons(c: nat, k: nat, n: nat)
    requires n > 0
    ensures [c % n] + Cycle(c + 1, k, n) == Cycle(c, k + 1, n)
  {
    var all, rest := Cycle(c, k + 1, n), Cycle(c + 1, k, n);
    assert all[0] == (c + 0) % n;
    forall i | 0 <= i < k
      ensures rest[i] == all[i + 1]
    {
      assert (c + 1) + i == c + (i + 1);
    }
  }

  lemma CycleWindow(c: nat, k: nat, n: nat, from: nat, to: nat)
    requires n > 0 && from <= to <= k
    ensures Cycle(c, k, n)[from..to] == Cycle(c + from, to - from, n)
  {
    forall i | 0 <= i < to - from
      ensures Cycle(c, k, n)[from..to][i] == Cycle(c + from, to - from, n)[i]
    {
      assert c + (from + i) == (c + from) + i;
    }
  }

  /** How often an index stands in a stretch of the cycle. */
  lemma {:induction false} CycleCounts(c: nat, k: nat, n: nat, j: nat)
    requires n > 0 && j < n
    ensures multiset(Cycle(c, k, n))[j] == Picks(c, k, n, j)
    decreases k
  {
    if k > 0 {
      CycleCounts(c, k - 1, n, j);
      assert Cycle(c, k, n) == Cycle(c, k - 1, n) + [(c + k - 1) % n];
    }
  }

  /** Selections one by one pick along the cycle. */
  lemma {:induction false} OneByOneFollowsCycle(c: nat, turns: seq<Turn>, n: nat)
    requires n > 0 && OneByOne(turns) && Possible(turns, 0)
    ensures Picked(c, turns, n) == Cycle(c, |Picked(c, turns, n)|, n)
    decreases |turns|
  {
    if turns == [] {
      assert Picked(c, turns, n) == Cycle(c, 0, n);
    } else {
      var rest := turns[1..];
      CycleCons(c, 0, n);
      assert Cycle(c + 1, 0, n) == [];
      if rest == [] {
        assert Picked(c, turns, n) == [c % n];
      } else {
        assert rest[1..] == turns[2..] && Possible(turns[2..], 0);
        OneByOneFollowsCycle(c + 1, turns[2..], n);
        CycleCons(c, |Picked(c + 1, turns[2..], n)|, n);
        hide Cycle;
      }
    }
  }

  lemma CycleIsFair(c: nat, k: nat, n: nat)
    requires n > 0
    ensures AlwaysFair(Cycle(c, k, n), n)
  {
    hide FairShare;
    var picks := Cycle(c, k, n);
    forall i, l, j: nat | 0 <= i <= l <= |picks| && j < n
      ensures FairShare(multiset(picks[i..l])[j], l - i, n)
    {
      CycleWindow(c, k, n, i, l);
      CycleCounts(c + i, l - i, n, j);
      PicksAreFair(c + i, l - i, n, j);
    }
  }

  /** Two selections that read the counter before either advances it pick the same index. */
  lemma {:induction false} OverlapRepeatsPick(c: nat, turns: seq<Turn>, n: nat) returns (i: nat)
    requires n > 0 && !OneByOne(turns) && Possible(turns, 0)
    ensures i + 1 < |Picked(c, turns, n)| && Picked(c, turns, n)[i] == Picked(c, turns, n)[i + 1]
    decreases |turns|
  {
    var rest := turns[1..];
    if rest[0].Load? {
      i := 0;
    } else {
      assert rest[1..] == turns[2..] && Possible(turns[2..], 0);
      var later := OverlapRepeatsPick(c + 1, turns[2..], n);
      i := later + 1;
    }
  }

  lemma RepeatIsUnfair(picks: seq<nat>, n: nat, i: nat)
    requires n > 1 && i + 1 < |picks| && picks[i] == picks[i + 1] && picks[i] < n
    ensures !AlwaysFair(picks, n)
  {
    var j := picks[i];
    assert picks[i..i + 2] == [j, j];
    assert multiset(picks[i..i + 2])[j] == 2;
    assert !FairShare(2, 2, n);
  }

  lemma {:induction false} PickedBelow(c: nat, turns: seq<Turn>, n: nat)
    requires n > 0
    ensures forall i :: 0 <= i < |Picked(c, turns, n)| ==> Picked(c, turns, n)[i] < n
    decreases |turns|
  {
    if turns != [] {
      PickedBelow(if turns[0].Load? then c else c + 1, turns[1..], n);
    }
  }

  lemma {:induction false} OneIsFair(picks: seq<nat>)
    requires forall i :: 0 <= i < |picks| ==> picks[i] == 0
    ensures multiset(picks)[0] == |picks|
  {
    if picks != [] {
      assert picks == picks[..|picks| - 1] + [0];
      OneIsFair(picks[..|picks| - 1]);
    }
  }

  /**
   Of all ways in which selections can overlap, exactly those give every one of
   n workers its share of every stretch of selections in which each selection
   advances the counter before the next one reads it; a single worker always
   gets its share.
   */
  lemma FairExactlyWhenOneByOne(c: nat, turns: seq<Turn>, n: nat)
    requires n > 0 && Possible(turns, 0)
    ensures AlwaysFair(Picked(c, turns, n), n) <==> n == 1 || OneByOne(turns)
  {
    var picks := Picked(c, turns, n);
    PickedBelow(c, turns, n);
    if OneByOne(turns) {
      OneByOneFollowsCycle(c, turns, n);
      CycleIsFair(c, |picks|, n);
    } else if n == 1 {
      forall i, k, j: nat | 0 <= i <= k <= |picks| && j < n
        ensures FairShare(multiset(picks[i..k])[j], k - i, n)
      {
        OneIsFair(picks[i..k]);
      }
    } else {
      var i := OverlapRepeatsPick(c, turns, n);
      RepeatIsUnfair(picks, n, i);
    }
  }

  /** Every advance belongs to an earlier load, and no load is left over. */
  predicate Paired(turns: seq<Turn>, loaded: nat)
    decreases |turns|
  {
    if turns == [] then loaded == 0
    else if turns[0].Load? then Paired(turns[1..], loaded + 1)
    else loaded > 0 && Paired(turns[1..], loaded - 1)
  }

  /** No pick is of another index than j. */
  predicate OnlyPicks(picks: seq<nat>, j: nat) {
    forall i :: 0 <= i < |picks| ==> picks[i] == j
  }

  /** m loads in a row read the same counter. */
  lemma {:induction false} LoadTogether(c: nat, n: nat, m: nat, loaded: nat, rest: seq<Turn>)
    requires n > 0 && Paired(rest, loaded + m) && OnlyPicks(Picked(c, rest, n), c % n)
    ensures var turns := seq(m, i => Load) + rest;
            && Paired(turns, loaded)
            && OnlyPicks(Picked(c, turns, n), c % n) && |Picked(c, turns, n)| == m + |Picked(c, rest, n)|
    decreases m
  {
    var turns := seq(m, i => Load) + rest;
    if m == 0 {
      assert turns == rest;
    } else {
      assert turns[1..] == seq(m - 1, i => Load) + rest;
      LoadTogether(c, n, m - 1, loaded + 1, rest);
    }
  }

  lemma {:induction false} AdvanceTogether(c: nat, n: nat, m: nat, rest: seq<Turn>)
    requires n > 0 && Paired(rest, 0)
    ensures var turns := seq(m, i => Advance) + rest;
            Paired(turns, m) && Picked(c, turns, n) == Picked(c + m, rest, n)
    decreases m
  {
    var turns := seq(m, i => Advance) + rest;
    if m == 0 {
      assert turns == rest;
    } else {
      assert turns[1..] == seq(m - 1, i => Advance) + rest;
      AdvanceTogether(c + 1, n, m - 1, rest);
    }
  }

  /**
   Fairness is lost when selections overlap: if n of them always read the
   counter together, all of their selections, however many, pick the same one
   of n workers.
   */
  lemma {:induction false} OverlappingSelectionsStarve(c: nat, n: nat, k: nat) returns (turns: seq<Turn>)
    requires n > 0
    ensures Paired(turns, 0)
    ensures |Picked(c, turns, n)| == Rounds(n, k) && OnlyPicks(Picked(c, turns, n), c % n)
    decreases k
  {
    if k == 0 {
      turns := [];
      OneMoreRound(n, 0);
    } else {
      var rest := OverlappingSelectionsStarve(c + n, n, k - 1);
      assert c + n == n * (c / n + 1) + c % n;
      ModUnique(c + n, n, c / n + 1, c % n);
      OneMoreRound(n, k - 1);
      hide Rounds;
      AdvanceTogether(c, n, n, rest);
      var advances := seq(n, i => Advance) + rest;
      LoadTogether(c, n, n, 0, advances);
      turns := seq(n, i => Load) + advances;
    }
  }
}
