/**
 * The Thompson-sampling bandit that chooses the next worker: one arm per worker with its
 * success and failure weights, an adaptive step `diff`, and the reward schedules applied
 * after a round. The Beta draws are an input; all weights are exact rationals.
 */
module Thompson {
  import opened Wrappers
  import opened Sorting

  /**
   * One arm (`fuzzer`). The constructor never sets `diff`: it is `None` until the caller
   * supplies one, and reading it before then raises `AttributeError`.
   */
  datatype Arm = Arm(S: real, F: real, prob: real, totalRunTime: real, score: real, diff: Option<real>)

  /** `fuzzer()`: one success and one failure, no score, no run time. */
  const NewArm: Arm := Arm(1.0, 1.0, 0.0, 0.0, 0.0, None)

  /** The dictionary of arms, keyed by worker name, with its iteration order. */
  datatype Bandit = Bandit(order: seq<string>, arms: map<string, Arm>)

  ghost predicate Distinct(s: seq<string>) {
    forall i, j :: 0 <= i < j < |s| ==> s[i] != s[j]
  }

  ghost predicate Valid(b: Bandit) {
    && Distinct(b.order)
    && forall f :: f in b.arms <==> f in b.order
  }

  // ----- selection -----

  /** Python's `max(keys, key=p)`: the first index whose value is maximal. */
  function FirstMax(order: seq<string>, p: string -> real): (i: nat)
    requires |order| > 0
    ensures i < |order|
    ensures forall k :: 0 <= k < |order| ==> p(order[k]) <= p(order[i])
    ensures forall k :: 0 <= k < i ==> p(order[k]) < p(order[i])
    decreases |order|
  {
    if |order| == 1 then 0
    else
      var j := FirstMax(order[1..], p) + 1;
      assert forall k :: 1 <= k < |order| ==> order[k] == order[1..][k - 1];
      if p(order[0]) >= p(order[j]) then 0 else j
  }

  /** The first maximal index is the only index with those two properties. */
  lemma FirstMaxUnique(order: seq<string>, p: string -> real, i: nat)
    requires i < |order|
    requires forall k :: 0 <= k < |order| ==> p(order[k]) <= p(order[i])
    requires forall k :: 0 <= k < i ==> p(order[k]) < p(order[i])
    ensures FirstMax(order, p) == i
  {
  }

  /**
   * `selectFuzzer`: every arm takes its draw as its probability, and the first worker
   * with the highest probability is chosen; `max` of an empty dictionary raises.
   */
  function SelectFuzzer(b: Bandit, draw: string -> real): (r: Result<(Bandit, string)>)
    requires Valid(b)
    ensures r.Err? <==> |b.order| == 0
    ensures r.Err? ==> r.error == ValueError
    ensures r.Ok? ==> var (b', f) := r.value;
      && b'.order == b.order && b'.arms.Keys == b.arms.Keys
      && (forall g :: g in b.arms ==> b'.arms[g] == b.arms[g].(prob := draw(g)))
      && f in b.arms
      && (forall g :: g in b'.arms ==> b'.arms[g].prob <= b'.arms[f].prob)
  {
    var arms := map g | g in b.arms :: b.arms[g].(prob := draw(g));
    if |b.order| == 0 then Err(ValueError)
    else Ok((b.(arms := arms), b.order[FirstMax(b.order, draw)]))
  }

  /** Ties go to the worker that comes first in the dictionary. */
  lemma SelectFuzzerFirst(b: Bandit, draw: string -> real, k: nat)
    requires Valid(b) && |b.order| > 0
    requires k < |b.order| && draw(b.order[k]) == draw(SelectFuzzer(b, draw).value.1)
    ensures exists i :: 0 <= i <= k && b.order[i] == SelectFuzzer(b, draw).value.1
  {
  }

  // ----- updates after a round -----

  /** One update with the adaptive step: a success adds `diff` to S and halves it, a failure adds it to F and grows it by one. */
  function Step(a: Arm, success: bool): (a': Arm)
    requires a.diff.Some?
    ensures a'.diff.Some?
    ensures a'.prob == a.prob && a'.score == a.score && a'.totalRunTime == a.totalRunTime
  {
    var d := a.diff.value;
    if success then a.(S := a.S + d, diff := Some(d * 0.5))
    else a.(F := a.F + d, diff := Some(d + 1.0))
  }

  /**
   * `updateFuzzerCount`: the update applied to each named arm in turn. An unknown name
   * raises `KeyError` and an arm without `diff` raises `AttributeError`; the arms updated
   * before stay updated.
   */
  function UpdateCount(b: Bandit, selected: seq<string>, criteria: int): (o: Outcome<Bandit>)
    ensures o.state.order == b.order && o.state.arms.Keys == b.arms.Keys
    ensures forall f :: f in b.arms && f !in selected ==> o.state.arms[f] == b.arms[f]
    ensures forall f :: f in b.arms ==>
      o.state.arms[f].prob == b.arms[f].prob && o.state.arms[f].score == b.arms[f].score
      && o.state.arms[f].totalRunTime == b.arms[f].totalRunTime
    ensures o.Raised? ==> o.exc == KeyError || o.exc == AttributeError
    decreases |selected|
  {
    if |selected| == 0 then Done(b)
    else
      var f := selected[0];
      if f !in b.arms then Raised(b, KeyError)
      else if b.arms[f].diff.None? then Raised(b, AttributeError)
      else
        assert forall g :: g !in selected ==> g != f && g !in selected[1..];
        UpdateCount(b.(arms := b.arms[f := Step(b.arms[f], criteria == 1)]), selected[1..], criteria)
  }

  /** `n` updates of one arm. */
  function Repeat(a: Arm, n: nat, success: bool): (a': Arm)
    requires a.diff.Some?
    ensures a'.diff.Some?
    decreases n
  {
    if n == 0 then a else Repeat(Step(a, success), n - 1, success)
  }

  /** How many times `f` is named. */
  function Occurrences(s: seq<string>, f: string): nat
    decreases |s|
  {
    if |s| == 0 then 0 else (if s[0] == f then 1 else 0) + Occurrences(s[1..], f)
  }

  ghost predicate Updatable(arms: map<string, Arm>, selected: seq<string>) {
    forall k :: 0 <= k < |selected| ==> selected[k] in arms && arms[selected[k]].diff.Some?
  }

  /**
   * With every named arm present and carrying a `diff`, the update completes, and each
   * arm ends as if updated once for every time it is named.
   */
  lemma UpdateCountRepeats(b: Bandit, selected: seq<string>, criteria: int)
    requires Updatable(b.arms, selected)
    ensures var o := UpdateCount(b, selected, criteria);
      && o.Done?
      && forall f :: f in b.arms && b.arms[f].diff.Some? ==>
           o.state.arms[f] == Repeat(b.arms[f], Occurrences(selected, f), criteria == 1)
  {
    forall f | f in b.arms && b.arms[f].diff.Some?
      ensures UpdateCount(b, selected, criteria).state.arms[f] == Repeat(b.arms[f], Occurrences(selected, f), criteria == 1)
    {
      UpdateCountArm(b, selected, criteria, f);
    }
    UpdateCountDone(b, selected, criteria);
  }

  /** With every named arm present and carrying a `diff`, the update completes. */
  lemma {:induction false} UpdateCountDone(b: Bandit, selected: seq<string>, criteria: int)
    requires Updatable(b.arms, selected)
    ensures UpdateCount(b, selected, criteria).Done?
    decreases |selected|
  {
    if |selected| > 0 {
      var g := selected[0];
      UpdatableTail(b.arms, selected, Step(b.arms[g], criteria == 1));
      UpdateCountDone(b.(arms := b.arms[g := Step(b.arms[g], criteria == 1)]), selected[1..], criteria);
    }
  }

  /** One arm at a time: arm `f` is stepped once per time it is named. */
  lemma {:induction false} UpdateCountArm(b: Bandit, selected: seq<string>, criteria: int, f: string)
    requires Updatable(b.arms, selected) && f in b.arms && b.arms[f].diff.Some?
    ensures UpdateCount(b, selected, criteria).state.arms[f] == Repeat(b.arms[f], Occurrences(selected, f), criteria == 1)
    decreases |selected|
  {
    if |selected| > 0 {
      var g := selected[0];
      var b1 := b.(arms := b.arms[g := Step(b.arms[g], criteria == 1)]);
      UpdatableTail(b.arms, selected, Step(b.arms[g], criteria == 1));
      UpdateCountArm(b1, selected[1..], criteria, f);
      var k := Occurrences(selected[1..], f);
      if f == g {
        assert Occurrences(selected, f) == k + 1;
        assert Repeat(b.arms[f], k + 1, criteria == 1) == Repeat(b1.arms[f], k, criteria == 1);
      } else {
        assert Occurrences(selected, f) == k;
        assert b1.arms[f] == b.arms[f];
      }
    }
  }

  /** Replacing the first named arm by one with a `diff` leaves the rest of the selection updatable. */
  lemma UpdatableTail(arms: map<string, Arm>, selected: seq<string>, a: Arm)
    requires Updatable(arms, selected) && |selected| > 0 && a.diff.Some?
    ensures Updatable(arms[selected[0] := a], selected[1..])
  {
    var arms1 := arms[selected[0] := a];
    forall k | 0 <= k < |selected[1..]| ensures selected[1..][k] in arms1 && arms1[selected[1..][k]].diff.Some? {
      var x := selected[k + 1];
      assert selected[1..][k] == x;
      assert x in arms && arms[x].diff.Some?;
    }
  }

  /** Naming an arm without a `diff` (as every new arm is) raises before anything changes. */
  lemma NewArmCannotUpdate(b: Bandit, f: string, criteria: int)
    requires f in b.arms && b.arms[f] == NewArm
    ensures UpdateCount(b, [f], criteria) == Raised(b, AttributeError)
  {
  }

  /** With a positive step, the step stays positive and neither weight ever decreases. */
  lemma {:induction false} RepeatMonotone(a: Arm, n: nat, success: bool)
    requires a.diff.Some? && a.diff.value > 0.0
    ensures var a' := Repeat(a, n, success);
      a'.diff.value > 0.0 && a'.S >= a.S && a'.F >= a.F
    decreases n
  {
    if n > 0 {
      RepeatMonotone(Step(a, success), n - 1, success);
    }
  }

  /** 2 to the power `-n`. */
  function Half(n: nat): (h: real)
    ensures 0.0 < h <= 1.0
  {
    if n == 0 then 1.0 else Half(n - 1) * 0.5
  }

  /** After `n` successes the step is `diff / 2^n` and S has grown by `2 diff (1 - 2^-n)`; F is unchanged. */
  lemma {:induction false} RepeatSuccess(a: Arm, n: nat)
    requires a.diff.Some?
    ensures var a' := Repeat(a, n, true);
      var d := a.diff.value;
      a'.diff.value == d * Half(n) && a'.S == a.S + 2.0 * d * (1.0 - Half(n)) && a'.F == a.F
    decreases n
  {
    if n > 0 {
      var a1 := Step(a, true);
      RepeatSuccessTail(a, n);
    }
  }

  lemma {:induction false} RepeatSuccessTail(a: Arm, n: nat)
    requires a.diff.Some? && n > 0
    ensures var a' := Repeat(a, n, true);
      var d := a.diff.value;
      a'.diff.value == d * Half(n) && a'.S == a.S + 2.0 * d * (1.0 - Half(n)) && a'.F == a.F
    decreases n, 0
  {
    var d := a.diff.value;
    var a' := Repeat(a, n, true);
    if n == 1 {
      assert a' == Step(a, true);
    } else {
      assert Repeat(a, n, true) == Repeat(Step(a, true), n - 1, true);
      RepeatSuccessTail(Step(a, true), n - 1);
      var h := Half(n - 1);
      assert Half(n) == h * 0.5;
      assert a'.S == a.S + d + 2.0 * (d * 0.5) * (1.0 - h);
    }
  }

  /** After `n` failures the step has grown by `n` and F by `n diff + n(n-1)/2`; S is unchanged. */
  lemma {:induction false} RepeatFailure(a: Arm, n: nat)
    requires a.diff.Some?
    ensures var a' := Repeat(a, n, false);
      var d := a.diff.value;
      a'.diff.value == d + n as real && a'.F == a.F + (n as real) * d + ((n * (n - 1)) / 2) as real && a'.S == a.S
    decreases n
  {
    if n > 0 {
      var d := a.diff.value;
      var m := n - 1;
      var b := Step(a, false);
      assert Repeat(a, n, false) == Repeat(b, m, false);
      RepeatFailure(b, m);
      assert (m as real) * (d + 1.0) == (m as real) * d + m as real;
      assert (n as real) * d == (m as real) * d + d;
      assert (n * (n - 1)) / 2 == (m * (m - 1)) / 2 + m by {
        assert n * (n - 1) == m * (m - 1) + 2 * m;
      }
    }
  }

  /** The worked example: S = 1 and diff = 1 with three successes give S = 2, 2.5, 2.75 and diff = 0.5, 0.25, 0.125. */
  lemma ThreeSuccesses()
    ensures var a := NewArm.(diff := Some(1.0));
      && Repeat(a, 1, true).S == 2.0 && Repeat(a, 1, true).diff == Some(0.5)
      && Repeat(a, 2, true).S == 2.5 && Repeat(a, 2, true).diff == Some(0.25)
      && Repeat(a, 3, true).S == 2.75 && Repeat(a, 3, true).diff == Some(0.125)
  {
    var a := NewArm.(diff := Some(1.0));
    assert Repeat(a, 1, true) == Step(a, true);
    assert Repeat(a, 2, true) == Step(Step(a, true), true);
    assert Repeat(a, 3, true) == Step(Step(Step(a, true), true), true);
  }

  /**
   * `updateFuzzerCountPrep`: the preparation-phase update adds exactly one to S on
   * success and to F otherwise, leaving `diff` alone; an unknown name raises.
   */
  function UpdateCountPrep(b: Bandit, f: string, criteria: int): (r: Result<Bandit>)
    ensures r.Err? <==> f !in b.arms
    ensures r.Err? ==> r.error == KeyError
    ensures r.Ok? ==> var b' := r.value;
      && b'.order == b.order && b'.arms.Keys == b.arms.Keys
      && (forall g :: g in b.arms && g != f ==> b'.arms[g] == b.arms[g])
      && b'.arms[f].S == b.arms[f].S + (if criteria == 1 then 1.0 else 0.0)
      && b'.arms[f].F == b.arms[f].F + (if criteria == 1 then 0.0 else 1.0)
      && b'.arms[f] == b.arms[f].(S := b'.arms[f].S, F := b'.arms[f].F)
  {
    if f !in b.arms then Err(KeyError)
    else
      var a := b.arms[f];
      Ok(b.(arms := b.arms[f := if criteria == 1 then a.(S := a.S + 1.0) else a.(F := a.F + 1.0)]))
  }

  /**
   * The preparation-phase update is the adaptive step taken with a step of one, except
   * that `diff` is left as it was (and need not exist).
   */
  lemma PrepIsUnitStep(b: Bandit, f: string, criteria: int)
    requires f in b.arms
    ensures UpdateCountPrep(b, f, criteria).value.arms[f]
         == Step(b.arms[f].(diff := Some(1.0)), criteria == 1).(diff := b.arms[f].diff)
  {
  }

  // ----- the rank reward -----

  /** The rewards (to S, to F) of the first three score groups. */
  const RankDeltas: seq<(real, real)> := [(19.0, 1.0), (10.0, 10.0), (1.0, 19.0)]

  /** The reward of the group at `idx`: none from the fourth group on. */
  function DeltaAt(idx: nat): (real, real) {
    if idx < |RankDeltas| then RankDeltas[idx] else (0.0, 0.0)
  }

  function AddDelta(a: Arm, d: (real, real)): Arm {
    a.(S := a.S + d.0, F := a.F + d.1)
  }

  function ScoreOf(arms: map<string, Arm>): string -> real {
    f => if f in arms then arms[f].score else 0.0
  }

  /** The sort key of `sorted(..., reverse=True)`: ascending on the negated score, which keeps ties in order. */
  function NegScore(arms: map<string, Arm>): string -> real {
    f => if f in arms then -arms[f].score else 0.0
  }

  /** The worker names, highest score first, ties in dictionary order. */
  function Ranked(b: Bandit): seq<string> {
    SortBy(b.order, NegScore(b.arms))
  }

  function Flatten(gs: seq<seq<string>>): seq<string>
    decreases |gs|
  {
    if |gs| == 0 then [] else gs[0] + Flatten(gs[1..])
  }

  /** Consecutive runs of equal scores, in order. */
  function Groups(s: seq<string>, sc: string -> real): (gs: seq<seq<string>>)
    requires |s| > 0
    ensures |gs| > 0 && |gs[0]| > 0 && Flatten(gs) == s
    decreases |s|
  {
    if |s| == 1 then
      assert Flatten([[s[0]]]) == [s[0]] + Flatten([]);
      [[s[0]]]
    else
      var g := Groups(s[1..], sc);
      if sc(s[0]) == sc(s[1]) then
        var gs := [[s[0]] + g[0]] + g[1..];
        assert gs[1..] == g[1..];
        assert Flatten(g) == g[0] + Flatten(g[1..]);
        gs
      else
        var gs := [[s[0]]] + g;
        assert gs[1..] == g;
        gs
  }

  /**
   * Runs of equal scores: no group is empty, all members of a group share its first
   * member's score, and the last member of a group and the first of the next differ in score.
   */
  ghost predicate Runs(gs: seq<seq<string>>, sc: string -> real) {
    && (forall k :: 0 <= k < |gs| ==> |gs[k]| > 0)
    && (forall k, i :: 0 <= k < |gs| && 0 <= i < |gs[k]| ==> sc(gs[k][i]) == sc(gs[k][0]))
    && (forall k :: 0 <= k < |gs| - 1 ==> sc(gs[k][|gs[k]| - 1]) != sc(gs[k + 1][0]))
  }

  /** The groups of a ranking are exactly its maximal runs of equal scores. */
  lemma {:induction false} GroupsRuns(s: seq<string>, sc: string -> real)
    requires |s| > 0
    ensures Runs(Groups(s, sc), sc)
    decreases |s|
  {
    if |s| > 1 {
      var g := Groups(s[1..], sc);
      GroupsRuns(s[1..], sc);
      assert Flatten(g) == g[0] + Flatten(g[1..]);
      assert g[0][0] == s[1];
      if sc(s[0]) == sc(s[1]) {
        RunsMerge(s[0], g, sc);
      } else {
        RunsSplit(s[0], g, sc);
      }
    }
  }

  /** A member scoring like the first group joins it. */
  lemma RunsMerge(x: string, g: seq<seq<string>>, sc: string -> real)
    requires Runs(g, sc) && |g| > 0 && sc(x) == sc(g[0][0])
    ensures Runs([[x] + g[0]] + g[1..], sc)
  {
    var gs := [[x] + g[0]] + g[1..];
    assert forall k :: 1 <= k < |gs| ==> gs[k] == g[k];
    assert forall i :: 1 <= i < |gs[0]| ==> gs[0][i] == g[0][i - 1];
  }

  /** A member scoring unlike the first group starts a group of its own. */
  lemma RunsSplit(x: string, g: seq<seq<string>>, sc: string -> real)
    requires Runs(g, sc) && |g| > 0 && sc(x) != sc(g[0][0])
    ensures Runs([[x]] + g, sc)
  {
    var gs := [[x]] + g;
    assert forall k :: 1 <= k < |gs| ==> gs[k] == g[k - 1];
  }

  /** Adds the reward `d` to each named arm. */
  function Bump(arms: map<string, Arm>, g: seq<string>, d: (real, real)): (arms': map<string, Arm>)
    requires forall k :: 0 <= k < |g| ==> g[k] in arms
    ensures arms'.Keys == arms.Keys
    decreases |g|
  {
    if |g| == 0 then arms else Bump(arms[g[0] := AddDelta(arms[g[0]], d)], g[1..], d)
  }

  /** The groups in turn take the rewards of their rank, stopping after the third. */
  function ApplyGroups(arms: map<string, Arm>, gs: seq<seq<string>>, idx: nat): (arms': map<string, Arm>)
    requires forall x :: x in Flatten(gs) ==> x in arms
    ensures arms'.Keys == arms.Keys
    decreases |gs|
  {
    if |gs| == 0 || idx >= |RankDeltas| then arms
    else
      assert Flatten(gs) == gs[0] + Flatten(gs[1..]);
      ApplyGroups(Bump(arms, gs[0], RankDeltas[idx]), gs[1..], idx + 1)
  }

  /**
   * `rankFuzzer`: sort the workers by score, highest first, group equal scores and give the
   * first three groups their rewards. `ranked[0]` of an empty dictionary raises.
   */
  function RankFuzzer(b: Bandit): (r: Result<Bandit>)
    requires Valid(b)
    ensures r.Err? <==> |b.order| == 0
    ensures r.Err? ==> r.error == IndexError
    ensures r.Ok? ==> r.value.order == b.order && r.value.arms.Keys == b.arms.Keys
  {
    if |b.order| == 0 then Err(IndexError)
    else
      var ranked := Ranked(b);
      assert multiset(ranked) == multiset(b.order);
      assert forall x :: x in ranked ==> x in multiset(b.order);
      Ok(b.(arms := ApplyGroups(b.arms, Groups(ranked, ScoreOf(b.arms)), 0)))
  }

  // ----- what the rank reward gives each arm -----

  /** The distinct scores above `f`'s. */
  function Above(arms: map<string, Arm>, f: string): set<real>
    requires f in arms
  {
    set g | g in arms && arms[g].score > arms[f].score :: arms[g].score
  }

  /** The dense rank of an arm: how many distinct scores beat its own. */
  function DenseRank(arms: map<string, Arm>, f: string): nat
    requires f in arms
  {
    |Above(arms, f)|
  }

  /**
   * Each arm gains the reward of its dense rank, (19, 1), (10, 10) or (1, 19) for ranks
   * 0, 1 and 2 and nothing after; nothing else about any arm changes.
   */
  lemma RankFuzzerRewards(b: Bandit)
    requires Valid(b) && |b.order| > 0
    ensures var r := RankFuzzer(b);
      && r.Ok?
      && forall f :: f in b.arms ==> r.value.arms[f] == AddDelta(b.arms[f], DeltaAt(DenseRank(b.arms, f)))
  {
    var ranked := Ranked(b);
    var sc := ScoreOf(b.arms);
    assert multiset(ranked) == multiset(b.order);
    assert forall x :: x in ranked <==> x in b.arms by {
      forall x ensures x in ranked <==> x in b.arms {
        assert x in ranked <==> x in multiset(ranked);
        assert x in b.order <==> x in multiset(b.order);
      }
    }
    DistinctPerm(b.order, ranked);
    assert Descending(ranked, sc) by {
      forall i, j | 0 <= i < j < |ranked| ensures sc(ranked[i]) >= sc(ranked[j]) {
        assert NegScore(b.arms)(ranked[i]) <= NegScore(b.arms)(ranked[j]);
      }
    }
    forall f | f in b.arms ensures RankFuzzer(b).value.arms[f] == AddDelta(b.arms[f], DeltaAt(DenseRank(b.arms, f))) {
      RankOne(b, ranked, f);
    }
  }

  lemma RankOne(b: Bandit, ranked: seq<string>, f: string)
    requires Valid(b) && |b.order| > 0 && ranked == Ranked(b) && f in b.arms
    requires forall x :: x in ranked <==> x in b.arms
    requires Distinct(ranked) && Descending(ranked, ScoreOf(b.arms))
    ensures RankFuzzer(b).value.arms[f] == AddDelta(b.arms[f], DeltaAt(DenseRank(b.arms, f)))
  {
    RankOneApplies(b, ranked, f);
    RankOneGroup(ranked, b.arms, f);
  }

  /** The reward an arm receives is the one of the group it falls in. */
  lemma RankOneApplies(b: Bandit, ranked: seq<string>, f: string)
    requires Valid(b) && |b.order| > 0 && ranked == Ranked(b) && f in ranked
    requires forall x :: x in ranked ==> x in b.arms
    requires Distinct(ranked)
    ensures f in Flatten(Groups(ranked, ScoreOf(b.arms)))
    ensures RankFuzzer(b).value.arms[f] == AddDelta(b.arms[f], DeltaAt(GroupOf(Groups(ranked, ScoreOf(b.arms)), f)))
  {
    ApplyGroupsAt(b.arms, ranked, ScoreOf(b.arms), f);
    RankFuzzerApplies(b, ranked);
  }

  /** Applying the groups of a ranking rewards a ranked arm by the index of its group. */
  lemma ApplyGroupsAt(arms: map<string, Arm>, ranked: seq<string>, sc: string -> real, f: string)
    requires f in ranked && Distinct(ranked)
    requires forall x :: x in ranked ==> x in arms
    ensures f in Flatten(Groups(ranked, sc))
    ensures ApplyGroups(arms, Groups(ranked, sc), 0)[f] == AddDelta(arms[f], DeltaAt(GroupOf(Groups(ranked, sc), f)))
  {
    var gs := Groups(ranked, sc);
    assert Flatten(gs) == ranked;
    ApplyGroupsEffect(arms, gs, 0, f);
  }

  /** The group an arm falls in is its dense rank. */
  lemma RankOneGroup(ranked: seq<string>, arms: map<string, Arm>, f: string)
    requires forall x :: x in ranked <==> x in arms
    requires f in arms && Descending(ranked, ScoreOf(arms))
    ensures f in Flatten(Groups(ranked, ScoreOf(arms)))
    ensures GroupOf(Groups(ranked, ScoreOf(arms)), f) == DenseRank(arms, f)
  {
    GroupsRank(ranked, ScoreOf(arms), f);
    RankSetIsAbove(ranked, arms, f);
  }

  /** A rank reward over a non-empty bandit applies the groups of its ranking. */
  lemma RankFuzzerApplies(b: Bandit, ranked: seq<string>)
    requires Valid(b) && |b.order| > 0 && ranked == Ranked(b) && |ranked| > 0
    requires forall x :: x in ranked ==> x in b.arms
    ensures RankFuzzer(b).value.arms == ApplyGroups(b.arms, Groups(ranked, ScoreOf(b.arms)), 0)
  {
  }

  /** The reward of rank `k` adds 20 to S + F for the first three ranks and (19, 1) at rank 0. */
  lemma DeltaTotals(a: Arm, k: nat)
    ensures AddDelta(a, DeltaAt(k)).score == a.score
    ensures AddDelta(a, DeltaAt(k)).S + AddDelta(a, DeltaAt(k)).F == a.S + a.F + (if k < 3 then 20.0 else 0.0)
    ensures k == 0 ==> AddDelta(a, DeltaAt(k)).S == a.S + 19.0 && AddDelta(a, DeltaAt(k)).F == a.F + 1.0
  {
  }

  /** Arms with equal scores get equal rewards. */
  lemma RankFuzzerEqualScores(b: Bandit, f: string, g: string)
    requires Valid(b) && |b.order| > 0
    requires f in b.arms && g in b.arms && b.arms[f].score == b.arms[g].score
    ensures var r := RankFuzzer(b).value;
      r.arms[f].S - b.arms[f].S == r.arms[g].S - b.arms[g].S && r.arms[f].F - b.arms[f].F == r.arms[g].F - b.arms[g].F
  {
    RankFuzzerRewards(b);
    assert Above(b.arms, f) == Above(b.arms, g);
  }

  /**
   * Every arm in the first three groups gains exactly 20 in S + F, every other arm gains
   * nothing, scores stay as they were, and a best-scoring arm gains (19, 1).
   */
  lemma RankFuzzerTwenty(b: Bandit, f: string)
    requires Valid(b) && |b.order| > 0 && f in b.arms
    ensures var r := RankFuzzer(b).value;
      && r.arms[f].score == b.arms[f].score
      && r.arms[f].S + r.arms[f].F == b.arms[f].S + b.arms[f].F + (if DenseRank(b.arms, f) < 3 then 20.0 else 0.0)
      && ((forall g :: g in b.arms ==> b.arms[g].score <= b.arms[f].score) ==>
            r.arms[f].S == b.arms[f].S + 19.0 && r.arms[f].F == b.arms[f].F + 1.0)
  {
    RankFuzzerRewards(b);
    var k := DenseRank(b.arms, f);
    DeltaTotals(b.arms[f], k);
    if forall g :: g in b.arms ==> b.arms[g].score <= b.arms[f].score {
      assert Above(b.arms, f) == {};
    }
  }

  // ----- the proof of the rank reward -----

  ghost predicate Descending(s: seq<string>, sc: string -> real) {
    forall i, j :: 0 <= i < j < |s| ==> sc(s[i]) >= sc(s[j])
  }

  /** The distinct scores in `s` above `f`'s. */
  function RankSet(s: seq<string>, sc: string -> real, f: string): set<real> {
    set i | 0 <= i < |s| && sc(s[i]) > sc(f) :: sc(s[i])
  }

  /** The index of the first group holding `f`. */
  function GroupOf(gs: seq<seq<string>>, f: string): nat
    requires f in Flatten(gs)
    decreases |gs|
  {
    assert Flatten(gs) == gs[0] + Flatten(gs[1..]);
    if f in gs[0] then 0 else 1 + GroupOf(gs[1..], f)
  }

  lemma RankSetCons(s: seq<string>, sc: string -> real, f: string)
    requires |s| > 0
    ensures RankSet(s, sc, f) == (if sc(s[0]) > sc(f) then {sc(s[0])} else {}) + RankSet(s[1..], sc, f)
  {
    var a, b := RankSet(s, sc, f), RankSet(s[1..], sc, f);
    forall v | v in a ensures v in (if sc(s[0]) > sc(f) then {sc(s[0])} else {}) + b {
      var i :| 0 <= i < |s| && sc(s[i]) > sc(f) && sc(s[i]) == v;
      if i > 0 { assert s[1..][i - 1] == s[i]; }
    }
    forall v | v in b ensures v in a {
      var i :| 0 <= i < |s[1..]| && sc(s[1..][i]) > sc(f) && sc(s[1..][i]) == v;
      assert s[i + 1] == s[1..][i];
    }
  }

  /** Nothing in a descending sequence beats its first element. */
  lemma RankSetOfFirst(s: seq<string>, sc: string -> real, f: string)
    requires Descending(s, sc) && |s| > 0 && sc(f) >= sc(s[0])
    ensures RankSet(s, sc, f) == {}
  {
  }

  /** In a descending sequence the group of an element is the number of distinct scores above its own. */
  lemma {:induction false} GroupsRank(s: seq<string>, sc: string -> real, f: string)
    requires |s| > 0 && Descending(s, sc) && f in s
    ensures GroupOf(Groups(s, sc), f) == |RankSet(s, sc, f)|
    decreases |s|
  {
    if |s| == 1 || f == s[0] {
      RankSetOfFirst(s, sc, f);
    } else {
      var t := s[1..];
      assert Descending(t, sc);
      assert f in t;
      GroupsRank(t, sc, f);
      RankSetCons(s, sc, f);
      AtMostFirst(t, sc, f);
      assert t[0] == s[1];
      assert GroupOf(Groups(t, sc), f) == |RankSet(t, sc, f)|;
      if sc(s[0]) == sc(s[1]) {
        GroupsRankMerge(s, sc, f);
      } else {
        HeadAboveRest(s, sc, f);
        GroupsRankSplit(s, sc, f);
      }
    }
  }

  /** Every element of a descending sequence scores at most its first. */
  lemma AtMostFirst(t: seq<string>, sc: string -> real, f: string)
    requires Descending(t, sc) && f in t
    ensures sc(t[0]) >= sc(f)
  {
    var k :| 0 <= k < |t| && t[k] == f;
  }

  /** The step of `GroupsRank` where the first element joins the next one's group. */
  lemma GroupsRankMerge(s: seq<string>, sc: string -> real, f: string)
    requires |s| > 1 && sc(s[0]) == sc(s[1]) && f != s[0] && f in s[1..]
    requires sc(s[1]) >= sc(f)
    requires GroupOf(Groups(s[1..], sc), f) == |RankSet(s[1..], sc, f)|
    requires RankSet(s, sc, f) == (if sc(s[0]) > sc(f) then {sc(s[0])} else {}) + RankSet(s[1..], sc, f)
    ensures GroupOf(Groups(s, sc), f) == |RankSet(s, sc, f)|
  {
    var t := s[1..];
    var g := Groups(t, sc);
    var gs := [[s[0]] + g[0]] + g[1..];
    assert Groups(s, sc) == gs;
    assert Flatten(g) == g[0] + Flatten(g[1..]);
    assert t[0] == s[1];
    if sc(s[0]) > sc(f) {
      assert sc(s[0]) in RankSet(t, sc, f);
    }
    assert RankSet(s, sc, f) == RankSet(t, sc, f);
    if f in g[0] {
      assert GroupOf(g, f) == 0;
      assert GroupOf(gs, f) == 0;
    } else {
      assert gs[1..] == g[1..];
      assert GroupOf(gs, f) == 1 + GroupOf(g[1..], f) == GroupOf(g, f);
    }
  }

  /** The step of `GroupsRank` where the first element forms a group of its own. */
  lemma GroupsRankSplit(s: seq<string>, sc: string -> real, f: string)
    requires |s| > 1 && sc(s[0]) != sc(s[1]) && f != s[0] && f in s[1..]
    requires sc(s[0]) > sc(f) && sc(s[0]) !in RankSet(s[1..], sc, f)
    requires GroupOf(Groups(s[1..], sc), f) == |RankSet(s[1..], sc, f)|
    requires RankSet(s, sc, f) == (if sc(s[0]) > sc(f) then {sc(s[0])} else {}) + RankSet(s[1..], sc, f)
    ensures GroupOf(Groups(s, sc), f) == |RankSet(s, sc, f)|
  {
    var t := s[1..];
    var g := Groups(t, sc);
    var gs := [[s[0]]] + g;
    assert t[0] == s[1];
    assert Groups(s, sc) == gs;
    assert gs[1..] == g;
  }

  /** In a descending sequence whose first two scores differ, the first score is above every later one. */
  lemma HeadAboveRest(s: seq<string>, sc: string -> real, f: string)
    requires |s| > 1 && Descending(s, sc) && sc(s[0]) != sc(s[1])
    ensures sc(s[0]) > sc(s[1]) && sc(s[0]) !in RankSet(s[1..], sc, f)
  {
    var t := s[1..];
    assert forall i :: 0 <= i < |t| ==> t[i] == s[i + 1];
    RankSetBelow(t, sc, f, sc(s[1]));
  }

  /** Scores bounded by `b` give distinct scores bounded by `b`. */
  lemma RankSetBelow(t: seq<string>, sc: string -> real, f: string, b: real)
    requires forall i :: 0 <= i < |t| ==> sc(t[i]) <= b
    ensures forall v :: v in RankSet(t, sc, f) ==> v <= b
  {
    forall v | v in RankSet(t, sc, f) ensures v <= b {
      var i :| 0 <= i < |t| && sc(t[i]) > sc(f) && sc(t[i]) == v;
    }
  }

  lemma {:induction false} BumpEffect(arms: map<string, Arm>, g: seq<string>, d: (real, real), f: string)
    requires forall k :: 0 <= k < |g| ==> g[k] in arms
    requires Distinct(g) && f in arms
    ensures Bump(arms, g, d)[f] == if f in g then AddDelta(arms[f], d) else arms[f]
    decreases |g|
  {
    if |g| > 0 {
      assert Distinct(g[1..]);
      assert g[0] !in g[1..];
      BumpEffect(arms[g[0] := AddDelta(arms[g[0]], d)], g[1..], d, f);
    }
  }

  lemma {:induction false} ApplyGroupsEffect(arms: map<string, Arm>, gs: seq<seq<string>>, idx: nat, f: string)
    requires forall x :: x in Flatten(gs) ==> x in arms
    requires Distinct(Flatten(gs)) && f in arms
    ensures ApplyGroups(arms, gs, idx)[f] ==
      if f in Flatten(gs) then AddDelta(arms[f], DeltaAt(idx + GroupOf(gs, f))) else arms[f]
    decreases |gs|
  {
    if |gs| > 0 {
      var a, rest := gs[0], Flatten(gs[1..]);
      assert Flatten(gs) == a + rest;
      DistinctSplit(a, rest);
      if idx >= |RankDeltas| {
        assert AddDelta(arms[f], (0.0, 0.0)) == arms[f];
      } else {
        var arms1 := Bump(arms, a, RankDeltas[idx]);
        BumpEffect(arms, a, RankDeltas[idx], f);
        ApplyGroupsEffect(arms1, gs[1..], idx + 1, f);
        if f in a {
          assert f !in rest;
        }
      }
    }
  }

  lemma DistinctSplit(a: seq<string>, b: seq<string>)
    requires Distinct(a + b)
    ensures Distinct(a) && Distinct(b)
    ensures forall x :: x in a ==> x !in b
  {
    forall i, j | 0 <= i < j < |b| ensures b[i] != b[j] {
      assert (a + b)[|a| + i] == b[i] && (a + b)[|a| + j] == b[j];
    }
    forall x | x in a ensures x !in b {
      var i :| 0 <= i < |a| && a[i] == x;
      forall j | 0 <= j < |b| ensures b[j] != x {
        assert (a + b)[i] != (a + b)[|a| + j];
      }
    }
    forall i, j | 0 <= i < j < |a| ensures a[i] != a[j] {
      assert (a + b)[i] == a[i] && (a + b)[j] == a[j];
    }
  }

  lemma RankSetIsAbove(ranked: seq<string>, arms: map<string, Arm>, f: string)
    requires forall x :: x in ranked <==> x in arms
    requires f in arms
    ensures RankSet(ranked, ScoreOf(arms), f) == Above(arms, f)
  {
    var sc := ScoreOf(arms);
    forall v | v in RankSet(ranked, sc, f) ensures v in Above(arms, f) {
      var i :| 0 <= i < |ranked| && sc(ranked[i]) > sc(f) && sc(ranked[i]) == v;
      assert ranked[i] in arms;
    }
    forall v | v in Above(arms, f) ensures v in RankSet(ranked, sc, f) {
      var g :| g in arms && arms[g].score > arms[f].score && arms[g].score == v;
      var i :| 0 <= i < |ranked| && ranked[i] == g;
    }
  }

  /** A permutation of a sequence without repeats has none. */
  lemma DistinctPerm(a: seq<string>, b: seq<string>)
    requires Distinct(a) && multiset(a) == multiset(b)
    ensures Distinct(b)
  {
    forall i, j | 0 <= i < j < |b| ensures b[i] != b[j] {
      if b[i] == b[j] {
        CountTwo(b, i, j);
        CountAtMostOne(a, b[i]);
      }
    }
  }

  lemma CountTwo(s: seq<string>, i: nat, j: nat)
    requires i < j < |s| && s[i] == s[j]
    ensures multiset(s)[s[i]] >= 2
  {
    assert s == s[..j] + [s[j]] + s[j + 1..];
    assert s[..j][i] == s[i];
    assert multiset(s) == multiset(s[..j]) + multiset{s[j]} + multiset(s[j + 1..]);
  }

  lemma {:induction false} CountAtMostOne(s: seq<string>, x: string)
    requires Distinct(s)
    ensures multiset(s)[x] <= 1
    decreases |s|
  {
    if |s| > 0 {
      assert s == [s[0]] + s[1..];
      assert Distinct(s[1..]);
      CountAtMostOne(s[1..], x);
      if s[0] == x {
        assert x !in s[1..];
        assert multiset(s[1..])[x] == 0;
      }
    }
  }
}
