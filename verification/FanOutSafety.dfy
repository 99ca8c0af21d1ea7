/**
 What holds of the requests to many nodes under every interleaving: the limit, the
 result, and that every call comes back.
 */
module FanOutSafety {
  import opened FanOut

  const START: System := System(0, [])

  lemma StepKeeps(s: System, st: Step)
    requires Inv(s) && Enabled(s, st)
    ensures Inv(Apply(s, st))
  {
    hide CallInv, CallerStep, WorkerStep, Slots, NewCall;
    match st {
      case Begin(job) =>
        NewCallInv(job);
        SumAppend(s.calls, NewCall(job));
      case Caller(c) =>
        CallerKeeps(s, s.calls[c]);
        SumUpdate(s.calls, c, CallerStep(s.calls[c]).0);
        StepOfSlots(s.calls[c]);
      case Worker(c, i) =>
        WorkerKeeps(s.calls[c], i);
        SumUpdate(s.calls, c, WorkerStep(s.calls[c], i).0);
        WorkerTakesNone(s.calls[c], i);
    }
  }

  lemma StepOfSlots(c: Call)
    ensures CallerStep(c).1 == One(c.pc.Send?)
  {
  }

  lemma WorkerTakesNone(c: Call, i: nat)
    requires i < |c.phases| && i < |c.job.nodes| && i < |c.job.replies|
    ensures WorkerStep(c, i).1 <= 0
  {
  }

  // ---------------------------------------------------------------- runs

  ghost predicate Runs(s: System, sts: seq<Step>)
    decreases |sts|
  {
    sts != [] ==> Enabled(s, sts[0]) && Runs(Apply(s, sts[0]), sts[1..])
  }

  ghost function After(s: System, sts: seq<Step>): System
    requires Runs(s, sts)
    decreases |sts|
  {
    if sts == [] then s else After(Apply(s, sts[0]), sts[1..])
  }

  lemma {:induction false} RunKeeps(s: System, sts: seq<Step>)
    requires Inv(s) && Runs(s, sts)
    ensures Inv(After(s, sts))
    decreases |sts|
  {
    hide Inv, Enabled, Apply;
    if sts != [] {
      StepKeeps(s, sts[0]);
      RunKeeps(Apply(s, sts[0]), sts[1..]);
    }
  }

  // ---------------------------------------------------------------- the limit

  /** Workers between their start and giving their slot back. */
  function InFlight(cs: seq<Call>): nat {
    if cs == [] then 0 else CountIf(cs[0].phases, HasSlot) + InFlight(cs[1..])
  }

  lemma {:induction false} FlightHasSlots(cs: seq<Call>)
    ensures InFlight(cs) <= SumSlots(cs)
  {
    if cs != [] { FlightHasSlots(cs[1..]); }
  }

  /** However many calls there are, at most 64 of their requests are under way. */
  lemma AtMostLimit(sts: seq<Step>)
    requires Runs(START, sts)
    ensures InFlight(After(START, sts).calls) <= 64
  {
    assert Inv(START);
    RunKeeps(START, sts);
    FlightHasSlots(After(START, sts).calls);
  }

  /** The maps of a call are written by one worker at a time. */
  lemma OneWriter(s: System, k: nat, i: nat, j: nat)
    requires Inv(s) && k < |s.calls| && i < |s.calls[k].phases| && j < |s.calls[k].phases|
    requires Critical(s.calls[k].phases[i]) && Critical(s.calls[k].phases[j])
    ensures i == j
  {
    assert CallInv(s.calls[k]);
    if i != j { CountOne(s.calls[k].phases, Critical, i, j); }
  }

  // ---------------------------------------------------------------- the result

  /** What a loop without workers would compute. */
  function Sequential(j: Job, n: nat): (map<string, string>, map<string, string>) {
    if n == 0 || n > |j.nodes| || |j.eligible| != |j.nodes| || |j.replies| != |j.nodes| then (map[], map[])
    else
      var (succ, failed) := Sequential(j, n - 1);
      if !j.eligible[n - 1] then (succ, failed)
      else
        match j.replies[n - 1]
        case Ok(result) => (succ[j.nodes[n - 1] := result], failed)
        case Failed(error) => (succ, failed[j.nodes[n - 1] := error])
  }

  ghost predicate Distinct(nodes: seq<string>) {
    forall i, j :: 0 <= i < j < |nodes| ==> nodes[i] != nodes[j]
  }

  ghost predicate Answered(j: Job, n: nat, name: string, r: Reply) {
    exists i :: 0 <= i < n && i < |j.nodes| && i < |j.eligible| && i < |j.replies| && j.eligible[i]
        && j.nodes[i] == name && j.replies[i] == r
  }

  /** The maps hold exactly the answers of the first n nodes. */
  ghost predicate HoldsAnswers(j: Job, n: nat, succ: map<string, string>, failed: map<string, string>) {
    && (forall name, v :: (name in succ && succ[name] == v) <==> Answered(j, n, name, Ok(v)))
    && (forall name, v :: (name in failed && failed[name] == v) <==> Answered(j, n, name, Failed(v)))
  }

  lemma AnsweredNext(j: Job, n: nat, name: string, r: Reply)
    requires ValidJob(j) && 0 < n <= |j.nodes|
    ensures Answered(j, n, name, r)
        <==> Answered(j, n - 1, name, r) || (j.eligible[n - 1] && j.nodes[n - 1] == name && j.replies[n - 1] == r)
  {
  }

  lemma AnsweredEarlier(j: Job, k: nat)
    requires ValidJob(j) && Distinct(j.nodes) && k < |j.nodes|
    ensures forall r :: !Answered(j, k, j.nodes[k], r)
  {
  }

  lemma {:induction false} SequentialHolds(j: Job, n: nat)
    requires ValidJob(j) && Distinct(j.nodes) && n <= |j.nodes|
    ensures var (succ, failed) := Sequential(j, n); HoldsAnswers(j, n, succ, failed)
  {
    if n > 0 {
      SequentialHolds(j, n - 1);
      hide Answered;
      forall name, r { AnsweredNext(j, n, name, r); }
      AnsweredEarlier(j, n - 1);
    }
  }

  lemma HoldsUnique(j: Job, n: nat, succ: map<string, string>, failed: map<string, string>,
      succ': map<string, string>, failed': map<string, string>)
    requires HoldsAnswers(j, n, succ, failed) && HoldsAnswers(j, n, succ', failed')
    ensures succ == succ' && failed == failed'
  {
    hide Answered;
    forall name ensures name in succ <==> name in succ' {
      if name in succ { assert Answered(j, n, name, Ok(succ[name])); }
      if name in succ' { assert Answered(j, n, name, Ok(succ'[name])); }
    }
    forall name ensures name in failed <==> name in failed' {
      if name in failed { assert Answered(j, n, name, Failed(failed[name])); }
      if name in failed' { assert Answered(j, n, name, Failed(failed'[name])); }
    }
    assert forall name :: name in succ ==> succ[name] == succ'[name] by {
      forall name | name in succ ensures succ[name] == succ'[name] {
        assert Answered(j, n, name, Ok(succ[name]));
      }
    }
    assert forall name :: name in failed ==> failed[name] == failed'[name] by {
      forall name | name in failed ensures failed[name] == failed'[name] {
        assert Answered(j, n, name, Failed(failed[name]));
      }
    }
  }

  /** A call that has returned waited for a worker at every eligible node. */
  lemma AllFinished(c: Call)
    requires CallInv(c) && c.pc.Returned?
    ensures forall i :: 0 <= i < |c.phases| ==> c.phases[i] == if c.job.eligible[i] then Finished else Idle
  {
    CountZero(c.phases, Active);
  }

  lemma WritersAreAnswers(c: Call, name: string, r: Reply)
    requires CallInv(c) && c.pc.Returned?
    ensures SomeWriter(c.job, c.phases, name, r) <==> Answered(c.job, |c.job.nodes|, name, r)
  {
    AllFinished(c);
    if SomeWriter(c.job, c.phases, name, r) {
      var i :| 0 <= i < |c.phases| && Wrote(c.phases[i]) && i < |c.job.nodes| && i < |c.job.replies|
          && c.job.nodes[i] == name && c.job.replies[i] == r;
      assert c.job.eligible[i];
    }
    if Answered(c.job, |c.job.nodes|, name, r) {
      var i :| 0 <= i < |c.job.nodes| && i < |c.job.eligible| && i < |c.job.replies| && c.job.eligible[i]
          && c.job.nodes[i] == name && c.job.replies[i] == r;
      assert Wrote(c.phases[i]);
    }
  }

  ghost predicate Eligible(j: Job, name: string) {
    exists i :: 0 <= i < |j.nodes| && i < |j.eligible| && j.eligible[i] && j.nodes[i] == name
  }

  /** The two maps together hold exactly the eligible nodes, even when names repeat. */
  lemma MapsCoverEligible(c: Call)
    requires CallInv(c) && c.pc.Returned?
    ensures forall name :: name in c.succ || name in c.failed <==> Eligible(c.job, name)
  {
    AllFinished(c);
    forall name ensures name in c.succ || name in c.failed <==> Eligible(c.job, name) {
      if name in c.succ {
        WritersAreAnswers(c, name, Ok(c.succ[name]));
      } else if name in c.failed {
        WritersAreAnswers(c, name, Failed(c.failed[name]));
      }
      if Eligible(c.job, name) {
        var i :| 0 <= i < |c.job.nodes| && i < |c.job.eligible| && c.job.eligible[i] && c.job.nodes[i] == name;
        assert Wrote(c.phases[i]);
      }
    }
  }

  /** With distinct names the answer to each name is one. */
  lemma AnswerUnique(j: Job, name: string, r: Reply, r': Reply)
    requires Distinct(j.nodes) && Answered(j, |j.nodes|, name, r) && Answered(j, |j.nodes|, name, r')
    ensures r == r'
  {
  }

  lemma EnteredAnswers(c: Call, name: string, r: Reply)
    requires CallInv(c) && c.pc.Returned? && Answered(c.job, |c.job.nodes|, name, r)
    ensures if r.Ok? then name in c.succ else name in c.failed
  {
    AllFinished(c);
    var i :| 0 <= i < |c.job.nodes| && i < |c.job.eligible| && i < |c.job.replies| && c.job.eligible[i]
        && c.job.nodes[i] == name && c.job.replies[i] == r;
    assert Wrote(c.phases[i]);
  }

  lemma ReturnedHolds(c: Call)
    requires CallInv(c) && c.pc.Returned? && Distinct(c.job.nodes)
    ensures HoldsAnswers(c.job, |c.job.nodes|, c.succ, c.failed)
  {
    var n := |c.job.nodes|;
    hide Answered, SomeWriter, Started, Counted, Entered, Distinct;
    forall name, v ensures (name in c.succ && c.succ[name] == v) <==> Answered(c.job, n, name, Ok(v)) {
      if name in c.succ { WritersAreAnswers(c, name, Ok(c.succ[name])); }
      if Answered(c.job, n, name, Ok(v)) {
        EnteredAnswers(c, name, Ok(v));
        AnswerUnique(c.job, name, Ok(v), Ok(c.succ[name]));
      }
    }
    forall name, v ensures (name in c.failed && c.failed[name] == v) <==> Answered(c.job, n, name, Failed(v)) {
      if name in c.failed { WritersAreAnswers(c, name, Failed(c.failed[name])); }
      if Answered(c.job, n, name, Failed(v)) {
        EnteredAnswers(c, name, Failed(v));
        AnswerUnique(c.job, name, Failed(v), Failed(c.failed[name]));
      }
    }
  }

  /** Under every interleaving a call with distinct names returns what the plain loop computes, in two disjoint maps. */
  lemma ResultIsSequential(sts: seq<Step>, k: nat)
    requires Runs(START, sts) && k < |After(START, sts).calls| && After(START, sts).calls[k].pc.Returned?
    requires Distinct(After(START, sts).calls[k].job.nodes)
    ensures var c := After(START, sts).calls[k];
            && (c.succ, c.failed) == Sequential(c.job, |c.job.nodes|)
            && c.succ.Keys !! c.failed.Keys
            && forall name :: name in c.succ || name in c.failed <==> Eligible(c.job, name)
  {
    assert Inv(START);
    RunKeeps(START, sts);
    var c := After(START, sts).calls[k];
    assert CallInv(c) && ValidJob(c.job);
    hide Eligible, Answered, Sequential, Distinct, CallInv;
    ReturnedHolds(c);
    SequentialHolds(c.job, |c.job.nodes|);
    var (succ, failed) := Sequential(c.job, |c.job.nodes|);
    HoldsUnique(c.job, |c.job.nodes|, c.succ, c.failed, succ, failed);
    MapsCoverEligible(c);
    Disjoint(c.job, c.succ, c.failed);
  }

  lemma Disjoint(j: Job, succ: map<string, string>, failed: map<string, string>)
    requires Distinct(j.nodes) && HoldsAnswers(j, |j.nodes|, succ, failed)
    ensures succ.Keys !! failed.Keys
  {
    hide Answered;
    if name :| name in succ && name in failed {
      assert Answered(j, |j.nodes|, name, Ok(succ[name])) && Answered(j, |j.nodes|, name, Failed(failed[name]));
      AnswerUnique(j, name, Ok(succ[name]), Failed(failed[name]));
    }
  }

  /** A call that has returned is touched by nobody. */
  lemma ReturnedIsFinal(s: System, st: Step, k: nat)
    requires Inv(s) && Enabled(s, st) && k < |s.calls| && s.calls[k].pc.Returned?
    ensures k < |Apply(s, st).calls| && Apply(s, st).calls[k] == s.calls[k]
  {
    assert CallInv(s.calls[k]);
    AllFinished(s.calls[k]);
  }

  // ---------------------------------------------------------------- every call comes back

  function Left(p: Phase): nat {
    match p
    case Idle => 6
    case Running => 6
    case Asked => 5
    case Locked => 4
    case Written => 3
    case Unlocked => 2
    case Released => 1
    case Finished => 0
  }

  function SumLeft(ps: seq<Phase>): nat {
    if ps == [] then 0 else Left(ps[0]) + SumLeft(ps[1..])
  }

  function LoopLeft(c: Call): int {
    var n := |c.job.nodes|;
    match c.pc
    case Test(i) => 4 * (n - i) + 2
    case Send(i) => 4 * (n - i) + 1
    case Count(i) => 4 * (n - i)
    case Go(i) => 4 * (n - i) - 1
    case Waiting => 1
    case Returned => 0
  }

  function StepsOf(c: Call): int {
    LoopLeft(c) + SumLeft(c.phases)
  }

  /** How many steps the calls have before them at most. */
  function StepsLeft(cs: seq<Call>): int {
    if cs == [] then 0 else StepsOf(cs[0]) + StepsLeft(cs[1..])
  }

  lemma {:induction false} LeftUpdate(ps: seq<Phase>, i: nat, p: Phase)
    requires i < |ps|
    ensures SumLeft(ps[i := p]) == SumLeft(ps) - Left(ps[i]) + Left(p)
  {
    if i == 0 {
      assert ps[i := p][1..] == ps[1..];
    } else {
      LeftUpdate(ps[1..], i - 1, p);
      assert ps[i := p][1..] == ps[1..][i - 1 := p];
    }
  }

  lemma {:induction false} StepsUpdate(cs: seq<Call>, k: nat, c: Call)
    requires k < |cs|
    ensures StepsLeft(cs[k := c]) == StepsLeft(cs) - StepsOf(cs[k]) + StepsOf(c)
  {
    if k == 0 {
      assert cs[k := c][1..] == cs[1..];
    } else {
      StepsUpdate(cs[1..], k - 1, c);
      assert cs[k := c][1..] == cs[1..][k - 1 := c];
    }
  }

  lemma {:induction false} StepsNonNegative(cs: seq<Call>)
    requires forall k :: 0 <= k < |cs| ==> CallInv(cs[k])
    ensures StepsLeft(cs) >= 0
  {
    if cs != [] {
      assert CallInv(cs[0]);
      StepsNonNegative(cs[1..]);
    }
  }

  lemma CallerProgresses(c: Call)
    requires CallInv(c) && !c.pc.Returned?
    ensures StepsOf(CallerStep(c).0) < StepsOf(c)
  {
    if c.pc.Go? {
      LeftUpdate(c.phases, c.pc.i, Running);
    }
  }

  lemma WorkerProgresses(c: Call, i: nat)
    requires Sized(c) && WorkerCan(c, i)
    ensures StepsOf(WorkerStep(c, i).0) < StepsOf(c)
  {
    hide SumLeft;
    var c' := WorkerStep(c, i).0;
    assert c'.phases == c.phases[i := c'.phases[i]] && c'.pc == c.pc && c'.job == c.job;
    LeftUpdate(c.phases, i, c'.phases[i]);
  }

  lemma SizedCall(c: Call)
    requires CallInv(c)
    ensures Sized(c)
  {
  }

  /** Every step but the beginning of a call uses up one of the remaining steps. */
  lemma StepProgresses(s: System, st: Step)
    requires Inv(s) && Enabled(s, st) && !st.Begin?
    ensures StepsLeft(Apply(s, st).calls) < StepsLeft(s.calls)
  {
    hide CallInv, CallerStep, WorkerStep, StepsOf;
    match st {
      case Caller(c) =>
        CallerProgresses(s.calls[c]);
        StepsUpdate(s.calls, c, CallerStep(s.calls[c]).0);
      case Worker(c, i) =>
        SizedCall(s.calls[c]);
        WorkerProgresses(s.calls[c], i);
        StepsUpdate(s.calls, c, WorkerStep(s.calls[c], i).0);
    }
  }

  /** No run without new calls is longer than that. */
  lemma {:induction false} RunsEnd(s: System, sts: seq<Step>)
    requires Inv(s) && Runs(s, sts) && forall i :: 0 <= i < |sts| ==> !sts[i].Begin?
    ensures |sts| <= StepsLeft(s.calls)
    decreases |sts|
  {
    hide CallInv, Enabled, Apply;
    if sts == [] {
      StepsNonNegative(s.calls);
    } else {
      StepKeeps(s, sts[0]);
      StepProgresses(s, sts[0]);
      RunsEnd(Apply(s, sts[0]), sts[1..]);
    }
  }

  /** Where a worker is under way, some worker of its call can go on. */
  lemma WorkerGoesOn(s: System, k: nat, i: nat) returns (st: Step)
    requires Inv(s) && k < |s.calls| && i < |s.calls[k].phases| && Active(s.calls[k].phases[i])
    ensures Enabled(s, st) && !st.Begin?
  {
    var c := s.calls[k];
    assert CallInv(c);
    if c.phases[i].Asked? && c.locked {
      CountZero(c.phases, Critical);
      var j :| 0 <= j < |c.phases| && Critical(c.phases[j]);
      st := Worker(k, j);
    } else {
      st := Worker(k, i);
    }
  }

  lemma {:induction false} QuietSlots(cs: seq<Call>)
    requires forall k :: 0 <= k < |cs| ==> Slots(cs[k]) == 0
    ensures SumSlots(cs) == 0
  {
    if cs != [] { QuietSlots(cs[1..]); }
  }

  lemma QuietCall(c: Call)
    requires CallInv(c) && (forall i :: 0 <= i < |c.phases| ==> !Active(c.phases[i])) && !c.pc.Count? && !c.pc.Go?
    ensures Slots(c) == 0 && c.wg == 0
  {
    CountZero(c.phases, HasSlot);
    CountZero(c.phases, Active);
  }

  /** No deadlock: as long as some call has not returned, some step is possible. */
  lemma SomeStep(s: System, k: nat) returns (st: Step)
    requires Inv(s) && k < |s.calls| && !s.calls[k].pc.Returned?
    ensures Enabled(s, st) && !st.Begin?
  {
    hide CallInv;
    if m, i :| 0 <= m < |s.calls| && 0 <= i < |s.calls[m].phases| && Active(s.calls[m].phases[i]) {
      st := WorkerGoesOn(s, m, i);
    } else if m :| 0 <= m < |s.calls| && (s.calls[m].pc.Count? || s.calls[m].pc.Go?) {
      st := Caller(m);
    } else {
      forall m | 0 <= m < |s.calls| ensures Slots(s.calls[m]) == 0 && s.calls[m].wg == 0 {
        QuietCall(s.calls[m]);
      }
      QuietSlots(s.calls);
      st := Caller(k);
    }
  }

  /** So a run that cannot go on has brought every call back. */
  lemma StuckMeansDone(s: System)
    requires Inv(s) && forall st :: Enabled(s, st) ==> st.Begin?
    ensures forall k :: 0 <= k < |s.calls| ==> s.calls[k].pc.Returned?
  {
    forall k | 0 <= k < |s.calls| ensures s.calls[k].pc.Returned? {
      if !s.calls[k].pc.Returned? {
        var st := SomeStep(s, k);
      }
    }
  }
}
