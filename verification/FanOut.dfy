/**
 Requests to many nodes at once.  Each call walks over its nodes and starts a worker
 for every eligible one; all calls share a semaphore; a call returns when its wait
 group is empty.  The steps of all calls and workers interleave freely.
 */
module FanOut {

  /** The capacity of the channel that counts requests. */
  const LIMIT: nat := 64

  datatype Reply = Ok(result: string) | Failed(error: string)

  /** What a call is asked to do, and what the nodes turn out to answer. */
  datatype Job = Job(nodes: seq<string>, eligible: seq<bool>, replies: seq<Reply>)

  ghost predicate ValidJob(j: Job) {
    |j.eligible| == |j.nodes| && |j.replies| == |j.nodes|
  }

  /**
   A worker: not started; requesting; answered; in the critical section before and after its write; out of
   it; its slot given back; done.
   */
  datatype Phase = Idle | Running | Asked | Locked | Written | Unlocked | Released | Finished

  /** The calling loop, at node i: test, send to the channel, wg.Add, go; then wg.Wait and return. */
  datatype Pc = Test(i: nat) | Send(i: nat) | Count(i: nat) | Go(i: nat) | Waiting | Returned

  datatype Call = Call(
    job: Job,
    pc: Pc,
    wg: int,
    locked: bool,
    phases: seq<Phase>,
    succ: map<string, string>,
    failed: map<string, string>)

  datatype System = System(slots: int, calls: seq<Call>)  // slots taken

  function NewCall(j: Job): Call {
    Call(j, Test(0), 0, false, seq(|j.nodes|, i => Idle), map[], map[])
  }

  // ---------------------------------------------------------------- steps

  datatype Step =
    | Begin(job: Job)
    | Caller(c: nat)
    | Worker(c: nat, i: nat)

  predicate CallerCan(s: System, c: Call) {
    match c.pc
    case Send(_) => s.slots < LIMIT
    case Waiting => c.wg == 0
    case Returned => false
    case _ => true
  }

  /** The call after a step of its loop, and the change in slots. */
  function CallerStep(c: Call): (Call, int) {
    match c.pc
    case Test(i) =>
      if i >= |c.job.nodes| || i >= |c.job.eligible| then (c.(pc := Waiting), 0)
      else if !c.job.eligible[i] then (c.(pc := Test(i + 1)), 0)
      else (c.(pc := Send(i)), 0)
    case Send(i) => (c.(pc := Count(i)), 1)
    case Count(i) => (c.(pc := Go(i), wg := c.wg + 1), 0)
    case Go(i) => (c.(pc := Test(i + 1), phases := if i < |c.phases| then c.phases[i := Running] else c.phases), 0)
    case Waiting => (c.(pc := Returned), 0)
    case Returned => (c, 0)
  }

  predicate WorkerCan(c: Call, i: nat) {
    && i < |c.phases| && !c.phases[i].Idle? && !c.phases[i].Finished?
    && (c.phases[i].Asked? ==> !c.locked)
  }

  function Write(c: Call, i: nat): Call
    requires i < |c.job.nodes| && i < |c.job.replies|
  {
    match c.job.replies[i]
    case Ok(result) => c.(succ := c.succ[c.job.nodes[i] := result])
    case Failed(error) => c.(failed := c.failed[c.job.nodes[i] := error])
  }

  function WorkerStep(c: Call, i: nat): (Call, int)
    requires i < |c.phases| && i < |c.job.nodes| && i < |c.job.replies|
  {
    match c.phases[i]
    case Running => (c.(phases := c.phases[i := Asked]), 0)
    case Asked => (c.(phases := c.phases[i := Locked], locked := true), 0)
    case Locked => (Write(c, i).(phases := c.phases[i := Written]), 0)
    case Written => (c.(phases := c.phases[i := Unlocked], locked := false), 0)
    case Unlocked => (c.(phases := c.phases[i := Released]), -1)
    case Released => (c.(phases := c.phases[i := Finished], wg := c.wg - 1), 0)
    case _ => (c, 0)
  }

  ghost predicate Enabled(s: System, st: Step) {
    match st
    case Begin(job) => ValidJob(job)
    case Caller(c) => c < |s.calls| && CallerCan(s, s.calls[c])
    case Worker(c, i) => c < |s.calls| && WorkerCan(s.calls[c], i)
                         && i < |s.calls[c].job.nodes| && i < |s.calls[c].job.replies|
  }

  ghost function Apply(s: System, st: Step): System
    requires Enabled(s, st)
  {
    match st
    case Begin(job) => s.(calls := s.calls + [NewCall(job)])
    case Caller(c) =>
      var (call, d) := CallerStep(s.calls[c]);
      System(s.slots + d, s.calls[c := call])
    case Worker(c, i) =>
      var (call, d) := WorkerStep(s.calls[c], i);
      System(s.slots + d, s.calls[c := call])
  }

  // ---------------------------------------------------------------- counting

  predicate HasSlot(p: Phase) {
    p.Running? || p.Asked? || p.Locked? || p.Written? || p.Unlocked?
  }

  predicate Active(p: Phase) {
    !p.Idle? && !p.Finished?
  }

  predicate Critical(p: Phase) {
    p.Locked? || p.Written?
  }

  predicate Wrote(p: Phase) {
    p.Written? || p.Unlocked? || p.Released? || p.Finished?
  }

  function CountIf(ps: seq<Phase>, f: Phase -> bool): (n: nat)
    ensures n <= |ps|
  {
    if ps == [] then 0 else CountIf(ps[1..], f) + if f(ps[0]) then 1 else 0
  }

  function One(b: bool): int {
    if b then 1 else 0
  }

  lemma {:induction false} CountUpdate(ps: seq<Phase>, f: Phase -> bool, i: nat, p: Phase)
    requires i < |ps|
    ensures CountIf(ps[i := p], f) == CountIf(ps, f) - One(f(ps[i])) + One(f(p))
  {
    if i == 0 {
      assert ps[i := p][1..] == ps[1..];
    } else {
      CountUpdate(ps[1..], f, i - 1, p);
      assert ps[i := p][1..] == ps[1..][i - 1 := p];
    }
  }

  lemma {:induction false} CountZero(ps: seq<Phase>, f: Phase -> bool)
    ensures CountIf(ps, f) == 0 <==> forall i :: 0 <= i < |ps| ==> !f(ps[i])
  {
    if ps != [] {
      CountZero(ps[1..], f);
      assert ps == [ps[0]] + ps[1..];
    }
  }

  lemma {:induction false} CountOne(ps: seq<Phase>, f: Phase -> bool, i: nat, j: nat)
    requires i < |ps| && j < |ps| && i != j && f(ps[i]) && f(ps[j])
    ensures CountIf(ps, f) >= 2
  {
    CountUpdate(ps, f, i, ps[i]);
    var a, b := if i < j then i else j, if i < j then j else i;
    if a == 0 {
      CountZero(ps[1..], f);
      assert ps[1..][b - 1] == ps[b];
    } else {
      CountOne(ps[1..], f, a - 1, b - 1);
    }
  }

  /** Slots of a call: one for each worker that has not given its back, and one on the way to a worker. */
  function Slots(c: Call): int {
    CountIf(c.phases, HasSlot) + One(c.pc.Count? || c.pc.Go?)
  }

  function SumSlots(cs: seq<Call>): int {
    if cs == [] then 0 else Slots(cs[0]) + SumSlots(cs[1..])
  }

  lemma {:induction false} SumUpdate(cs: seq<Call>, k: nat, c: Call)
    requires k < |cs|
    ensures SumSlots(cs[k := c]) == SumSlots(cs) - Slots(cs[k]) + Slots(c)
  {
    if k == 0 {
      assert cs[k := c][1..] == cs[1..];
    } else {
      SumUpdate(cs[1..], k - 1, c);
      assert cs[k := c][1..] == cs[1..][k - 1 := c];
    }
  }

  lemma {:induction false} SumAppend(cs: seq<Call>, c: Call)
    ensures SumSlots(cs + [c]) == SumSlots(cs) + Slots(c)
  {
    if cs == [] {
      assert cs + [c] == [c];
    } else {
      SumAppend(cs[1..], c);
      assert (cs + [c])[1..] == cs[1..] + [c];
    }
  }

  // ---------------------------------------------------------------- the invariant of a call

  /** How far the loop has come: the nodes before this one have been dealt with. */
  function Position(c: Call): nat {
    match c.pc
    case Waiting => |c.job.nodes|
    case Returned => |c.job.nodes|
    case _ => c.pc.i
  }

  ghost predicate Sized(c: Call) {
    ValidJob(c.job) && |c.phases| == |c.job.nodes|
  }

  ghost predicate Started(c: Call) {
    && Sized(c) && Position(c) <= |c.phases|
    && (c.pc.Send? || c.pc.Count? || c.pc.Go? ==> c.pc.i < |c.phases| && c.job.eligible[c.pc.i])
    && (forall i :: 0 <= i < Position(c) ==> (!c.phases[i].Idle? <==> c.job.eligible[i]))
    && (forall i :: Position(c) <= i < |c.phases| ==> c.phases[i].Idle?)
  }

  ghost predicate Counted(c: Call) {
    && c.wg == CountIf(c.phases, Active) + One(c.pc.Go?)
    && One(c.locked) == CountIf(c.phases, Critical)
    && (c.pc.Returned? ==> c.wg == 0)
  }

  /** Some worker that has written was given this answer by this node. */
  ghost predicate SomeWriter(j: Job, ps: seq<Phase>, n: string, r: Reply) {
    exists i :: 0 <= i < |ps| && Wrote(ps[i]) && i < |j.nodes| && i < |j.replies| && j.nodes[i] == n
        && j.replies[i] == r
  }

  ghost predicate SuccFrom(j: Job, ps: seq<Phase>, succ: map<string, string>) {
    forall n :: n in succ ==> SomeWriter(j, ps, n, Ok(succ[n]))
  }

  ghost predicate FailedFrom(j: Job, ps: seq<Phase>, failed: map<string, string>) {
    forall n :: n in failed ==> SomeWriter(j, ps, n, Failed(failed[n]))
  }

  ghost predicate Entered(j: Job, ps: seq<Phase>, succ: map<string, string>, failed: map<string, string>) {
    forall i :: 0 <= i < |ps| && i < |j.nodes| && i < |j.replies| && Wrote(ps[i]) ==>
      if j.replies[i].Ok? then j.nodes[i] in succ else j.nodes[i] in failed
  }

  /** The maps hold what the workers that have written were answered. */
  ghost predicate MapsFilled(c: Call) {
    && Entered(c.job, c.phases, c.succ, c.failed)
    && SuccFrom(c.job, c.phases, c.succ)
    && FailedFrom(c.job, c.phases, c.failed)
  }

  ghost predicate CallInv(c: Call) {
    Started(c) && Counted(c) && MapsFilled(c)
  }

  ghost predicate Inv(s: System) {
    && (forall k :: 0 <= k < |s.calls| ==> CallInv(s.calls[k]))
    && s.slots == SumSlots(s.calls) && s.slots <= LIMIT
  }

  lemma NewCallInv(j: Job)
    requires ValidJob(j)
    ensures CallInv(NewCall(j)) && Slots(NewCall(j)) == 0
  {
    var c := NewCall(j);
    CountZero(c.phases, HasSlot);
    CountZero(c.phases, Active);
    CountZero(c.phases, Critical);
  }

  lemma CallerKeepsStarted(c: Call)
    requires Started(c) && !c.pc.Returned?
    ensures var (c', d) := CallerStep(c); Started(c')
  {
  }

  /** Whoever had written has written. */
  ghost predicate WroteStays(ps: seq<Phase>, ps': seq<Phase>) {
    |ps'| == |ps| && forall i :: 0 <= i < |ps| && Wrote(ps[i]) ==> Wrote(ps'[i])
  }

  lemma WritersStay(j: Job, ps: seq<Phase>, ps': seq<Phase>, succ: map<string, string>, failed: map<string, string>)
    requires WroteStays(ps, ps') && SuccFrom(j, ps, succ) && FailedFrom(j, ps, failed)
    ensures SuccFrom(j, ps', succ) && FailedFrom(j, ps', failed)
  {
    hide Wrote;
    forall n, r | SomeWriter(j, ps, n, r) ensures SomeWriter(j, ps', n, r) {
      var i :| 0 <= i < |ps| && Wrote(ps[i]) && i < |j.nodes| && i < |j.replies| && j.nodes[i] == n
          && j.replies[i] == r;
      assert Wrote(ps'[i]);
    }
  }

  /** Nothing written: the maps mean what they meant. */
  lemma MapsUntouched(c: Call, c': Call)
    requires MapsFilled(c) && c'.job == c.job && c'.succ == c.succ && c'.failed == c.failed && |c'.phases| == |c.phases|
    requires forall i :: 0 <= i < |c.phases| ==> Wrote(c'.phases[i]) == Wrote(c.phases[i])
    ensures MapsFilled(c')
  {
    hide Wrote, SuccFrom, FailedFrom;
    WritersStay(c.job, c.phases, c'.phases, c.succ, c.failed);
  }

  lemma MapsWritten(c: Call, i: nat)
    requires Sized(c) && MapsFilled(c) && i < |c.phases| && c.phases[i].Locked?
    ensures MapsFilled(WorkerStep(c, i).0)
  {
    var c' := WorkerStep(c, i).0;
    WritersStay(c.job, c.phases, c'.phases, c.succ, c.failed);
    assert SomeWriter(c.job, c'.phases, c.job.nodes[i], c.job.replies[i]) by {
      assert Wrote(c'.phases[i]);
    }
    WrittenEntered(c, i);
    OneMoreWriter(c.job, c'.phases, c.succ, c.failed, c.job.nodes[i], c.job.replies[i]);
    hide SomeWriter, Entered, SuccFrom, FailedFrom, Wrote;
  }

  /** An answer that some worker has written may be entered. */
  lemma OneMoreWriter(j: Job, ps: seq<Phase>, succ: map<string, string>, failed: map<string, string>, n: string,
      r: Reply)
    requires SuccFrom(j, ps, succ) && FailedFrom(j, ps, failed) && SomeWriter(j, ps, n, r)
    ensures r.Ok? ==> SuccFrom(j, ps, succ[n := r.result])
    ensures r.Failed? ==> FailedFrom(j, ps, failed[n := r.error])
  {
    hide SomeWriter;
  }

  lemma WrittenEntered(c: Call, i: nat)
    requires Sized(c) && i < |c.phases| && c.phases[i].Locked? && Entered(c.job, c.phases, c.succ, c.failed)
    ensures var c' := WorkerStep(c, i).0; Entered(c.job, c'.phases, c'.succ, c'.failed)
  {
  }

  lemma CallerKeepsMaps(c: Call)
    requires Started(c) && MapsFilled(c) && !c.pc.Returned?
    ensures Sized(CallerStep(c).0) && MapsFilled(CallerStep(c).0)
  {
    hide MapsFilled;
    MapsUntouched(c, CallerStep(c).0);
  }

  lemma CallerKeepsCounts(s: System, c: Call)
    requires Started(c) && Counted(c) && CallerCan(s, c)
    ensures var (c', d) := CallerStep(c); Counted(c') && Slots(c') == Slots(c) + d
  {
    if c.pc.Go? {
      var i := c.pc.i;
      Recount(c.phases, i, Running);
    }
  }

  lemma CallerKeeps(s: System, c: Call)
    requires CallInv(c) && CallerCan(s, c)
    ensures var (c', d) := CallerStep(c); CallInv(c') && Slots(c') == Slots(c) + d
  {
    hide Started, Counted, MapsFilled, Slots;
    CallerKeepsStarted(c);
    CallerKeepsCounts(s, c);
    CallerKeepsMaps(c);
  }

  lemma WorkerKeepsCounts(c: Call, i: nat)
    requires Sized(c) && Counted(c) && WorkerCan(c, i)
    ensures var (c', d) := WorkerStep(c, i); Counted(c') && Slots(c') == Slots(c) + d
  {
    hide CountIf;
    var c' := WorkerStep(c, i).0;
    assert c'.phases == c.phases[i := c'.phases[i]] && c'.pc == c.pc;
    Recount(c.phases, i, c'.phases[i]);
  }

  lemma Recount(ps: seq<Phase>, i: nat, p: Phase)
    requires i < |ps|
    ensures CountIf(ps[i := p], HasSlot) == CountIf(ps, HasSlot) - One(HasSlot(ps[i])) + One(HasSlot(p))
    ensures CountIf(ps[i := p], Active) == CountIf(ps, Active) - One(Active(ps[i])) + One(Active(p))
    ensures CountIf(ps[i := p], Critical) == CountIf(ps, Critical) - One(Critical(ps[i])) + One(Critical(p))
    ensures Active(ps[i]) ==> CountIf(ps, Active) > 0
  {
    CountUpdate(ps, HasSlot, i, p);
    CountUpdate(ps, Active, i, p);
    CountUpdate(ps, Critical, i, p);
    CountZero(ps, Active);
  }

  lemma WorkerKeepsStarted(c: Call, i: nat)
    requires Started(c) && WorkerCan(c, i)
    ensures Started(WorkerStep(c, i).0)
  {
  }

  lemma WorkerKeepsMaps(c: Call, i: nat)
    requires Sized(c) && MapsFilled(c) && WorkerCan(c, i)
    ensures MapsFilled(WorkerStep(c, i).0)
  {
    hide MapsFilled;
    if c.phases[i].Locked? {
      MapsWritten(c, i);
    } else {
      MapsUntouched(c, WorkerStep(c, i).0);
    }
  }

  lemma WorkerKeeps(c: Call, i: nat)
    requires CallInv(c) && WorkerCan(c, i)
    ensures i < |c.job.nodes| && i < |c.job.replies|
    ensures var (c', d) := WorkerStep(c, i); CallInv(c') && Slots(c') == Slots(c) + d
  {
    WorkerKeepsStarted(c, i);
    hide Counted, MapsFilled, Slots, Position;
    WorkerKeepsCounts(c, i);
    WorkerKeepsMaps(c, i);
  }
}
