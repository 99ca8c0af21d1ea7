/**
 Orphans: users that are listed or recorded at a tag where the runtime does not know them.  Which
 events make one and which mend it is said here from the answers of the runtime, and with it, for
 whole runs, exactly when a tag is recorded or a user listed twice.
 */
module UserOrphans {
  import opened UserIndex
  import opened UserSafety
  import opened UserPlaces
  import opened UserReset
  import opened UserRuns

  // ---------------------------------------------------------------- one user at one tag after an event

  /** Where the user stands at the tag after the event, and whether an operation succeeded there. */
  ghost function AfterAt(s: Store, e: Event, t: string, n: string): (Place, bool)
    requires t in s.inbounds
  {
    match AskedFor(s, e, n)
    case Nothing => (PlaceOf(s, t, n), false)
    case Ask(kind, tags, o) => VisitsAt(kind, PlaceOf(s, t, n), t, tags, o)
  }

  /** Whether the tag is in his record after the event, given whether an operation succeeded at it. */
  ghost predicate RecordedAfter(s: Store, e: Event, t: string, n: string, succ: bool) {
    match e
    case DoAdd(_, _, _, _) => Recorded(s, t, n) || succ
    case DoEnroll(_, _, _) => Recorded(s, t, n) || succ
    case DoDelete(_, _, _) => Recorded(s, t, n) && !succ
    case DoClear(_, names, _, _) => Recorded(s, t, n) && n !in names
    case _ => Recorded(s, t, n)
  }

  /** As often listed, and known to the runtime or not. */
  ghost predicate SameStand(p: Place, q: Place) {
    p.count == q.count && p.known == q.known
  }

  /** The store after the event agrees with what was replayed for one user at one tag. */
  ghost predicate Agrees(s: Store, s': Store, e: Event, t: string, n: string) {
    && (t in s'.inbounds <==> t in s.inbounds)
    && (t in s.inbounds ==>
          && SameStand(PlaceOf(s', t, n), AfterAt(s, e, t, n).0)
          && (Recorded(s', t, n) <==> RecordedAfter(s, e, t, n, AfterAt(s, e, t, n).1)))
    && (t !in s.inbounds ==>
          && ((t, n) in s'.runtime <==> (t, n) in s.runtime)
          && (Recorded(s', t, n) <==> RecordedAfter(s, e, t, n, false)))
  }

  /** An operation on one user, whose record then is what the table says. */
  lemma OpAgrees(s: Store, x: Outcome, s': Store, e: Event, kind: Kind, name: string, tags: seq<string>,
      o: nat -> Reply, t: string, n: string)
    requires Shape(s) && name != "" && x == OpTags(s, kind, name, tags, o)
    requires s'.inbounds == x.store.inbounds && s'.runtime == x.store.runtime
    requires AskedFor(s, e, n) == if n == name then Ask(kind, tags, o) else Nothing
    requires Recorded(s', t, n) <==> RecordedAfter(s, e, t, n, n == name && t in x.succ)
    ensures Agrees(s, s', e, t, n)
  {
    hide RecordedAfter, Recorded, AskedFor, Shape, OpTags;
    OpFollows(s, kind, name, tags, o);
    hide VisitsAt;
    if t in s.inbounds {
      assert FollowsAt(s, x, kind, name, tags, o, t);
    }
  }

  lemma AddAgrees(s: Store, e: Event, t: string, n: string)
    requires Base(s) && e.DoAdd?
    ensures Agrees(s, Apply(s, e), e, t, n)
  {
    hide Shape, OpTags, VisitsAt;
    if Addable(s, e.user) {
      var tags := TagsMeant(e.user, e.defaults, e.fallback);
      var x := OpTags(s, Adding, e.user.name, tags, e.o);
      AddTagsEffect(s, e.user.name, tags, e.o);
      hide Gains, ListsUnique, NoDup, Holds;
      OpAgrees(s, x, Apply(s, e), e, Adding, e.user.name, tags, e.o, t, n);
    }
  }

  lemma EnrollAgrees(s: Store, e: Event, t: string, n: string)
    requires Base(s) && e.DoEnroll?
    ensures Agrees(s, Apply(s, e), e, t, n)
  {
    hide Shape, OpTags, VisitsAt;
    if e.name in s.users && s.users[e.name].tags == [] {
      var x := OpTags(s, Adding, e.name, e.tags, e.o);
      AddTagsEffect(s, e.name, e.tags, e.o);
      hide Gains, ListsUnique, NoDup, Holds;
      if e.name == "" {
        NamelessOp(s, Adding, e.tags, e.o);
      } else {
        OpAgrees(s, x, Apply(s, e), e, Adding, e.name, e.tags, e.o, t, n);
      }
    }
  }

  lemma DeleteAgrees(s: Store, e: Event, t: string, n: string)
    requires Base(s) && e.DoDelete?
    ensures Agrees(s, Apply(s, e), e, t, n)
  {
    hide Shape, OpTags, VisitsAt;
    var name := e.user.name;
    if name != "" && name in s.users {
      var tags := TagsMeant(e.user, s.users[name].tags, e.fallback);
      var x := OpTags(s, Deleting, name, tags, e.o);
      RemoveTagsEffect(s, name, tags, e.o);
      hide Loses, LosesAtMost, ListsUnique, NoDup, Holds;
      OpAgrees(s, x, Apply(s, e), e, Deleting, name, tags, e.o, t, n);
    }
  }

  lemma ResetAgrees(s: Store, e: Event, t: string, n: string)
    requires Base(s) && e.DoReset?
    ensures Agrees(s, Apply(s, e), e, t, n)
  {
    hide Shape, OpTags, VisitsAt;
    var name, tags := e.user.name, TagsMeant(e.user, e.defaults, e.fallback);
    ResetFrame(s, name, tags, e.o);
    hide ListsUnique, NoDup, Holds;
    if name == "" {
      NamelessOp(s, Resetting, tags, e.o);
    } else {
      OpAgrees(s, OpTags(s, Resetting, name, tags, e.o), Apply(s, e), e, Resetting, name, tags, e.o, t, n);
    }
  }

  // ---------------------------------------------------------------- clearing

  /** What a removal leaves of him does not depend on who else is listed. */
  lemma {:induction false} RemovalIgnoresOthers(p: Place, q: Place, t: string, tags: seq<string>, o: nat -> Reply)
    requires SameStand(p, q)
    ensures SameStand(VisitsAt(Deleting, p, t, tags, o).0, VisitsAt(Deleting, q, t, tags, o).0)
  {
    if tags != [] { RemovalIgnoresOthers(p, q, t, tags[..|tags| - 1], o); }
  }

  /** His stand at the tag after he was dropped, if he was. */
  ghost predicate DroppedAt(s: Store, s': Store, dropped: bool, o: nat -> Reply, t: string, n: string)
    requires t in s.inbounds && t in s'.inbounds
  {
    SameStand(PlaceOf(s', t, n),
              if dropped && n != "" && n in s.users && s.users[n].tags != []
              then VisitsAt(Deleting, PlaceOf(s, t, n), t, s.users[n].tags, o).0 else PlaceOf(s, t, n))
  }

  lemma DropAt(s: Store, name: string, fallback: string, o: nat -> Reply, t: string, n: string)
    requires Base(s) && name in s.users
    ensures var s' := Drop(s, name, fallback, o);
            && s'.inbounds.Keys == s.inbounds.Keys
            && (t in s.inbounds ==> DroppedAt(s, s', n == name, o, t, n))
            && (t !in s.inbounds ==> ((t, n) in s'.runtime <==> (t, n) in s.runtime))
  {
    hide Shape, OpTags, VisitsAt;
    var u := s.users[name];
    assert u.name == name;
    if u.tags != [] {
      if name == "" {
        NamelessOp(s, Deleting, u.tags, o);
      } else {
        OpFollows(s, Deleting, name, u.tags, o);
        if t in s.inbounds {
          assert FollowsAt(s, OpTags(s, Deleting, name, u.tags, o), Deleting, name, u.tags, o, t);
        }
      }
    }
  }

  lemma {:induction false} DropAllAt(s: Store, names: seq<string>, fallback: string, o: string -> nat -> Reply,
      t: string, n: string)
    requires Base(s) && NoDup(names) && forall m :: m in names ==> m in s.users
    ensures var s' := DropAll(s, names, fallback, o);
            && s'.inbounds.Keys == s.inbounds.Keys
            && (t in s.inbounds ==> DroppedAt(s, s', n in names, o(n), t, n))
            && (t !in s.inbounds ==> ((t, n) in s'.runtime <==> (t, n) in s.runtime))
  {
    if names != [] {
      var k := |names| - 1;
      var name, s1 := names[k], DropAll(s, names[..k], fallback, o);
      assert names == names[..k] + [name] && name !in names[..k];
      DropAllAt(s, names[..k], fallback, o, t, n);
      DropAllKeeps(s, names[..k], fallback, o);
      DropAt(s1, name, fallback, o(name), t, n);
      hide Drop, NoDup, Base, AllListed, Unique, Holds, PlaceOf;
      if t in s.inbounds && n == name && n != "" && s.users[n].tags != [] {
        RemovalIgnoresOthers(PlaceOf(s1, t, n), PlaceOf(s, t, n), t, s.users[n].tags, o(n));
      }
    }
  }

  lemma ClearAgrees(s: Store, e: Event, t: string, n: string)
    requires Base(s) && e.DoClear? && Possible(s, e)
    ensures Agrees(s, Apply(s, e), e, t, n)
  {
    DropAllAt(s, e.names, e.fallback, e.all, t, n);
    DropAllKeeps(s, e.names, e.fallback, e.all);
    hide Base, AllListed, Unique, Holds, NoDup, PlaceOf, VisitsAt, DropAll;
  }

  lemma UpdateAgrees(s: Store, e: Event, t: string, n: string)
    requires e.DoUpdate?
    ensures Agrees(s, Apply(s, e), e, t, n)
  {
  }

  lemma EventAgrees(s: Store, e: Event, t: string, n: string)
    requires Base(s) && Possible(s, e)
    ensures Agrees(s, Apply(s, e), e, t, n)
  {
    hide Base, Possible, Agrees, Apply;
    match e {
      case DoAdd(_, _, _, _) => AddAgrees(s, e, t, n);
      case DoDelete(_, _, _) => DeleteAgrees(s, e, t, n);
      case DoUpdate(_) => UpdateAgrees(s, e, t, n);
      case DoReset(_, _, _, _) => ResetAgrees(s, e, t, n);
      case DoClear(_, _, _, _) => ClearAgrees(s, e, t, n);
      case DoEnroll(_, _, _) => EnrollAgrees(s, e, t, n);
    }
  }

  // ---------------------------------------------------------------- what makes an orphan and what mends it

  /**
   The event asks to remove or to reset a user the runtime knows, and by the answers he ends up unknown but
   listed or recorded.
   */
  ghost predicate Makes(s: Store, e: Event, t: string, n: string) {
    var a := AskedFor(s, e, n);
    && t in s.inbounds && (t, n) in s.runtime && a.Ask? && !a.kind.Adding?
    && var (p, succ) := VisitsAt(a.kind, PlaceOf(s, t, n), t, a.tags, a.o);
       !p.known && (p.count > 0 || RecordedAfter(s, e, t, n, succ))
  }

  /** The event adds him there with an answer other than a refusal, or drops him where he is only recorded. */
  ghost predicate Mends(s: Store, e: Event, t: string, n: string) {
    var a := AskedFor(s, e, n);
    || (a.Ask? && a.kind.Adding? && t in s.inbounds && s.inbounds[t].supported && Reached(a.tags, a.o, t))
    || (e.DoClear? && n in e.names && !Holds(s, t, n))
  }

  /** Someone the runtime does not know is neither removed nor reset. */
  lemma {:induction false} UnknownStays(kind: Kind, p: Place, t: string, tags: seq<string>, o: nat -> Reply)
    requires !p.known && !kind.Adding?
    ensures VisitsAt(kind, p, t, tags, o) == (p, false)
  {
    if tags != [] { UnknownStays(kind, p, t, tags[..|tags| - 1], o); }
  }

  ghost predicate OrphanAt(p: Place, recorded: bool) {
    (p.count > 0 || recorded) && !p.known
  }

  lemma OrphanIsAt(s: Store, t: string, n: string)
    ensures t in s.inbounds ==> (Orphan(s, t, n) <==> OrphanAt(PlaceOf(s, t, n), Recorded(s, t, n)))
    ensures t !in s.inbounds ==> (Orphan(s, t, n) <==> Recorded(s, t, n) && (t, n) !in s.runtime)
  {
    if t in s.inbounds { HeldIsCounted(s, t, n); }
  }

  lemma OrphanAfter(s: Store, e: Event, t: string, n: string)
    requires Base(s) && Possible(s, e) && t in s.inbounds
    ensures var (p, succ) := AfterAt(s, e, t, n);
            Orphan(Apply(s, e), t, n) <==> OrphanAt(p, RecordedAfter(s, e, t, n, succ))
  {
    hide Base, Possible, Apply, AfterAt, RecordedAfter, Orphan, PlaceOf, Recorded;
    EventAgrees(s, e, t, n);
    OrphanIsAt(Apply(s, e), t, n);
  }

  /** Exactly the orphans that are made by an event, or were there and are not mended, are there after it. */
  lemma OrphanStep(s: Store, e: Event, t: string, n: string)
    requires Base(s) && Possible(s, e)
    ensures Orphan(Apply(s, e), t, n) <==> Makes(s, e, t, n) || (Orphan(s, t, n) && !Mends(s, e, t, n))
  {
    OrphanIsAt(s, t, n);
    if t in s.inbounds {
      OrphanAfter(s, e, t, n);
      OrphanStepAt(s, e, t, n);
    } else {
      EventAgrees(s, e, t, n);
      OrphanIsAt(Apply(s, e), t, n);
      hide Apply, Base, Possible;
    }
  }

  lemma OrphanStepAt(s: Store, e: Event, t: string, n: string)
    requires t in s.inbounds
    ensures var (p, succ) := AfterAt(s, e, t, n);
            OrphanAt(p, RecordedAfter(s, e, t, n, succ)) <==>
              Makes(s, e, t, n) || (Orphan(s, t, n) && !Mends(s, e, t, n))
  {
    OrphanIsAt(s, t, n);
    HeldIsCounted(s, t, n);
    hide Orphan, Recorded, Holds, VisitsAt, Reached;
    var a, p := AskedFor(s, e, n), PlaceOf(s, t, n);
    if a.Ask? && a.kind.Adding? {
      AddsClosed(p, t, a.tags, a.o);
      FirstDoneReached(a.tags, a.o, t);
      hide FirstDone;
    } else if a.Ask? && !p.known {
      UnknownStays(a.kind, p, t, a.tags, a.o);
    }
  }

  // ---------------------------------------------------------------- runs

  lemma {:induction false} AfterLast(s: Store, es: seq<Event>)
    requires Runs(s, es) && es != []
    ensures var k := |es| - 1;
            Runs(s, es[..k]) && Possible(After(s, es[..k]), es[k]) && After(s, es) == Apply(After(s, es[..k]), es[k])
    decreases |es|
  {
    hide Possible, Apply;
    var k := |es| - 1;
    if k == 0 {
      assert es[..k] == [] && es[1..] == [];
    } else {
      AfterLast(Apply(s, es[0]), es[1..]);
      assert es[..k][1..] == es[1..][..k - 1] && es[..k][0] == es[0];
    }
  }

  ghost predicate MadeAt(s: Store, es: seq<Event>, i: nat, t: string, n: string)
    requires i < |es|
  {
    Makes(After(s, es[..i]), es[i], t, n)
  }

  ghost predicate MendedAt(s: Store, es: seq<Event>, i: nat, t: string, n: string)
    requires i < |es|
  {
    Mends(After(s, es[..i]), es[i], t, n)
  }

  /** Some event of the run made him an orphan at the tag, and no later one mended it. */
  ghost predicate Orphaned(s: Store, es: seq<Event>, t: string, n: string) {
    exists i: nat :: i < |es| && MadeAt(s, es, i, t, n) && forall j: nat :: i < j < |es| ==> !MendedAt(s, es, j, t, n)
  }

  lemma AtPrefix(s: Store, es: seq<Event>, k: nat, i: nat, t: string, n: string)
    requires i < k <= |es|
    ensures MadeAt(s, es[..k], i, t, n) == MadeAt(s, es, i, t, n)
    ensures MendedAt(s, es[..k], i, t, n) == MendedAt(s, es, i, t, n)
  {
    assert es[..k][..i] == es[..i];
  }

  lemma OrphanedLast(s: Store, es: seq<Event>, t: string, n: string)
    requires es != []
    ensures var k := |es| - 1;
            Orphaned(s, es, t, n) <==>
              MadeAt(s, es, k, t, n) || (Orphaned(s, es[..k], t, n) && !MendedAt(s, es, k, t, n))
  {
    hide MadeAt, MendedAt;
    var k := |es| - 1;
    forall i: nat | i < k
      ensures MadeAt(s, es[..k], i, t, n) == MadeAt(s, es, i, t, n)
      ensures MendedAt(s, es[..k], i, t, n) == MendedAt(s, es, i, t, n)
    {
      AtPrefix(s, es, k, i, t, n);
    }
    if Orphaned(s, es, t, n) {
      var i: nat :| i < |es| && MadeAt(s, es, i, t, n) && forall j: nat :: i < j < |es| ==> !MendedAt(s, es, j, t, n);
      if i < k { assert MadeAt(s, es[..k], i, t, n); }
    }
    if Orphaned(s, es[..k], t, n) && !MendedAt(s, es, k, t, n) {
      var i: nat :| i < k && MadeAt(s, es[..k], i, t, n)
        && forall j: nat :: i < j < k ==> !MendedAt(s, es[..k], j, t, n);
      assert MadeAt(s, es, i, t, n);
    }
  }

  ghost predicate NoOrphans(s: Store) {
    forall t, n :: !Orphan(s, t, n)
  }

  /** After a run that began without orphans, the orphans are exactly those it made and did not mend. */
  lemma {:induction false} OrphanIffMade(s: Store, es: seq<Event>, t: string, n: string)
    requires Base(s) && NoOrphans(s) && Runs(s, es)
    ensures Orphan(After(s, es), t, n) <==> Orphaned(s, es, t, n)
    decreases |es|
  {
    hide Base, Orphan, Possible, Makes, Mends, Apply;
    if es != [] {
      var k := |es| - 1;
      AfterLast(s, es);
      OrphanIffMade(s, es[..k], t, n);
      BaseAlong(s, es[..k]);
      OrphanStep(After(s, es[..k]), es[k], t, n);
      hide Orphaned, After, Runs;
      OrphanedLast(s, es, t, n);
    }
  }

  lemma {:induction false} RepeatsNobodyIff(s: Store, es: seq<Event>)
    ensures RepeatsNobody(s, es) <==> forall i: nat :: i < |es| ==> !RepeatsUser(After(s, es[..i]), es[i])
    decreases |es|
  {
    hide RepeatsUser, Apply;
    if es != [] {
      var s1 := Apply(s, es[0]);
      RepeatsNobodyIff(s1, es[1..]);
      assert After(s, es[..0]) == s;
      forall i: nat | i < |es| - 1
        ensures RepeatsUser(After(s1, es[1..][..i]), es[1..][i]) == RepeatsUser(After(s, es[..i + 1]), es[i + 1])
      {
        assert es[..i + 1][1..] == es[1..][..i] && es[..i + 1][0] == es[0];
      }
      if forall i: nat :: i < |es| ==> !RepeatsUser(After(s, es[..i]), es[i]) {
        forall i: nat | i < |es[1..]| ensures !RepeatsUser(After(s1, es[1..][..i]), es[1..][i]) {
          assert !RepeatsUser(After(s, es[..i + 1]), es[i + 1]);
        }
      }
      if RepeatsNobody(s, es) {
        forall i: nat | i < |es| ensures !RepeatsUser(After(s, es[..i]), es[i]) {
          if i > 0 { assert !RepeatsUser(After(s1, es[1..][..i - 1]), es[1..][i - 1]); }
        }
      }
    }
  }

  /**
   In a run that begins without orphans, nothing is ever listed or recorded twice exactly when no event adds a
   user, with success by its answers, at a tag where the events before it made him an orphan and did not mend it.
   */
  lemma TagsOnceIff(s: Store, es: seq<Event>)
    requires Base(s) && Unique(s) && NoOrphans(s) && Runs(s, es)
    ensures UniqueAlong(s, es) <==>
            !exists i: nat, t, n :: i < |es| && AddsTo(After(s, es[..i]), es[i], t, n) && Orphaned(s, es[..i], t, n)
  {
    TagsAlwaysOnce(s, es);
    RepeatsNobodyIff(s, es);
    hide UniqueAlong, RepeatsNobody, Orphaned, AddsTo, Orphan, Base, Unique, NoOrphans;
    forall i: nat, t, n | i < |es|
      ensures Orphan(After(s, es[..i]), t, n) <==> Orphaned(s, es[..i], t, n)
    {
      RunsPrefix(s, es, i);
      OrphanIffMade(s, es[..i], t, n);
    }
  }

  lemma {:induction false} RunsPrefix(s: Store, es: seq<Event>, i: nat)
    requires Runs(s, es) && i <= |es|
    ensures Runs(s, es[..i])
    decreases |es|
  {
    if i == |es| {
      assert es[..i] == es;
    } else {
      AfterLast(s, es);
      RunsPrefix(s, es[..|es| - 1], i);
      assert es[..|es| - 1][..i] == es[..i];
    }
  }

  // ---------------------------------------------------------------- the answers that make one

  /** Some removal at the tag was answered otherwise than with a refusal. */
  ghost predicate Tried(tags: seq<string>, o: nat -> Reply, t: string) {
    exists k: nat :: k < |tags| && tags[k] == t && !o(k).removal.Refused?
  }

  /** The first removal at the tag that was not refused took effect and was answered with an error. */
  ghost predicate FirstLost(tags: seq<string>, o: nat -> Reply, t: string) {
    exists k: nat :: k < |tags| && tags[k] == t && o(k).removal.Lost? && !Tried(tags[..k], o, t)
  }

  lemma TriedLast(tags: seq<string>, o: nat -> Reply, t: string)
    requires tags != []
    ensures var k := |tags| - 1;
            Tried(tags, o, t) <==> Tried(tags[..k], o, t) || (tags[k] == t && !o(k).removal.Refused?)
  {
    var k := |tags| - 1;
    assert forall j: nat :: j < k ==> tags[..k][j] == tags[j];
    if Tried(tags[..k], o, t) {
      var j: nat :| j < k && tags[..k][j] == t && !o(j).removal.Refused?;
      assert tags[j] == t;
    }
  }

  lemma FirstLostLast(tags: seq<string>, o: nat -> Reply, t: string)
    requires tags != []
    ensures var k := |tags| - 1;
            FirstLost(tags, o, t) <==>
              FirstLost(tags[..k], o, t) || (tags[k] == t && o(k).removal.Lost? && !Tried(tags[..k], o, t))
  {
    hide Tried;
    var k := |tags| - 1;
    assert forall j: nat :: j < k ==> tags[..k][j] == tags[j] && tags[..k][..j] == tags[..j];
    if FirstLost(tags[..k], o, t) {
      var j: nat :| j < k && tags[..k][j] == t && o(j).removal.Lost? && !Tried(tags[..k][..j], o, t);
      assert tags[j] == t;
    }
  }

  lemma FirstLostTried(tags: seq<string>, o: nat -> Reply, t: string)
    ensures FirstLost(tags, o, t) ==> Tried(tags, o, t)
  {
  }

  /** The visits of a removal at one tag: the first answer that is not a refusal decides. */
  lemma {:induction false} RemovesClosed(p: Place, t: string, tags: seq<string>, o: nat -> Reply)
    requires p.known
    ensures VisitsAt(Deleting, p, t, tags, o) ==
            if !Tried(tags, o, t) then (p, false) else RemoveAt(p, if FirstLost(tags, o, t) then Lost else Done)
  {
    if tags != [] {
      var k := |tags| - 1;
      RemovesClosed(p, t, tags[..k], o);
      TriedLast(tags, o, t);
      FirstLostLast(tags, o, t);
      FirstLostTried(tags[..k], o, t);
      hide Tried, FirstLost;
    }
  }

  /**
   Where tags are real and lists unique, a deletion or a clearing makes an orphan exactly by a lost removal
   of a listed user.
   */
  lemma LossMakes(s: Store, e: Event, t: string, n: string)
    requires Base(s) && AllListed(s) && ListsUnique(s) && (e.DoDelete? || e.DoClear?)
    ensures Makes(s, e, t, n) <==>
            var a := AskedFor(s, e, n);
            a.Ask? && (t, n) in s.runtime && Holds(s, t, n) && FirstLost(a.tags, a.o, t)
  {
    var a := AskedFor(s, e, n);
    if a.Ask? && t in s.inbounds && (t, n) in s.runtime {
      var p := PlaceOf(s, t, n);
      HeldIsCounted(s, t, n);
      CountedOnce(s, t, n);
      RecordedIsHeld(s, t, n);
      RemovesClosed(p, t, a.tags, a.o);
      FirstLostTried(a.tags, a.o, t);
    }
    hide FirstLost, Tried, VisitsAt, ListsUnique, Shape;
  }

  lemma RecordedIsHeld(s: Store, t: string, n: string)
    requires Keyed(s) && AllListed(s)
    ensures Recorded(s, t, n) ==> Holds(s, t, n)
  {
    assert n in s.users ==> Listed(s, s.users[n]);
  }

  /**
   There a reset of distinct tags makes one exactly by a lost removal, or by one that is done before the
   addition is refused.
   */
  lemma ResetMakes(s: Store, e: Event, k: nat)
    requires Base(s) && AllListed(s) && ListsUnique(s) && e.DoReset? && e.user.name != ""
    requires NoDup(TagsMeant(e.user, e.defaults, e.fallback)) && k < |TagsMeant(e.user, e.defaults, e.fallback)|
    ensures var t, n, r := TagsMeant(e.user, e.defaults, e.fallback)[k], e.user.name, e.o(k);
            Makes(s, e, t, n) <==>
              && (t, n) in s.runtime && Holds(s, t, n)
              && (r.removal.Lost? || (r.removal.Done? && r.addition.Refused? && Recorded(s, t, n)))
  {
    var tags, n := TagsMeant(e.user, e.defaults, e.fallback), e.user.name;
    var t := tags[k];
    if t in s.inbounds {
      HeldIsCounted(s, t, n);
      CountedOnce(s, t, n);
      RecordedIsHeld(s, t, n);
      AnswersAt(Resetting, PlaceOf(s, t, n), t, tags, e.o, k);
      if Holds(s, t, n) { HeldIsThere(s, t, n); }
    }
    hide VisitsAt, ListsUnique, Shape, NoDup, Recorded;
  }

  // ---------------------------------------------------------------- runs without such answers

  /** No removal is lost, and no reset has its removal done and its addition not. */
  ghost predicate Plain(e: Event) {
    match e
    case DoDelete(_, _, o) => forall k :: !o(k).removal.Lost?
    case DoReset(_, _, _, o) => forall k :: !o(k).removal.Lost? && !LeftOut(o(k))
    case DoClear(_, _, _, all) => forall n, k :: !all(n)(k).removal.Lost?
    case _ => true
  }

  ghost predicate Sound(s: Store) {
    Base(s) && AllListed(s) && Unique(s) && NoOrphans(s)
  }

  lemma {:induction false} PlainVisits(kind: Kind, p: Place, t: string, tags: seq<string>, o: nat -> Reply)
    requires !kind.Adding? && p.supported && p.count <= 1 && (p.count == 1 ==> p.known)
    requires forall k :: !o(k).removal.Lost? && (kind.Resetting? ==> !LeftOut(o(k)))
    ensures var (q, succ) := VisitsAt(kind, p, t, tags, o);
            && q.supported && q.count <= 1 && (q.count == 1 ==> q.known)
            && (p.count == 1 ==> q.count == 1 || (kind.Deleting? && succ))
  {
    if tags != [] { PlainVisits(kind, p, t, tags[..|tags| - 1], o); }
  }

  lemma PlainMakesNone(s: Store, e: Event, t: string, n: string)
    requires Sound(s) && Plain(e)
    ensures !Makes(s, e, t, n)
  {
    var a := AskedFor(s, e, n);
    if a.Ask? && !a.kind.Adding? && t in s.inbounds {
      var p := PlaceOf(s, t, n);
      HeldIsCounted(s, t, n);
      CountedOnce(s, t, n);
      RecordedIsHeld(s, t, n);
      assert !Orphan(s, t, n);
      if Holds(s, t, n) {
        HeldIsThere(s, t, n);
        PlainVisits(a.kind, p, t, a.tags, a.o);
      } else {
        CountStaysLow(a.kind, p, t, a.tags, a.o);
      }
    }
    hide VisitsAt, Shape, ListsUnique, NoOrphans, AllListed;
  }

  /** Someone who is not listed is listed again only as one the runtime knows. */
  lemma {:induction false} CountStaysLow(kind: Kind, p: Place, t: string, tags: seq<string>, o: nat -> Reply)
    requires !kind.Adding? && p.count == 0
    requires forall k :: !o(k).removal.Lost? && (kind.Resetting? ==> !LeftOut(o(k)))
    ensures var q := VisitsAt(kind, p, t, tags, o).0;
            q.count <= 1 && (q.count == 1 ==> q.known)
  {
    if tags != [] { CountStaysLow(kind, p, t, tags[..|tags| - 1], o); }
  }

  lemma PlainSpares(s: Store, e: Event)
    requires Sound(s) && Plain(e)
    ensures SparesUser(s, e)
  {
    if e.DoReset? && e.user.name != "" && e.user.name in s.users {
      var n, tags := e.user.name, TagsMeant(e.user, e.defaults, e.fallback);
      forall t | t in s.users[n].tags && t in s.inbounds
        ensures VisitsAt(Resetting, PlaceOf(s, t, n), t, tags, e.o).0.count > 0
      {
        RecordedIsHeld(s, t, n);
        HeldIsThere(s, t, n);
        CountedOnce(s, t, n);
        assert !Orphan(s, t, n);
        PlainVisits(Resetting, PlaceOf(s, t, n), t, tags, e.o);
      }
    }
  }

  lemma PlainStep(s: Store, e: Event)
    requires Sound(s) && Plain(e) && Possible(s, e)
    ensures Sound(Apply(s, e))
  {
    StepKeeps(s, e);
    PlainSpares(s, e);
    forall t, n ensures !Orphan(Apply(s, e), t, n) {
      OrphanStep(s, e, t, n);
      PlainMakesNone(s, e, t, n);
      assert !Orphan(s, t, n);
    }
    hide Base, AllListed, Unique, Apply, Possible, SparesUser, AddsTo, Orphan, Makes;
  }

  /** With a runtime that only does or refuses, every tag is real and recorded once in every state of every run. */
  lemma {:induction false} PlainRun(s: Store, es: seq<Event>)
    requires Sound(s) && Runs(s, es) && forall i :: 0 <= i < |es| ==> Plain(es[i])
    ensures ListedAlong(s, es) && UniqueAlong(s, es) && Sound(After(s, es))
    decreases |es|
  {
    hide Base, AllListed, Unique, NoOrphans, Apply, Possible, Plain;
    if es != [] {
      PlainStep(s, es[0]);
      PlainRun(Apply(s, es[0]), es[1..]);
    }
  }

  // ---------------------------------------------------------------- a reset that leaves its user out

  lemma ResetLeavesOut()
    ensures Reset(OneUser(["t"], ["u"], {("t", "u")}), User("u", "p", 0, []), ["t"], "", k => Reply(Done, Refused))
         == (OneUser(["t"], [], {}), false)
  {
    var s, o := OneUser(["t"], ["u"], {("t", "u")}), (k: nat) => Reply(Done, Refused);
    assert ["t"][..0] == [];
    assert OpTags(s, Resetting, "u", [], o) == Outcome(s, [], []);
    assert ["u"][0] == "u" && Without(["u"], "u") == [] && RemoveClient(["u"], "u") == ([], true);
    assert s.inbounds["t" := Inbound(true, [])] == OneUser(["t"], [], {}).inbounds;
    assert s.runtime - {("t", "u")} == {};
    assert RemoveOne(s, "u", "t", Done) == (OneUser(["t"], [], {}), true);
    assert OpTags(s, Resetting, "u", ["t"], o) == Outcome(OneUser(["t"], [], {}), [], ["t"]);
  }

  lemma AddAfterwards()
    ensures Add(OneUser(["t"], [], {}), User("u", "p", 0, ["t"]), [], "", k => Reply(Done, Done))
         == (OneUser(["t", "t"], ["u"], {("t", "u")}), true)
  {
    var s, o := OneUser(["t"], [], {}), (k: nat) => Reply(Done, Done);
    assert ["t"][..0] == [];
    assert OpTags(s, Adding, "u", [], o) == Outcome(s, [], []);
    var s1 := OneUser(["t"], ["u"], {("t", "u")});
    assert [] + ["u"] == ["u"] && ["t"] + ["t"] == ["t", "t"];
    assert s.inbounds["t" := Inbound(true, [] + ["u"])] == s1.inbounds;
    assert OpTags(s, Adding, "u", ["t"], o) == Outcome(s1, ["t"], []);
    assert PutUser(s1, "u", User("u", "p", 0, ["t"] + ["t"])) == OneUser(["t", "t"], ["u"], {("t", "u")});
  }

  /** No reply is lost: a reset whose addition is refused, and an addition after it, record the tag twice. */
  lemma ResetRepeats()
    ensures var s := OneUser(["t"], ["u"], {("t", "u")});
            var es := [DoReset(User("u", "p", 0, []), ["t"], "", k => Reply(Done, Refused)),
                       DoAdd(User("u", "p", 0, ["t"]), [], "", k => Reply(Done, Done))];
            && Sound(s)
            && After(s, es) == OneUser(["t", "t"], ["u"], {("t", "u")})
            && !Unique(After(s, es))
  {
    ResetLeavesOut();
    AddAfterwards();
    var s := OneUser(["t"], ["u"], {("t", "u")});
    var es := [DoReset(User("u", "p", 0, []), ["t"], "", k => Reply(Done, Refused)),
               DoAdd(User("u", "p", 0, ["t"]), [], "", k => Reply(Done, Done))];
    hide Reset, Add;
    assert es[1..][1..] == [];
    var s1 := Apply(s, es[0]);
    assert After(s, es) == After(s1, es[1..]);
    assert After(s1, es[1..]) == After(Apply(s1, es[1..][0]), []);
    var s2 := OneUser(["t", "t"], ["u"], {("t", "u")});
    assert s2.users["u"].tags[0] == s2.users["u"].tags[1];
  }
}
