/** Runs of user operations: what holds in every one of them, and exactly when the rest does. */
module UserRuns {
  import opened UserIndex
  import opened UserSafety
  import opened UserPlaces
  import opened UserReset

  datatype Event =
    | DoAdd(user: User, defaults: seq<string>, fallback: string, o: nat -> Reply)
    | DoDelete(user: User, fallback: string, o: nat -> Reply)
    | DoUpdate(user: User)
    | DoReset(user: User, defaults: seq<string>, fallback: string, o: nat -> Reply)
    | DoClear(now: int, names: seq<string>, fallback: string, all: string -> nat -> Reply)
    | DoEnroll(name: string, tags: seq<string>, o: nat -> Reply)

  ghost predicate Possible(s: Store, e: Event) {
    e.DoClear? ==> ExpiredInOrder(s, e.now, e.names)
  }

  function Apply(s: Store, e: Event): Store {
    match e
    case DoAdd(user, defaults, fallback, o) => Add(s, user, defaults, fallback, o).0
    case DoDelete(user, fallback, o) => Delete(s, user, fallback, o).0
    case DoUpdate(user) => Update(s, user).0
    case DoReset(user, defaults, fallback, o) => Reset(s, user, defaults, fallback, o).0
    case DoClear(now, names, fallback, all) => DropAll(s, names, fallback, all)
    case DoEnroll(name, tags, o) => Enroll(s, name, tags, o)
  }

  ghost predicate Runs(s: Store, es: seq<Event>)
    decreases |es|
  {
    es != [] ==> Possible(s, es[0]) && Runs(Apply(s, es[0]), es[1..])
  }

  function After(s: Store, es: seq<Event>): Store
    decreases |es|
  {
    if es == [] then s else After(Apply(s, es[0]), es[1..])
  }

  // ---------------------------------------------------------------- what an event asks for

  /** What an event asks the proxy to do with a user: an operation on tags, with the answers it gets. */
  datatype Asked = Nothing | Ask(kind: Kind, tags: seq<string>, o: nat -> Reply)

  function AskedFor(s: Store, e: Event, n: string): Asked {
    if n == "" then Nothing
    else
      match e
      case DoAdd(user, defaults, fallback, o) =>
        if user.name == n && Addable(s, user) then Ask(Adding, TagsMeant(user, defaults, fallback), o) else Nothing
      case DoDelete(user, fallback, o) =>
        if user.name == n && n in s.users then Ask(Deleting, TagsMeant(user, s.users[n].tags, fallback), o) else Nothing
      case DoUpdate(user) => Nothing
      case DoReset(user, defaults, fallback, o) =>
        if user.name == n then Ask(Resetting, TagsMeant(user, defaults, fallback), o) else Nothing
      case DoClear(now, names, fallback, all) =>
        if n in names && n in s.users && s.users[n].tags != [] then Ask(Deleting, s.users[n].tags, all(n)) else Nothing
      case DoEnroll(name, tags, o) =>
        if name == n && n in s.users && s.users[n].tags == [] then Ask(Adding, tags, o) else Nothing
  }

  /** Some addition at the tag was answered otherwise than with a refusal. */
  ghost predicate Reached(tags: seq<string>, o: nat -> Reply, t: string) {
    exists k: nat :: k < |tags| && tags[k] == t && !o(k).addition.Refused?
  }

  /** The first addition at the tag that was not refused was done. */
  ghost predicate FirstDone(tags: seq<string>, o: nat -> Reply, t: string) {
    exists k: nat :: k < |tags| && tags[k] == t && o(k).addition.Done? && !Reached(tags[..k], o, t)
  }

  /** The event asks to add the user at the tag, and by the answers he is added there if the runtime lacks him. */
  ghost predicate AddsTo(s: Store, e: Event, t: string, n: string) {
    var a := AskedFor(s, e, n);
    a.Ask? && a.kind.Adding? && t in s.inbounds && s.inbounds[t].supported && FirstDone(a.tags, a.o, t)
  }

  lemma ReachedLast(tags: seq<string>, o: nat -> Reply, t: string)
    requires tags != []
    ensures var k := |tags| - 1;
            Reached(tags, o, t) <==> Reached(tags[..k], o, t) || (tags[k] == t && !o(k).addition.Refused?)
  {
    var k := |tags| - 1;
    assert forall j: nat :: j < k ==> tags[..k][j] == tags[j];
    if Reached(tags[..k], o, t) {
      var j: nat :| j < k && tags[..k][j] == t && !o(j).addition.Refused?;
      assert tags[j] == t;
    }
  }

  lemma FirstDoneLast(tags: seq<string>, o: nat -> Reply, t: string)
    requires tags != []
    ensures var k := |tags| - 1;
            FirstDone(tags, o, t) <==>
              FirstDone(tags[..k], o, t) || (tags[k] == t && o(k).addition.Done? && !Reached(tags[..k], o, t))
  {
    hide Reached;
    var k := |tags| - 1;
    assert forall j: nat :: j < k ==> tags[..k][j] == tags[j] && tags[..k][..j] == tags[..j];
    if FirstDone(tags[..k], o, t) {
      var j: nat :| j < k && tags[..k][j] == t && o(j).addition.Done? && !Reached(tags[..k][..j], o, t);
      assert tags[j] == t;
    }
  }

  /** The visits of an addition at one tag, in closed form. */
  lemma {:induction false} AddsClosed(p: Place, t: string, tags: seq<string>, o: nat -> Reply)
    ensures var (q, succ) := VisitsAt(Adding, p, t, tags, o);
            && (p.known || !p.supported ==> q == p && !succ)
            && (!p.known && p.supported ==>
                  && succ == FirstDone(tags, o, t) && q.known == Reached(tags, o, t)
                  && q.count == p.count + if succ then 1 else 0)
            && q.supported == p.supported
  {
    if tags != [] {
      var k := |tags| - 1;
      AddsClosed(p, t, tags[..k], o);
      ReachedLast(tags, o, t);
      FirstDoneLast(tags, o, t);
      FirstDoneReached(tags[..k], o, t);
      hide Reached, FirstDone;
    }
  }

  lemma FirstDoneReached(tags: seq<string>, o: nat -> Reply, t: string)
    ensures FirstDone(tags, o, t) ==> Reached(tags, o, t)
  {
  }

  /** Where an addition succeeds, by what was there and by the answers. */
  lemma AddSucceedsIff(s: Store, name: string, tags: seq<string>, o: nat -> Reply, t: string)
    requires Shape(s) && name != ""
    ensures t in OpTags(s, Adding, name, tags, o).succ <==>
            t in s.inbounds && s.inbounds[t].supported && (t, name) !in s.runtime && FirstDone(tags, o, t)
  {
    hide FirstDone, OpTags, Shape;
    OpFollows(s, Adding, name, tags, o);
    if t in s.inbounds {
      AddsClosed(PlaceOf(s, t, name), t, tags, o);
      assert FollowsAt(s, OpTags(s, Adding, name, tags, o), Adding, name, tags, o, t);
    }
  }

  // ---------------------------------------------------------------- one event

  /** If the event is a reset, it leaves the user in the lists of his tags. */
  ghost predicate SparesUser(s: Store, e: Event) {
    e.DoReset? ==> Spares(s, e.user.name, TagsMeant(e.user, e.defaults, e.fallback), e.o)
  }

  /** The user is listed at the tag, or has it in his record, and the runtime does not know him there. */
  ghost predicate Orphan(s: Store, t: string, n: string) {
    (Holds(s, t, n) || Recorded(s, t, n)) && (t, n) !in s.runtime
  }

  /** The event adds a user where he is an orphan. */
  ghost predicate RepeatsUser(s: Store, e: Event) {
    exists t, n :: Orphan(s, t, n) && AddsTo(s, e, t, n)
  }

  lemma RepeatsIffOrphan(s: Store, name: string, tags: seq<string>, o: nat -> Reply)
    requires Shape(s) && name != ""
    ensures Repeats(s, name, OpTags(s, Adding, name, tags, o).succ) <==>
            exists t :: Orphan(s, t, name) && t in s.inbounds && s.inbounds[t].supported && FirstDone(tags, o, t)
  {
    hide OpTags, FirstDone, Shape, Holds, Recorded;
    forall t: string { AddSucceedsIff(s, name, tags, o, t); }
  }

  lemma AddRepeatsIff(s: Store, e: Event)
    requires Shape(s) && (e.DoAdd? || e.DoEnroll?)
    ensures var n := if e.DoAdd? then e.user.name else e.name;
            var a := AskedFor(s, e, n);
            RepeatsUser(s, e) <==> a.Ask? && Repeats(s, n, OpTags(s, Adding, n, a.tags, a.o).succ)
  {
    hide OpTags, FirstDone, Shape, Orphan, Repeats;
    var n := if e.DoAdd? then e.user.name else e.name;
    var a := AskedFor(s, e, n);
    if a.Ask? { RepeatsIffOrphan(s, n, a.tags, a.o); }
    assert forall m :: m != n ==> AskedFor(s, e, m).Nothing?;
  }

  /**
   One event with any answers.  Recorded tags stay listed exactly when a reset spares its user; tags and lists
   stay unique exactly when no orphan is added.
   */
  lemma StepKeeps(s: Store, e: Event)
    requires Base(s) && Possible(s, e)
    ensures Base(Apply(s, e))
    ensures AllListed(s) ==> (AllListed(Apply(s, e)) <==> SparesUser(s, e))
    ensures Unique(s) ==> (Unique(Apply(s, e)) <==> !RepeatsUser(s, e))
  {
    hide Shape, Keyed, AllListed, Unique, Spares, Repeats, NoDup, OpTags, RepeatsUser;
    match e {
      case DoAdd(user, defaults, fallback, o) =>
        AddKeeps(s, user, defaults, fallback, o);
        AddRepeatsIff(s, e);
      case DoDelete(user, fallback, o) =>
        DeleteKeeps(s, user, fallback, o);
        NoAddition(s, e);
      case DoUpdate(user) =>
        UpdateKeeps(s, user);
        NoAddition(s, e);
      case DoReset(user, defaults, fallback, o) =>
        ResetKeepsIff(s, user, defaults, fallback, o);
        NoAddition(s, e);
      case DoClear(now, names, fallback, all) =>
        DropAllKeeps(s, names, fallback, all);
        NoAddition(s, e);
      case DoEnroll(name, tags, o) =>
        EnrollKeeps(s, name, tags, o);
        if name == "" { NamelessOp(s, Adding, tags, o); }
        NobodyRepeats(s, name);
        AddRepeatsIff(s, e);
    }
  }

  lemma NobodyRepeats(s: Store, name: string)
    ensures !Repeats(s, name, [])
  {
  }

  lemma NoAddition(s: Store, e: Event)
    requires !e.DoAdd? && !e.DoEnroll?
    ensures !RepeatsUser(s, e)
  {
  }

  // ---------------------------------------------------------------- whole runs

  ghost predicate SparesUsers(s: Store, es: seq<Event>)
    decreases |es|
  {
    es != [] ==> SparesUser(s, es[0]) && SparesUsers(Apply(s, es[0]), es[1..])
  }

  ghost predicate RepeatsNobody(s: Store, es: seq<Event>)
    decreases |es|
  {
    es != [] ==> !RepeatsUser(s, es[0]) && RepeatsNobody(Apply(s, es[0]), es[1..])
  }

  /** In every state of the run each recorded tag is one whose inbound lists the user. */
  ghost predicate ListedAlong(s: Store, es: seq<Event>)
    decreases |es|
  {
    AllListed(s) && (es != [] ==> ListedAlong(Apply(s, es[0]), es[1..]))
  }

  /** In every state of the run nothing is listed or recorded twice. */
  ghost predicate UniqueAlong(s: Store, es: seq<Event>)
    decreases |es|
  {
    Unique(s) && (es != [] ==> UniqueAlong(Apply(s, es[0]), es[1..]))
  }

  /** Recorded tags stay real over a whole run, with any answers, exactly when every reset in it spares its user. */
  lemma {:induction false} TagsAlwaysReal(s: Store, es: seq<Event>)
    requires Base(s) && AllListed(s) && Runs(s, es)
    ensures Base(After(s, es))
    ensures ListedAlong(s, es) <==> SparesUsers(s, es)
    ensures SparesUsers(s, es) ==> AllListed(After(s, es))
    decreases |es|
  {
    hide Base, AllListed, Apply, Possible, SparesUser;
    if es != [] {
      StepKeeps(s, es[0]);
      var s1 := Apply(s, es[0]);
      if AllListed(s1) {
        TagsAlwaysReal(s1, es[1..]);
      } else {
        BaseAlong(s1, es[1..]);
        NotListed(s1, es[1..]);
      }
    }
  }

  lemma {:induction false} BaseAlong(s: Store, es: seq<Event>)
    requires Base(s) && Runs(s, es)
    ensures Base(After(s, es))
    decreases |es|
  {
    hide Base, Apply, Possible;
    if es != [] {
      StepKeeps(s, es[0]);
      BaseAlong(Apply(s, es[0]), es[1..]);
    }
  }

  lemma NotListed(s: Store, es: seq<Event>)
    requires !AllListed(s)
    ensures !ListedAlong(s, es)
  {
  }

  /** Nothing is listed or recorded twice in any state of a run exactly when no event of it adds an orphan. */
  lemma {:induction false} TagsAlwaysOnce(s: Store, es: seq<Event>)
    requires Base(s) && Unique(s) && Runs(s, es)
    ensures UniqueAlong(s, es) <==> RepeatsNobody(s, es)
    decreases |es|
  {
    hide Base, Unique, Apply, Possible, RepeatsUser;
    if es != [] {
      StepKeeps(s, es[0]);
      var s1 := Apply(s, es[0]);
      if Unique(s1) { TagsAlwaysOnce(s1, es[1..]); }
    }
  }

  function OneUser(tags: seq<string>, clients: seq<string>, runtime: set<(string, string)>): Store {
    Store(map["u" := User("u", "p", 0, tags)], map["t" := Inbound(true, clients)], runtime)
  }

  lemma DeleteLost()
    ensures Delete(OneUser(["t"], ["u"], {("t", "u")}), User("u", "p", 0, []), "", k => Reply(Lost, Done))
         == (OneUser(["t"], ["u"], {}), false)
  {
    var s, o := OneUser(["t"], ["u"], {("t", "u")}), (k: nat) => Reply(Lost, Done);
    assert ["t"][..0] == [];
    assert OpTags(s, Deleting, "u", [], o) == Outcome(s, [], []);
    assert OpTags(s, Deleting, "u", ["t"], o) == Outcome(OneUser(["t"], ["u"], {}), [], ["t"]);
  }

  lemma AddTwice()
    ensures Add(OneUser(["t"], ["u"], {}), User("u", "p", 0, ["t"]), [], "", k => Reply(Done, Done))
         == (OneUser(["t", "t"], ["u", "u"], {("t", "u")}), true)
  {
    var s, o := OneUser(["t"], ["u"], {}), (k: nat) => Reply(Done, Done);
    assert ["t"][..0] == [];
    assert OpTags(s, Adding, "u", [], o) == Outcome(s, [], []);
    var s1 := OneUser(["t"], ["u", "u"], {("t", "u")});
    assert ["u"] + ["u"] == ["u", "u"] && ["t"] + ["t"] == ["t", "t"];
    assert s.inbounds["t" := Inbound(true, ["u"] + ["u"])] == s1.inbounds;
    assert OpTags(s, Adding, "u", ["t"], o) == Outcome(s1, ["t"], []);
    assert PutUser(s1, "u", User("u", "p", 0, ["t"] + ["t"])) == OneUser(["t", "t"], ["u", "u"], {("t", "u")});
  }

  /** A removal whose reply is lost, and an addition after it: the tag is recorded twice and the user listed twice. */
  lemma LostRemovalRepeats()
    ensures var s := OneUser(["t"], ["u"], {("t", "u")});
            var es := [DoDelete(User("u", "p", 0, []), "", k => Reply(Lost, Done)),
                       DoAdd(User("u", "p", 0, ["t"]), [], "", k => Reply(Done, Done))];
            && Base(s) && AllListed(s) && Unique(s)
            && After(s, es) == OneUser(["t", "t"], ["u", "u"], {("t", "u")})
            && AllListed(After(s, es)) && !Unique(After(s, es))
  {
    DeleteLost();
    AddTwice();
    var s := OneUser(["t"], ["u"], {("t", "u")});
    var es := [DoDelete(User("u", "p", 0, []), "", k => Reply(Lost, Done)),
               DoAdd(User("u", "p", 0, ["t"]), [], "", k => Reply(Done, Done))];
    hide Delete, Add;
    assert es[1..][1..] == [];
    var s1 := Apply(s, es[0]);
    assert After(s, es) == After(s1, es[1..]);
    assert After(s1, es[1..]) == After(Apply(s1, es[1..][0]), []);
    var s2 := OneUser(["t", "t"], ["u", "u"], {("t", "u")});
    assert s2.users["u"].tags[0] == s2.users["u"].tags[1];
  }

  // ---------------------------------------------------------------- deletion and clearing

  /**
   After a deletion the remaining tags are the recorded ones that it did not remove; where nobody is listed
   twice these are the ones whose inbound still has the user.  A user without tags is marked as expired,
   unless he had none and the whole request was refused; every other user keeps his expiry.
   */
  lemma DeleteExact(s: Store, u: User, fallback: string, o: nat -> Reply)
    requires Base(s) && AllListed(s) && u.name != "" && u.name in s.users
    ensures var (s', ok) := Delete(s, u, fallback, o);
            var was := s.users[u.name];
            var tried := if u.tags != [] then u.tags else if was.tags != [] then was.tags else [fallback];
            var x := OpTags(s, Deleting, u.name, tried, o);
            && ok == (x.failed == [])
            && s'.inbounds == x.store.inbounds && s'.runtime == x.store.runtime
            && s'.users.Keys == s.users.Keys
            && (forall n :: n in s.users && n != u.name ==> s'.users[n] == s.users[n])
            && var left := s'.users[u.name];
               && left.passwd == was.passwd
               && (forall t :: t in left.tags <==> t in was.tags && t !in x.succ)
               && (forall t :: t in left.tags ==> Holds(s', t, u.name))
               && (ListsUnique(s) ==> forall t :: t in left.tags <==> t in was.tags && Holds(s', t, u.name))
               && (left.expire ==
                     if left.tags == [] && !(was.tags == [] && x.succ == [] && x.failed != []) then 1 else was.expire)
  {
    hide Shape, ListsUnique, NoDup, OpTags, Holds;
    var was := s.users[u.name];
    var tags := TagsMeant(u, was.tags, fallback);
    RemoveTagsEffect(s, u.name, tags, o);
    var x := OpTags(s, Deleting, u.name, tags, o);
    UsersDoNotMatter(x.store, x.store.users[u.name := Strip(was, x.succ)]);
    assert Listed(s, was) && was.name == u.name;
  }

  /** Every tag that was tried ends up among the successes or the failures; the empty one in neither. */
  lemma {:induction false} TriedIsReported(s: Store, kind: Kind, name: string, tags: seq<string>, o: nat -> Reply)
    requires name != ""
    ensures var x := OpTags(s, kind, name, tags, o);
            forall t :: t in x.succ || t in x.failed <==> t in tags && t != ""
  {
    if tags != [] {
      var k := |tags| - 1;
      TriedIsReported(s, kind, name, tags[..k], o);
      assert tags == tags[..k] + [tags[k]];
      hide One;
    }
  }

  /** Without a name every tag is a failure and nothing is done; so a reset of nobody fails. */
  lemma {:induction false} NamelessFails(s: Store, kind: Kind, tags: seq<string>, o: nat -> Reply)
    ensures OpTags(s, kind, "", tags, o) == Outcome(s, [], tags)
  {
    if tags != [] {
      var k := |tags| - 1;
      NamelessFails(s, kind, tags[..k], o);
      assert tags == tags[..k] + [tags[k]];
    }
  }

  lemma NobodyIsReset(s: Store, u: User, defaults: seq<string>, fallback: string, o: nat -> Reply)
    requires u.name == ""
    ensures Reset(s, u, defaults, fallback, o) == (s, false)
  {
    NamelessFails(s, Resetting, TagsMeant(u, defaults, fallback), o);
    hide OpTags;
  }

  /**
   Where neither the request nor the configuration names a tag, a new user is stored without tags and the request
   succeeds: the empty tag is tried, in vain, and not reported.
   */
  lemma AddNowhere(s: Store, u: User, o: nat -> Reply)
    requires Base(s) && u.name != "" && u.name !in s.users && u.passwd != "" && u.tags == []
    ensures Add(s, u, [], "", o) == (s.(users := s.users[u.name := u]), true)
  {
    assert OpTags(s, Adding, u.name, [""][..0], o) == Outcome(s, [], []);
    var x := OpTags(s, Adding, u.name, [""], o);
    assert x == Outcome(s, [], []);
    assert u.(tags := []) == u;
  }

  /**
   A first Add stores the password and the expiry of the request with the tags that succeeded; a later one only
   appends these.  Nothing is stored when nothing succeeded and something failed; nobody else is touched.
   */
  lemma AddExact(s: Store, u: User, defaults: seq<string>, fallback: string, o: nat -> Reply)
    requires Base(s)
    ensures var (s', ok) := Add(s, u, defaults, fallback, o);
            var tried := if u.tags != [] then u.tags else if defaults != [] then defaults else [fallback];
            var x := OpTags(s, Adding, u.name, tried, o);
            if u.name == "" || (u.name !in s.users && u.passwd == "") then s' == s && !ok
            else
              && ok == (x.failed == [])
              && s'.inbounds == x.store.inbounds && s'.runtime == x.store.runtime
              && (x.succ == [] && x.failed != [] ==> s'.users == s.users)
              && (!(x.succ == [] && x.failed != []) ==>
                    && s'.users.Keys == s.users.Keys + {u.name}
                    && (forall n :: n in s.users && n != u.name ==> s'.users[n] == s.users[n])
                    && s'.users[u.name].name == u.name
                    && (u.name !in s.users ==>
                          && s'.users[u.name].passwd == u.passwd && s'.users[u.name].expire == u.expire
                          && s'.users[u.name].tags == x.succ)
                    && (u.name in s.users ==>
                          && s'.users[u.name].passwd == s.users[u.name].passwd
                          && s'.users[u.name].expire == s.users[u.name].expire
                          && s'.users[u.name].tags == s.users[u.name].tags + x.succ))
  {
    hide Shape, OpTags;
    AddTagsEffect(s, u.name, TagsMeant(u, defaults, fallback), o);
    hide Gains, ListsUnique, NoDup, Holds;
  }

  /** A user that is not there cannot be deleted. */
  lemma DeleteRefused(s: Store, u: User, fallback: string, o: nat -> Reply)
    requires u.name == "" || u.name !in s.users
    ensures Delete(s, u, fallback, o) == (s, false)
  {
  }

  /** An update replaces the password and the expiry of a user that is there, and nothing else. */
  lemma UpdateExact(s: Store, u: User)
    ensures var (s', ok) := Update(s, u);
            && (ok <==> u.passwd != "" && u.name in s.users)
            && (!ok ==> s' == s)
            && (ok ==>
                  && s'.users.Keys == s.users.Keys
                  && s'.users[u.name].passwd == u.passwd && s'.users[u.name].expire == u.expire
                  && s'.users[u.name].name == s.users[u.name].name && s'.users[u.name].tags == s.users[u.name].tags
                  && (forall n :: n in s.users && n != u.name ==> s'.users[n] == s.users[n]))
            && s'.inbounds == s.inbounds && s'.runtime == s.runtime
  {
  }

  /**
   A reset visits the tags of the request or the default ones, reports a failure at any of them, and leaves
   all records alone.
   */
  lemma ResetExact(s: Store, u: User, defaults: seq<string>, fallback: string, o: nat -> Reply)
    requires Base(s)
    ensures var (s', ok) := Reset(s, u, defaults, fallback, o);
            var tried := if u.tags != [] then u.tags else if defaults != [] then defaults else [fallback];
            var x := OpTags(s, Resetting, u.name, tried, o);
            ok == (x.failed == []) && s' == x.store && s'.users == s.users
  {
    hide Base;
    ResetKeepsIff(s, u, defaults, fallback, o);
    hide OpTags;
  }

  /** Clearing removes exactly the expired users; the others keep their records and their places. */
  lemma ClearExact(s: Store, now: int, names: seq<string>, fallback: string, o: string -> nat -> Reply)
    requires Base(s) && ExpiredInOrder(s, now, names)
    ensures var s' := DropAll(s, names, fallback, o);
            && (forall n :: n in s'.users <==> n in s.users && !(0 < s.users[n].expire < now))
            && (forall n :: n in s'.users ==> s'.users[n] == s.users[n])
            && (forall t, n :: n in s'.users ==> (Holds(s', t, n) <==> Holds(s, t, n)))
  {
    hide Base, AllListed, Unique, Holds, NoDup;
    DropAllKeeps(s, names, fallback, o);
  }

  /** A marked user stays marked until he is updated or cleared, even when he is added to tags again. */
  lemma {:induction false} MarkStays(s: Store, es: seq<Event>, name: string)
    requires Base(s) && Runs(s, es) && name in s.users && s.users[name].expire == 1
    requires forall i :: 0 <= i < |es| ==> !es[i].DoClear? && !(es[i].DoUpdate? && es[i].user.name == name)
    ensures name in After(s, es).users && After(s, es).users[name].expire == 1
    decreases |es|
  {
    hide Base;
    if es != [] {
      StepKeeps(s, es[0]);
      MarkStep(s, es[0], name);
      MarkStays(Apply(s, es[0]), es[1..], name);
    }
  }

  lemma MarkStep(s: Store, e: Event, name: string)
    requires Base(s) && name in s.users && s.users[name].expire == 1
    requires !e.DoClear? && !(e.DoUpdate? && e.user.name == name)
    ensures name in Apply(s, e).users && Apply(s, e).users[name].expire == 1
  {
    hide Shape, Keyed, Holds, OpTags, NoDup, Gains, Loses, LosesAtMost, ListsUnique, Reset;
    if e.DoAdd? {
      AddTagsEffect(s, e.user.name, TagsMeant(e.user, e.defaults, e.fallback), e.o);
    } else if e.DoEnroll? {
      AddTagsEffect(s, e.name, e.tags, e.o);
    } else if e.DoDelete? && e.user.name in s.users {
      RemoveTagsEffect(s, e.user.name, TagsMeant(e.user, s.users[e.user.name].tags, e.fallback), e.o);
    } else if e.DoReset? {
      ResetKeepsIff(s, e.user, e.defaults, e.fallback, e.o);
    }
  }

  /** A user deleted from all his tags is gone with the next clearing, and no user who is not expired is. */
  lemma DeletedIsCleared(s: Store, u: User, fallback: string, o: nat -> Reply, es: seq<Event>, clear: Event)
    requires Base(s) && AllListed(s) && u.name != "" && u.name in s.users && s.users[u.name].tags != []
    requires u.name in Delete(s, u, fallback, o).0.users && Delete(s, u, fallback, o).0.users[u.name].tags == []
    requires Runs(Delete(s, u, fallback, o).0, es)
    requires forall i :: 0 <= i < |es| ==> !es[i].DoClear? && !(es[i].DoUpdate? && es[i].user.name == u.name)
    requires clear.DoClear? && clear.now > 1 && Possible(After(Delete(s, u, fallback, o).0, es), clear)
    ensures var s2 := After(Delete(s, u, fallback, o).0, es);
            && u.name !in Apply(s2, clear).users
            && forall n :: n in s2.users && !Expired(s2.users[n], clear.now) ==> n in Apply(s2, clear).users
  {
    hide Base, AllListed, Delete, Holds, DropAll, NoDup, OpTags, ListsUnique;
    DeleteExact(s, u, fallback, o);
    DeleteKeeps(s, u, fallback, o);
    var s1 := Delete(s, u, fallback, o).0;
    MarkStays(s1, es, u.name);
    BaseAlong(s1, es);
    ClearExact(After(s1, es), clear.now, clear.names, clear.fallback, clear.all);
  }
}
