/**
 One user at one tag.  What an operation does to him there depends only on what the list and
 the runtime hold at that tag and on the answers given there, and is replayed here.
 */
module UserPlaces {
  import opened UserIndex
  import opened UserSafety

  /**
   How often the list holds the user, whether it holds others, whether the runtime knows him, and whether
   the inbound supports users.
   */
  datatype Place = Place(count: nat, others: bool, known: bool, supported: bool)

  ghost predicate HasOthers(clients: seq<string>, name: string) {
    exists c :: c in clients && c != name
  }

  ghost function PlaceOf(s: Store, tag: string, name: string): Place
    requires tag in s.inbounds
  {
    var i := s.inbounds[tag];
    Place(multiset(i.clients)[name], HasOthers(i.clients, name), (tag, name) in s.runtime, i.supported)
  }

  // ---------------------------------------------------------------- the answers at one tag

  function AddAt(p: Place, a: Answer): (Place, bool) {
    if p.known || !p.supported || a.Refused? then (p, false)
    else if a.Lost? then (p.(known := true), false)
    else (p.(count := p.count + 1, known := true), true)
  }

  /** A list that holds others, but not him, is an error; an empty one is not. */
  function RemoveAt(p: Place, a: Answer): (Place, bool) {
    if !p.known || a.Refused? then (p, false)
    else if a.Lost? || (p.count == 0 && p.others) then (p.(known := false), false)
    else (p.(count := if p.count == 0 then 0 else p.count - 1, known := false), true)
  }

  function VisitAt(kind: Kind, p: Place, r: Reply): (Place, bool) {
    match kind
    case Adding => AddAt(p, r.addition)
    case Deleting => RemoveAt(p, r.removal)
    case Resetting =>
      var (q, ok) := RemoveAt(p, r.removal);
      if ok then AddAt(q, r.addition) else (q, false)
  }

  /** All visits of the operation at this tag, one after the other, and whether one of them succeeded. */
  function VisitsAt(kind: Kind, p: Place, tag: string, tags: seq<string>, o: nat -> Reply): (Place, bool) {
    if tags == [] then (p, false)
    else
      var k := |tags| - 1;
      var (q, succ) := VisitsAt(kind, p, tag, tags[..k], o);
      if tags[k] != tag then (q, succ)
      else
        var (q', ok) := VisitAt(kind, q, o(k));
        (q', succ || ok)
  }

  // ---------------------------------------------------------------- the store follows

  lemma OthersAfterAdd(clients: seq<string>, name: string)
    ensures HasOthers(clients + [name], name) == HasOthers(clients, name)
    ensures multiset(clients + [name])[name] == multiset(clients)[name] + 1
  {
    if c :| c in clients && c != name { assert c in clients + [name]; }
  }

  lemma OthersAfterRemove(clients: seq<string>, name: string)
    requires name in clients
    ensures HasOthers(Without(clients, name), name) == HasOthers(clients, name)
    ensures multiset(Without(clients, name))[name] == multiset(clients)[name] - 1
  {
    WithoutUnique(clients, name);
    hide Without;
    if c :| c in clients && c != name { assert c in Without(clients, name); }
  }

  lemma RemoveClientAt(clients: seq<string>, name: string)
    ensures var (rest, found) := RemoveClient(clients, name);
            var count := multiset(clients)[name];
            && found == !(count == 0 && HasOthers(clients, name))
            && (found ==> HasOthers(rest, name) == HasOthers(clients, name))
            && (found ==> multiset(rest)[name] == if count == 0 then 0 else count - 1)
  {
    if name in clients {
      OthersAfterRemove(clients, name);
    } else if clients != [] {
      assert clients[0] in clients;
    }
  }

  /** Everything but the user at this tag is as it was. */
  ghost predicate OnlyAt(s: Store, s': Store, name: string, tag: string) {
    && s'.users == s.users && s'.inbounds.Keys == s.inbounds.Keys
    && (forall t :: t in s.inbounds && t != tag ==> s'.inbounds[t] == s.inbounds[t])
    && (forall t, n :: (t, n) != (tag, name) ==> ((t, n) in s'.runtime <==> (t, n) in s.runtime))
    && (tag in s.inbounds ==>
          && s'.inbounds[tag].supported == s.inbounds[tag].supported
          && forall n :: n != name ==> multiset(s'.inbounds[tag].clients)[n] == multiset(s.inbounds[tag].clients)[n])
  }

  lemma AddOneAt(s: Store, name: string, tag: string, a: Answer)
    requires tag in s.inbounds
    ensures var (s', ok) := AddOne(s, name, tag, a);
            OnlyAt(s, s', name, tag) && (PlaceOf(s', tag, name), ok) == AddAt(PlaceOf(s, tag, name), a)
  {
    OthersAfterAdd(s.inbounds[tag].clients, name);
    hide HasOthers;
  }

  lemma RemoveClientOthers(clients: seq<string>, name: string, n: string)
    requires n != name
    ensures multiset(RemoveClient(clients, name).0)[n] == multiset(clients)[n]
  {
  }

  lemma RemoveOneOnlyAt(s: Store, name: string, tag: string, a: Answer)
    requires tag in s.inbounds
    ensures OnlyAt(s, RemoveOne(s, name, tag, a).0, name, tag)
  {
    var clients := s.inbounds[tag].clients;
    forall n | n != name ensures multiset(RemoveClient(clients, name).0)[n] == multiset(clients)[n] {
      RemoveClientOthers(clients, name, n);
    }
    hide RemoveClient;
  }

  lemma RemoveOneAt(s: Store, name: string, tag: string, a: Answer)
    requires Shape(s) && tag in s.inbounds
    ensures var (s', ok) := RemoveOne(s, name, tag, a);
            OnlyAt(s, s', name, tag) && (PlaceOf(s', tag, name), ok) == RemoveAt(PlaceOf(s, tag, name), a)
  {
    RemoveOneOnlyAt(s, name, tag, a);
    RemoveClientAt(s.inbounds[tag].clients, name);
    if !s.inbounds[tag].supported { NobodyThere(name); }
    hide RemoveClient, HasOthers, OnlyAt;
  }

  lemma NobodyThere(name: string)
    ensures multiset([])[name] == 0 && !HasOthers([], name)
  {
  }

  lemma ShapeStays(s: Store, s': Store, name: string, tag: string)
    requires Shape(s) && tag in s.inbounds && OnlyAt(s, s', name, tag)
    requires !s.inbounds[tag].supported ==> s'.inbounds[tag].clients == []
    ensures Shape(s')
  {
  }

  lemma OnlyAtThen(s: Store, s1: Store, s2: Store, name: string, tag: string)
    requires OnlyAt(s, s1, name, tag) && OnlyAt(s1, s2, name, tag)
    ensures OnlyAt(s, s2, name, tag)
  {
  }

  lemma OneAt(s: Store, kind: Kind, name: string, tag: string, r: Reply)
    requires Shape(s) && tag in s.inbounds
    ensures var (s', ok) := One(s, kind, name, tag, r);
            && Shape(s') && OnlyAt(s, s', name, tag)
            && (PlaceOf(s', tag, name), ok) == VisitAt(kind, PlaceOf(s, tag, name), r)
  {
    hide AddOne, RemoveOne, PlaceOf, AddAt, RemoveAt, OnlyAt, Shape;
    match kind {
      case Adding =>
        AddOneAt(s, name, tag, r.addition);
        AddOneEffect(s, name, tag, r.addition);
      case Deleting =>
        RemoveOneAt(s, name, tag, r.removal);
        RemoveOneEffect(s, name, tag, r.removal);
      case Resetting =>
        RemoveOneAt(s, name, tag, r.removal);
        RemoveOneEffect(s, name, tag, r.removal);
        var s1 := RemoveOne(s, name, tag, r.removal).0;
        StillThere(s, s1, name, tag);
        AddOneAt(s1, name, tag, r.addition);
        AddOneEffect(s1, name, tag, r.addition);
        OnlyAtThen(s, s1, AddOne(s1, name, tag, r.addition).0, name, tag);
    }
  }

  lemma StillThere(s: Store, s': Store, name: string, tag: string)
    requires OnlyAt(s, s', name, tag)
    ensures s'.inbounds.Keys == s.inbounds.Keys
  {
  }

  /** A tag without inbound is an error. */
  lemma NowhereAt(s: Store, kind: Kind, name: string, tag: string, r: Reply)
    requires tag !in s.inbounds
    ensures One(s, kind, name, tag, r) == (s, false)
  {
  }

  // ---------------------------------------------------------------- an operation, tag by tag

  /** Nobody but this user is touched. */
  ghost predicate OnlyUser(s: Store, s': Store, name: string) {
    && s'.users == s.users && s'.inbounds.Keys == s.inbounds.Keys
    && (forall t, n :: n != name ==> ((t, n) in s'.runtime <==> (t, n) in s.runtime))
    && (forall t, n :: t in s.inbounds && n != name ==>
          multiset(s'.inbounds[t].clients)[n] == multiset(s.inbounds[t].clients)[n])
  }

  /** Where the user stands at tag t after the operation on these tags, and whether it succeeded there. */
  ghost predicate FollowsAt(s: Store, x: Outcome, kind: Kind, name: string, tags: seq<string>, o: nat -> Reply,
      t: string)
    requires t in s.inbounds && t in x.store.inbounds
  {
    (PlaceOf(x.store, t, name), t in x.succ) == VisitsAt(kind, PlaceOf(s, t, name), t, tags, o)
  }

  ghost predicate Follows(s: Store, x: Outcome, kind: Kind, name: string, tags: seq<string>, o: nat -> Reply) {
    && Shape(x.store) && OnlyUser(s, x.store, name)
    && (forall t :: t in s.inbounds ==> FollowsAt(s, x, kind, name, tags, o, t))
    && (forall t :: t in x.succ ==> t in s.inbounds)
    && (forall t :: t !in s.inbounds ==> ((t, name) in x.store.runtime <==> (t, name) in s.runtime))
  }

  lemma OnlyUserThen(s: Store, s1: Store, s2: Store, name: string, tag: string)
    requires OnlyUser(s, s1, name) && OnlyAt(s1, s2, name, tag)
    ensures OnlyUser(s, s2, name)
  {
  }

  /** One more tag visited: the user's place there makes one more step, and the others stay. */
  lemma VisitsMore(kind: Kind, p: Place, t: string, tags: seq<string>, tag: string, o: nat -> Reply)
    ensures var (q, succ) := VisitsAt(kind, p, t, tags, o);
            VisitsAt(kind, p, t, tags + [tag], o)
            == if t == tag then (VisitAt(kind, q, o(|tags|)).0, succ || VisitAt(kind, q, o(|tags|)).1) else (q, succ)
  {
    assert (tags + [tag])[..|tags|] == tags;
  }

  lemma FollowsVisitAt(s: Store, x: Outcome, kind: Kind, name: string, tags: seq<string>, tag: string,
      o: nat -> Reply, t: string)
    requires Shape(x.store) && name != "" && tag in x.store.inbounds && t in s.inbounds && t in x.store.inbounds
    requires FollowsAt(s, x, kind, name, tags, o, t)
    ensures var x' := Visit(x, kind, name, tag, o(|tags|));
            t in x'.store.inbounds && FollowsAt(s, x', kind, name, tags + [tag], o, t)
  {
    var r := o(|tags|);
    OneAt(x.store, kind, name, tag, r);
    VisitsMore(kind, PlaceOf(s, t, name), t, tags, tag, o);
    assert tag != "";
    var s' := One(x.store, kind, name, tag, r).0;
    if t != tag { assert PlaceOf(s', t, name) == PlaceOf(x.store, t, name); }
    hide One, VisitAt, VisitsAt, PlaceOf, OnlyAt;
  }

  lemma VisitFrame(s: Store, x: Outcome, kind: Kind, name: string, tag: string, r: Reply)
    requires Shape(x.store) && OnlyUser(s, x.store, name) && name != "" && tag in s.inbounds
    requires forall t :: t in x.succ ==> t in s.inbounds
    requires forall t :: t !in s.inbounds ==> ((t, name) in x.store.runtime <==> (t, name) in s.runtime)
    ensures var x' := Visit(x, kind, name, tag, r);
            && Shape(x'.store) && OnlyUser(s, x'.store, name)
            && (forall t :: t in x'.succ ==> t in s.inbounds)
            && (forall t :: t !in s.inbounds ==> ((t, name) in x'.store.runtime <==> (t, name) in s.runtime))
  {
    OneAt(x.store, kind, name, tag, r);
    var s' := One(x.store, kind, name, tag, r).0;
    OnlyUserThen(s, x.store, s', name, tag);
    assert forall t :: t !in s.inbounds ==> ((t, name) in s'.runtime <==> (t, name) in x.store.runtime);
    hide One, OnlyUser, Shape;
  }

  lemma FollowsVisit(s: Store, x: Outcome, kind: Kind, name: string, tags: seq<string>, tag: string, o: nat -> Reply)
    requires Follows(s, x, kind, name, tags, o) && name != "" && tag in s.inbounds
    ensures Follows(s, Visit(x, kind, name, tag, o(|tags|)), kind, name, tags + [tag], o)
  {
    hide Visit, Shape, FollowsAt, PlaceOf, VisitsAt;
    VisitFrame(s, x, kind, name, tag, o(|tags|));
    var x' := Visit(x, kind, name, tag, o(|tags|));
    forall t | t in s.inbounds ensures t in x'.store.inbounds && FollowsAt(s, x', kind, name, tags + [tag], o, t) {
      assert FollowsAt(s, x, kind, name, tags, o, t);
      FollowsVisitAt(s, x, kind, name, tags, tag, o, t);
    }
  }

  lemma FollowsNowhere(s: Store, x: Outcome, kind: Kind, name: string, tags: seq<string>, tag: string, o: nat -> Reply)
    requires Follows(s, x, kind, name, tags, o) && name != "" && tag !in s.inbounds
    ensures Follows(s, Visit(x, kind, name, tag, o(|tags|)), kind, name, tags + [tag], o)
  {
    var x' := Visit(x, kind, name, tag, o(|tags|));
    NowhereAt(x.store, kind, name, tag, o(|tags|));
    assert (tags + [tag])[..|tags|] == tags;
    hide One, VisitAt, PlaceOf;
    forall t | t in s.inbounds ensures FollowsAt(s, x', kind, name, tags + [tag], o, t) {
      assert FollowsAt(s, x, kind, name, tags, o, t);
    }
  }

  /** What becomes of the user at each tag depends on the answers at that tag only; nobody else is touched. */
  lemma {:induction false} OpFollows(s: Store, kind: Kind, name: string, tags: seq<string>, o: nat -> Reply)
    requires Shape(s) && name != ""
    ensures Follows(s, OpTags(s, kind, name, tags, o), kind, name, tags, o)
  {
    if tags != [] {
      hide Follows, Visit;
      var k := |tags| - 1;
      OpFollows(s, kind, name, tags[..k], o);
      var x := OpTags(s, kind, name, tags[..k], o);
      if tags[k] in s.inbounds {
        FollowsVisit(s, x, kind, name, tags[..k], tags[k], o);
      } else {
        FollowsNowhere(s, x, kind, name, tags[..k], tags[k], o);
      }
      assert tags == tags[..k] + [tags[k]];
    }
  }

  lemma {:induction false} NamelessOp(s: Store, kind: Kind, tags: seq<string>, o: nat -> Reply)
    ensures OpTags(s, kind, "", tags, o).store == s && OpTags(s, kind, "", tags, o).succ == []
  {
    if tags != [] { NamelessOp(s, kind, tags[..|tags| - 1], o); }
  }

  // ---------------------------------------------------------------- places and lists

  lemma HeldIsCounted(s: Store, t: string, name: string)
    requires t in s.inbounds
    ensures Holds(s, t, name) <==> PlaceOf(s, t, name).count > 0
  {
  }

  /** Where nobody is listed twice he is listed at most once. */
  lemma CountedOnce(s: Store, t: string, name: string)
    requires ListsUnique(s) && t in s.inbounds
    ensures PlaceOf(s, t, name).count <= 1
  {
    CountUnique(s.inbounds[t].clients, name);
  }

  lemma {:induction false} CountUnique(clients: seq<string>, name: string)
    requires NoDup(clients)
    ensures multiset(clients)[name] <= 1
  {
    if clients != [] {
      var k := |clients| - 1;
      assert clients == clients[..k] + [clients[k]];
      CountUnique(clients[..k], name);
      assert clients[k] !in clients[..k];
    }
  }
}
