/**
 Resetting a user: at each tag he is removed and added again.  What becomes of him at a
 tag depends only on what the runtime answers there, and is followed here tag by tag.
 */
module UserReset {
  import opened UserIndex
  import opened UserSafety
  import opened UserPlaces

  // ---------------------------------------------------------------- when a reset leaves nobody out

  /** By the answers at each of his recorded tags, the user is in the list afterwards. */
  ghost predicate Spares(s: Store, name: string, tags: seq<string>, o: nat -> Reply) {
    name != "" && name in s.users ==>
      forall t :: t in s.users[name].tags && t in s.inbounds ==>
        VisitsAt(Resetting, PlaceOf(s, t, name), t, tags, o).0.count > 0
  }

  /** A reset repeats nobody in a list, and touches nobody else. */
  lemma {:induction false} ResetFrame(s: Store, name: string, tags: seq<string>, o: nat -> Reply)
    requires Shape(s)
    ensures var s' := OpTags(s, Resetting, name, tags, o).store;
            && SameFrame(s, s') && (ListsUnique(s) ==> ListsUnique(s'))
            && forall t, n :: n != name ==> (Holds(s', t, n) <==> Holds(s, t, n))
  {
    if tags != [] {
      hide Shape, Holds, ListsUnique, ResetOne;
      var k := |tags| - 1;
      ResetFrame(s, name, tags[..k], o);
      ResetOneFrame(OpTags(s, Resetting, name, tags[..k], o).store, name, tags[k], o(k));
    }
  }

  lemma ResetOneFrame(s: Store, name: string, tag: string, r: Reply)
    requires Shape(s)
    ensures var s' := ResetOne(s, name, tag, r.removal, r.addition).0;
            && SameFrame(s, s') && (ListsUnique(s) ==> ListsUnique(s'))
            && forall t, n :: n != name ==> (Holds(s', t, n) <==> Holds(s, t, n))
  {
    hide RemoveOne, AddOne, Shape, ListsUnique, Holds;
    var s1 := RemoveOne(s, name, tag, r.removal).0;
    RemoveOneEffect(s, name, tag, r.removal);
    AddOneEffect(s1, name, tag, r.addition);
  }

  /**
   A reset of any tags, of any user, keeps every recorded tag listed exactly when it spares the user at
   each of his tags, and never makes anything repeat.
   */
  lemma ResetKeepsIff(s: Store, u: User, defaults: seq<string>, fallback: string, o: nat -> Reply)
    requires Base(s)
    ensures var s' := Reset(s, u, defaults, fallback, o).0;
            && Base(s') && s'.users == s.users && (Unique(s) ==> Unique(s'))
            && (AllListed(s) ==> (AllListed(s') <==> Spares(s, u.name, TagsMeant(u, defaults, fallback), o)))
  {
    hide Shape, Holds, OpTags, ListsUnique, PlaceOf, NoDup;
    var tags, name := TagsMeant(u, defaults, fallback), u.name;
    var s' := Reset(s, u, defaults, fallback, o).0;
    ResetFrame(s, name, tags, o);
    if name == "" {
      NamelessOp(s, Resetting, tags, o);
    } else {
      OpFollows(s, Resetting, name, tags, o);
      if AllListed(s) { ListedAfterReset(s, s', name, tags, o); }
    }
  }

  lemma ListedAfterReset(s: Store, s': Store, name: string, tags: seq<string>, o: nat -> Reply)
    requires Base(s) && AllListed(s) && name != "" && SameFrame(s, s')
    requires forall t :: t in s.inbounds ==>
               t in s'.inbounds && PlaceOf(s', t, name) == VisitsAt(Resetting, PlaceOf(s, t, name), t, tags, o).0
    requires forall t, n :: n != name ==> (Holds(s', t, n) <==> Holds(s, t, n))
    ensures AllListed(s') <==> Spares(s, name, tags, o)
  {
    hide Holds, Shape, PlaceOf, VisitsAt;
    if name in s.users {
      var u := s.users[name];
      forall t | t in u.tags
        ensures t in s.inbounds
        ensures Holds(s', t, name) <==> VisitsAt(Resetting, PlaceOf(s, t, name), t, tags, o).0.count > 0
      {
        assert Listed(s, u);
        HeldIsThere(s, t, name);
        HeldIsCounted(s', t, name);
      }
      assert Listed(s', u) <==> Spares(s, name, tags, o);
    }
    assert forall n :: n in s.users && n != name ==> Listed(s', s.users[n]);
  }

  lemma HeldIsThere(s: Store, t: string, name: string)
    requires Shape(s) && Holds(s, t, name)
    ensures t in s.inbounds && s.inbounds[t].supported && PlaceOf(s, t, name).count > 0 && PlaceOf(s, t, name).supported
  {
    HeldIsCounted(s, t, name);
  }

  // ---------------------------------------------------------------- distinct tags

  /** The runtime let the user go but did not take him back. */
  predicate LeftOut(r: Reply) {
    r.removal.Done? && !r.addition.Done?
  }

  lemma {:induction false} AnswersAt(kind: Kind, p: Place, tag: string, tags: seq<string>, o: nat -> Reply, k: nat)
    requires NoDup(tags) && k < |tags| && tags[k] == tag
    ensures VisitsAt(kind, p, tag, tags, o) == VisitAt(kind, p, o(k))
  {
    var last := |tags| - 1;
    if k == last {
      NotAsked(kind, p, tag, tags[..last], o);
    } else {
      AnswersAt(kind, p, tag, tags[..last], o, k);
    }
  }

  lemma {:induction false} NotAsked(kind: Kind, p: Place, tag: string, tags: seq<string>, o: nat -> Reply)
    requires tag !in tags
    ensures VisitsAt(kind, p, tag, tags, o) == (p, false)
  {
    if tags != [] { NotAsked(kind, p, tag, tags[..|tags| - 1], o); }
  }

  /** With distinct tags: he is left out exactly where the runtime knew him, listed once, and did not take him back. */
  lemma SparesDistinct(s: Store, name: string, tags: seq<string>, o: nat -> Reply)
    requires Base(s) && AllListed(s) && NoDup(tags) && name != "" && name in s.users
    ensures Spares(s, name, tags, o) <==>
            forall k :: 0 <= k < |tags| && tags[k] in s.users[name].tags && tags[k] in s.inbounds && LeftOut(o(k)) ==>
              var p := PlaceOf(s, tags[k], name); !(p.known && p.count == 1)
  {
    hide PlaceOf, Holds, Shape, NoDup;
    var u := s.users[name];
    assert Listed(s, u) && u.name == name;
    forall t | t in u.tags
      ensures t in s.inbounds && PlaceOf(s, t, name).count > 0 && PlaceOf(s, t, name).supported
      ensures t !in tags ==> VisitsAt(Resetting, PlaceOf(s, t, name), t, tags, o).0.count > 0
    {
      HeldIsThere(s, t, name);
      if t !in tags { NotAsked(Resetting, PlaceOf(s, t, name), t, tags, o); }
    }
    forall k | 0 <= k < |tags| && tags[k] in u.tags
      ensures VisitsAt(Resetting, PlaceOf(s, tags[k], name), tags[k], tags, o)
           == VisitAt(Resetting, PlaceOf(s, tags[k], name), o(k))
    {
      AnswersAt(Resetting, PlaceOf(s, tags[k], name), tags[k], tags, o, k);
    }
    hide VisitsAt;
  }

  /** One user, one tag, and a runtime that does not take him back. */
  lemma ResetMayBreak()
    ensures var s := Store(map["u" := User("u", "p", 0, ["t"])], map["t" := Inbound(true, ["u"])], {("t", "u")});
            var s' := Reset(s, User("u", "p", 0, []), ["t"], "", k => Reply(Done, Refused)).0;
            Base(s) && AllListed(s) && Unique(s) && !AllListed(s')
  {
    var s := Store(map["u" := User("u", "p", 0, ["t"])], map["t" := Inbound(true, ["u"])], {("t", "u")});
    var o: nat -> Reply := k => Reply(Done, Refused);
    ResetKeepsIff(s, User("u", "p", 0, []), ["t"], "", o);
    AnswersAt(Resetting, PlaceOf(s, "t", "u"), "t", ["t"], o, 0);
    assert "t" in s.users["u"].tags;
    assert PlaceOf(s, "t", "u") == Place(1, false, true, true);
  }
}
