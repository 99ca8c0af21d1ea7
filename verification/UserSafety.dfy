/**
 What the recorded tags of a user mean, in every run of user operations and with every
 answer of the runtime, including requests that take effect and fail all the same.
 */
module UserSafety {
  import opened UserIndex

  // ---------------------------------------------------------------- what a state can promise

  /** No inbound has an empty tag, and none has clients where users are not supported. */
  ghost predicate Shape(s: Store) {
    && "" !in s.inbounds
    && (forall t :: t in s.inbounds && !s.inbounds[t].supported ==> s.inbounds[t].clients == [])
  }

  /** Users are kept under their own names. */
  ghost predicate Keyed(s: Store) {
    forall n :: n in s.users ==> s.users[n].name == n
  }

  ghost predicate Base(s: Store) {
    Shape(s) && Keyed(s)
  }

  /** Every recorded tag of the user names an inbound that has him as a client. */
  ghost predicate Listed(s: Store, u: User) {
    forall t :: t in u.tags ==> Holds(s, t, u.name)
  }

  ghost predicate AllListed(s: Store) {
    forall n :: n in s.users ==> Listed(s, s.users[n])
  }

  /** Nobody is listed twice in an inbound. */
  ghost predicate ListsUnique(s: Store) {
    forall t :: t in s.inbounds ==> NoDup(s.inbounds[t].clients)
  }

  /** And no tag is recorded twice for a user. */
  ghost predicate Unique(s: Store) {
    ListsUnique(s) && forall n :: n in s.users ==> NoDup(s.users[n].tags)
  }

  // ---------------------------------------------------------------- one tag

  /** The users, the tags and the kinds of inbounds stay. */
  ghost predicate SameFrame(s: Store, s': Store) {
    && s'.users == s.users && s'.inbounds.Keys == s.inbounds.Keys
    && (Shape(s) ==> Shape(s'))
  }

  /** Who is a client where, after a user has come. */
  ghost predicate Gains(s: Store, s': Store, name: string, tags: seq<string>) {
    forall t, n :: Holds(s', t, n) <==> Holds(s, t, n) || (n == name && t in tags)
  }

  /** After one has gone: a list that had him twice still has him. */
  ghost predicate LosesAtMost(s: Store, s': Store, name: string, tags: seq<string>) {
    && (forall t, n :: Holds(s', t, n) ==> Holds(s, t, n))
    && (forall t, n :: Holds(s, t, n) && !(n == name && t in tags) ==> Holds(s', t, n))
  }

  ghost predicate Loses(s: Store, s': Store, name: string, tags: seq<string>) {
    forall t, n :: Holds(s', t, n) <==> Holds(s, t, n) && !(n == name && t in tags)
  }

  /**
   An addition succeeds only where the runtime lacks the user.  It makes a list repeat him exactly
   where the list holds him nevertheless.
   */
  lemma AddOneEffect(s: Store, name: string, tag: string, a: Answer)
    ensures var (s', ok) := AddOne(s, name, tag, a);
            && SameFrame(s, s') && Gains(s, s', name, if ok then [tag] else [])
            && s.runtime <= s'.runtime
            && (ok ==> (tag, name) !in s.runtime && (tag, name) in s'.runtime)
            && (ListsUnique(s') <==> ListsUnique(s) && !(ok && Holds(s, tag, name)))
  {
    var (s', ok) := AddOne(s, name, tag, a);
    if ok {
      var clients := s.inbounds[tag].clients;
      assert s'.inbounds[tag].clients == clients + [name];
      assert forall n :: n in clients + [name] <==> n in clients || n == name;
      AppendUnique(clients, name);
    }
  }

  lemma AppendUnique(clients: seq<string>, name: string)
    ensures NoDup(clients + [name]) <==> NoDup(clients) && name !in clients
  {
    var r := clients + [name];
    if NoDup(r) {
      assert forall i, j :: 0 <= i < j < |clients| ==> clients[i] == r[i] && clients[j] == r[j];
      assert forall i :: 0 <= i < |clients| ==> clients[i] == r[i] && r[i] != r[|clients|];
    }
  }

  lemma WithoutUnique(clients: seq<string>, name: string)
    requires name in clients
    ensures forall n :: n != name ==> (n in Without(clients, name) <==> n in clients)
    ensures forall n :: n in Without(clients, name) ==> n in clients
    ensures NoDup(clients) ==> NoDup(Without(clients, name)) && name !in Without(clients, name)
  {
    var k := FirstAt(clients, name);
    WithoutAt(clients, name, k);
    hide Without;
    CutAt(clients, k);
    if NoDup(clients) { CutUnique(clients, k); }
  }

  lemma CutAt(clients: seq<string>, k: nat)
    requires k < |clients|
    ensures forall n :: n in clients[..k] + clients[k + 1..] ==> n in clients
    ensures forall n :: n in clients && n != clients[k] ==> n in clients[..k] + clients[k + 1..]
  {
    assert clients == clients[..k] + [clients[k]] + clients[k + 1..];
  }

  lemma CutUnique(clients: seq<string>, k: nat)
    requires k < |clients| && NoDup(clients)
    ensures NoDup(clients[..k] + clients[k + 1..]) && clients[k] !in clients[..k] + clients[k + 1..]
  {
  }

  lemma {:induction false} FirstAt(clients: seq<string>, name: string) returns (k: nat)
    requires name in clients
    ensures k < |clients| && clients[k] == name && forall i :: 0 <= i < k ==> clients[i] != name
  {
    if clients[0] == name {
      k := 0;
    } else {
      k := FirstAt(clients[1..], name);
      k := k + 1;
    }
  }

  lemma RemoveOneEffect(s: Store, name: string, tag: string, a: Answer)
    requires Shape(s)
    ensures var (s', ok) := RemoveOne(s, name, tag, a);
            && SameFrame(s, s') && LosesAtMost(s, s', name, if ok then [tag] else [])
            && (ListsUnique(s) ==> ListsUnique(s') && Loses(s, s', name, if ok then [tag] else []))
  {
    if tag in s.inbounds && name in s.inbounds[tag].clients {
      WithoutUnique(s.inbounds[tag].clients, name);
    }
  }

  lemma NoEmptyTag(s: Store, name: string, tag: string, a: Answer)
    requires Shape(s)
    ensures AddOne(s, name, tag, a).1 || RemoveOne(s, name, tag, a).1 ==> tag != ""
  {
  }

  // ---------------------------------------------------------------- many tags

  /**
   An addition: exactly the tags that succeeded gain the user, each once, and the lists stay unique unless
   one held him.
   */
  lemma {:induction false} AddTagsEffect(s: Store, name: string, tags: seq<string>, o: nat -> Reply)
    requires Shape(s)
    ensures var x := OpTags(s, Adding, name, tags, o);
            && SameFrame(s, x.store) && Gains(s, x.store, name, x.succ) && NoDup(x.succ)
            && s.runtime <= x.store.runtime
            && (forall t :: t in x.succ ==> (t, name) !in s.runtime && (t, name) in x.store.runtime && t in tags)
            && (ListsUnique(x.store) <==> ListsUnique(s) && forall t :: t in x.succ ==> !Holds(s, t, name))
  {
    if tags != [] {
      hide Shape, Holds, AddOne, ListsUnique;
      var k := |tags| - 1;
      AddTagsEffect(s, name, tags[..k], o);
      var x := OpTags(s, Adding, name, tags[..k], o);
      AddOneEffect(x.store, name, tags[k], o(k).addition);
      NoEmptyTag(x.store, name, tags[k], o(k).addition);
      assert tags[k] in tags;
    }
  }

  /** A removal: at most the tags that succeeded lose the user; exactly those, where nobody is listed twice. */
  lemma {:induction false} RemoveTagsEffect(s: Store, name: string, tags: seq<string>, o: nat -> Reply)
    requires Shape(s)
    ensures var x := OpTags(s, Deleting, name, tags, o);
            && SameFrame(s, x.store) && LosesAtMost(s, x.store, name, x.succ)
            && (ListsUnique(s) ==> ListsUnique(x.store) && Loses(s, x.store, name, x.succ))
            && (forall t :: t in x.succ ==> t in tags)
  {
    if tags != [] {
      hide Shape, Holds, RemoveOne, ListsUnique;
      var k := |tags| - 1;
      RemoveTagsEffect(s, name, tags[..k], o);
      var x := OpTags(s, Deleting, name, tags[..k], o);
      RemoveOneEffect(x.store, name, tags[k], o(k).removal);
      NoEmptyTag(x.store, name, tags[k], o(k).removal);
      assert tags[k] in tags;
    }
  }

  // ---------------------------------------------------------------- a changed table of users

  /** Lists, frame and runtime do not depend on the table of users. */
  lemma UsersDoNotMatter(s: Store, users: map<string, User>)
    ensures forall t, n :: Holds(s.(users := users), t, n) == Holds(s, t, n)
    ensures Shape(s.(users := users)) == Shape(s) && ListsUnique(s.(users := users)) == ListsUnique(s)
  {
  }

  lemma AppendNoDup(a: seq<string>, b: seq<string>)
    requires NoDup(a) && NoDup(b) && forall t :: t in b ==> t !in a
    ensures NoDup(a + b)
  {
    forall i, j | 0 <= i < j < |a + b| ensures (a + b)[i] != (a + b)[j] {
      if i < |a| <= j {
        assert b[j - |a|] in b && a[i] in a;
      }
    }
  }

  lemma {:induction false} RemainingNoDup(tags: seq<string>, gone: seq<string>)
    requires NoDup(tags)
    ensures NoDup(Remaining(tags, gone))
  {
    if tags != [] {
      var k := |tags| - 1;
      RemainingNoDup(tags[..k], gone);
      assert tags[k] !in tags[..k];
    }
  }

  /** A user has gained tags in the lists and in his record. */
  lemma AfterGain(s: Store, s1: Store, name: string, tags: seq<string>, u: User)
    requires Base(s) && SameFrame(s, s1) && Gains(s, s1, name, tags) && u.name == name
    requires u.tags == (if name in s.users then s.users[name].tags + tags else tags)
    ensures Base(s1) && Base(PutUser(s1, name, u))
    ensures AllListed(s) ==> AllListed(s1) && AllListed(PutUser(s1, name, u))
  {
    hide Holds, Shape;
    UsersDoNotMatter(s1, s1.users[name := u]);
  }

  /** The tag is in the user's record. */
  predicate Recorded(s: Store, tag: string, name: string) {
    name in s.users && tag in s.users[name].tags
  }

  /** An addition succeeded at a tag whose list or whose record had the user already. */
  ghost predicate Repeats(s: Store, name: string, succ: seq<string>) {
    exists t :: t in succ && (Holds(s, t, name) || Recorded(s, t, name))
  }

  lemma AfterGainUnique(s: Store, s1: Store, name: string, tags: seq<string>, u: User)
    requires Unique(s) && SameFrame(s, s1) && NoDup(tags)
    requires u.tags == (if name in s.users then s.users[name].tags + tags else tags)
    requires ListsUnique(s1) <==> forall t :: t in tags ==> !Holds(s, t, name)
    ensures Unique(PutUser(s1, name, u)) <==> !Repeats(s, name, tags)
  {
    hide Holds, ListsUnique;
    UsersDoNotMatter(s1, s1.users[name := u]);
    if name in s.users {
      var was := s.users[name].tags;
      if forall t :: t in tags ==> t !in was {
        AppendNoDup(was, tags);
      } else {
        var t :| t in tags && t in was;
        AppendDup(was, tags, t);
        assert Recorded(s, t, name) && PutUser(s1, name, u).users[name].tags == was + tags;
      }
    }
  }

  lemma AppendDup(a: seq<string>, b: seq<string>, t: string)
    requires t in a && t in b
    ensures !NoDup(a + b)
  {
    var i :| 0 <= i < |a| && a[i] == t;
    var j :| 0 <= j < |b| && b[j] == t;
    assert (a + b)[i] == (a + b)[|a| + j];
  }

  /** A user has lost tags: his record is stripped of them, or he is dropped. */
  lemma AfterLoss(s: Store, s1: Store, name: string, gone: seq<string>)
    requires Base(s) && SameFrame(s, s1) && LosesAtMost(s, s1, name, gone)
    ensures Base(s1) && Base(s1.(users := s1.users - {name}))
    ensures name in s.users ==> Base(PutUser(s1, name, Strip(s.users[name], gone)))
    ensures AllListed(s) ==>
              && (gone == [] ==> AllListed(s1))
              && AllListed(s1.(users := s1.users - {name}))
              && (name in s.users ==> AllListed(PutUser(s1, name, Strip(s.users[name], gone))))
  {
    hide Holds, Shape;
    UsersDoNotMatter(s1, s1.users - {name});
    if name in s.users {
      UsersDoNotMatter(s1, s1.users[name := Strip(s.users[name], gone)]);
    }
  }

  lemma AfterLossUnique(s: Store, s1: Store, name: string, gone: seq<string>)
    requires Unique(s) && s1.users == s.users && ListsUnique(s1)
    ensures Unique(s1) && Unique(s1.(users := s1.users - {name}))
    ensures name in s.users ==> Unique(PutUser(s1, name, Strip(s.users[name], gone)))
  {
    hide ListsUnique;
    UsersDoNotMatter(s1, s1.users - {name});
    if name in s.users {
      UsersDoNotMatter(s1, s1.users[name := Strip(s.users[name], gone)]);
      RemainingNoDup(s.users[name].tags, gone);
    }
  }

  // ---------------------------------------------------------------- the operations

  /** Add keeps recorded tags listed, whatever is answered, and unique exactly when no addition repeats the user. */
  lemma AddKeeps(s: Store, u: User, defaults: seq<string>, fallback: string, o: nat -> Reply)
    requires Base(s)
    ensures var s' := Add(s, u, defaults, fallback, o).0;
            && Base(s') && (AllListed(s) ==> AllListed(s'))
            && (Unique(s) ==>
                  (Unique(s') <==>
                     !(Addable(s, u) && Repeats(s, u.name,
                         OpTags(s, Adding, u.name, TagsMeant(u, defaults, fallback), o).succ))))
  {
    hide Shape, Keyed, Gains, OpTags, Listed, ListsUnique, Holds;
    if Addable(s, u) {
      var x := OpTags(s, Adding, u.name, TagsMeant(u, defaults, fallback), o);
      AddTagsEffect(s, u.name, TagsMeant(u, defaults, fallback), o);
      var known := u.name in s.users;
      var u' := if known then s.users[u.name].(tags := s.users[u.name].tags + x.succ) else u.(tags := x.succ);
      if known { KeyIsName(s, u.name); }
      AfterGain(s, x.store, u.name, x.succ, u');
      if Unique(s) { AfterGainUnique(s, x.store, u.name, x.succ, u'); }
    }
  }

  lemma KeyIsName(s: Store, name: string)
    requires Keyed(s) && name in s.users
    ensures s.users[name].name == name
  {
  }

  lemma DeleteKeeps(s: Store, u: User, fallback: string, o: nat -> Reply)
    requires Base(s)
    ensures var s' := Delete(s, u, fallback, o).0;
            Base(s') && (AllListed(s) ==> AllListed(s')) && (Unique(s) ==> Unique(s'))
  {
    hide Shape, Keyed, LosesAtMost, Loses, OpTags, Listed, Strip, Holds, ListsUnique;
    if u.name != "" && u.name in s.users {
      var tags := TagsMeant(u, s.users[u.name].tags, fallback);
      RemoveTagsEffect(s, u.name, tags, o);
      var x := OpTags(s, Deleting, u.name, tags, o);
      AfterLoss(s, x.store, u.name, x.succ);
      if Unique(s) { AfterLossUnique(s, x.store, u.name, x.succ); }
    }
  }

  lemma UpdateKeeps(s: Store, u: User)
    requires Base(s)
    ensures var s' := Update(s, u).0;
            Base(s') && (AllListed(s) ==> AllListed(s')) && (Unique(s) ==> Unique(s'))
  {
    hide Shape, Holds, ListsUnique;
    if u.passwd != "" && u.name in s.users {
      UsersDoNotMatter(s, s.users[u.name := s.users[u.name].(expire := u.expire, passwd := u.passwd)]);
    }
  }

  lemma DropKeeps(s: Store, name: string, fallback: string, o: nat -> Reply)
    requires Base(s) && name in s.users
    ensures var s' := Drop(s, name, fallback, o);
            && Base(s') && s'.users == s.users - {name}
            && (AllListed(s) ==> AllListed(s')) && (Unique(s) ==> Unique(s'))
            && forall t, n :: n != name ==> (Holds(s', t, n) <==> Holds(s, t, n))
  {
    hide Shape, OpTags, Listed, Holds, ListsUnique;
    KeyIsName(s, name);
    var u := s.users[name];
    var x := if u.tags == [] then Outcome(s, [], []) else OpTags(s, Deleting, name, u.tags, o);
    if u.tags != [] { RemoveTagsEffect(s, name, u.tags, o); }
    AfterLoss(s, x.store, name, x.succ);
    if Unique(s) { AfterLossUnique(s, x.store, name, x.succ); }
    UsersDoNotMatter(x.store, s.users - {name});
  }

  /** Clearing: the listed users go, and nobody else is touched, neither as a user nor as a client. */
  lemma {:induction false} DropAllKeeps(s: Store, names: seq<string>, fallback: string, o: string -> nat -> Reply)
    requires Base(s) && NoDup(names) && forall n :: n in names ==> n in s.users
    ensures var s' := DropAll(s, names, fallback, o);
            && Base(s') && s'.users == (map n | n in s.users && n !in names :: s.users[n])
            && (AllListed(s) ==> AllListed(s')) && (Unique(s) ==> Unique(s'))
            && forall t, n :: n !in names ==> (Holds(s', t, n) <==> Holds(s, t, n))
  {
    if names != [] {
      hide Base, AllListed, Unique, Holds, Drop;
      var k := |names| - 1;
      var name := names[k];
      assert names == names[..k] + [name];
      DropAllKeeps(s, names[..k], fallback, o);
      var s1 := DropAll(s, names[..k], fallback, o);
      assert name !in names[..k];
      DropKeeps(s1, name, fallback, o(name));
      assert forall n :: n in names <==> n in names[..k] || n == name;
    }
  }

  lemma EnrollKeeps(s: Store, name: string, tags: seq<string>, o: nat -> Reply)
    requires Base(s)
    ensures var s' := Enroll(s, name, tags, o);
            && Base(s') && (AllListed(s) ==> AllListed(s'))
            && (Unique(s) ==>
                  (Unique(s') <==>
                     !(name in s.users && s.users[name].tags == []
                         && Repeats(s, name, OpTags(s, Adding, name, tags, o).succ))))
  {
    hide Shape, Keyed, Gains, OpTags, Listed, ListsUnique, Holds;
    if name in s.users && s.users[name].tags == [] {
      AddTagsEffect(s, name, tags, o);
      var x := OpTags(s, Adding, name, tags, o);
      var u' := s.users[name].(tags := x.succ);
      KeyIsName(s, name);
      AfterGain(s, x.store, name, x.succ, u');
      if Unique(s) { AfterGainUnique(s, x.store, name, x.succ, u'); }
    }
  }
}
