/**
 UserManager as the running program has it: tables updated in place, loops over
 tags, and a runtime that answers as it likes.
 */
module UserManager {
  import opened UserIndex

  class Manager {
    var users: map<string, User>
    var inbounds: map<string, Inbound>
    var runtime: set<(string, string)>

    constructor (users: map<string, User>, inbounds: map<string, Inbound>, runtime: set<(string, string)>)
      ensures Abs() == Store(users, inbounds, runtime)
    {
      this.users, this.inbounds, this.runtime := users, inbounds, runtime;
    }

    ghost function Abs(): (s: Store)
      reads this
    {
      Store(users, inbounds, runtime)
    }

    method AddUser(name: string, tag: string) returns (ok: bool, ghost a: Answer)
      modifies this`inbounds, this`runtime
      ensures (Abs(), ok) == AddOne(old(Abs()), name, tag, a)
    {
      var answer: Answer := *;
      a := answer;
      if tag !in inbounds { return false, a; }
      var i := inbounds[tag];
      if (tag, name) in runtime || !i.supported || answer.Refused? { return false, a; }
      runtime := runtime + {(tag, name)};
      if !answer.Done? { return false, a; }
      inbounds := inbounds[tag := AddClient(i, name)];
      ok := true;
    }

    method RemoveUser(name: string, tag: string) returns (ok: bool, ghost a: Answer)
      modifies this`inbounds, this`runtime
      ensures (Abs(), ok) == RemoveOne(old(Abs()), name, tag, a)
    {
      var answer: Answer := *;
      a := answer;
      if tag !in inbounds { return false, a; }
      var i := inbounds[tag];
      if (tag, name) !in runtime || answer.Refused? { return false, a; }
      runtime := runtime - {(tag, name)};
      if !answer.Done? { return false, a; }
      ok := true;
      if i.supported {
        var clients;
        clients, ok := RemoveFromList(i.clients, name);
        if ok { inbounds := inbounds[tag := i.(clients := clients)]; }
      }
    }

    method UserAtTag(kind: Kind, name: string, tag: string) returns (ok: bool, ghost r: Reply)
      modifies this`inbounds, this`runtime
      ensures (Abs(), ok) == One(old(Abs()), kind, name, tag, r)
    {
      r := Reply(Done, Done);
      ghost var a;
      match kind {
        case Adding =>
          ok, a := AddUser(name, tag);
          r := r.(addition := a);
        case Deleting =>
          ok, a := RemoveUser(name, tag);
          r := r.(removal := a);
        case Resetting =>
          ok, a := RemoveUser(name, tag);
          r := r.(removal := a);
          if ok {
            ok, a := AddUser(name, tag);
            r := r.(addition := a);
          }
      }
    }

    method ProxyUserOp(kind: Kind, name: string, asked: seq<string>, fallback: string)
      returns (succ: seq<string>, failed: seq<string>, ghost o: nat -> Reply)
      modifies this`inbounds, this`runtime
      ensures Outcome(Abs(), succ, failed) == UserOp(old(Abs()), kind, name, asked, fallback, o)
    {
      var tags := if asked == [] then [fallback] else asked;
      succ, failed, o := [], [], k => Reply(Done, Done);
      var i := 0;
      while i < |tags|
        invariant 0 <= i <= |tags|
        invariant users == old(users)
        invariant Outcome(Abs(), succ, failed) == OpTags(old(Abs()), kind, name, tags[..i], o)
      {
        var tag := tags[i];
        ghost var x, r := Outcome(Abs(), succ, failed), Reply(Done, Done);
        if name == "" {
          failed := failed + [tag];
        } else {
          var ok;
          ok, r := UserAtTag(kind, name, tag);
          if tag != "" {
            if ok { succ := succ + [tag]; } else { failed := failed + [tag]; }
          }
        }
        ExtendOracle(old(Abs()), kind, name, tags, i, o, r);
        o := Extended(o, i, r);
        i := i + 1;
      }
      assert tags[..i] == tags;
    }

    method Add(u: User, defaults: seq<string>, fallback: string) returns (ok: bool, ghost o: nat -> Reply)
      modifies this
      ensures (Abs(), ok) == UserIndex.Add(old(Abs()), u, defaults, fallback, o)
    {
      o := k => Reply(Done, Done);
      if u.name == "" || (u.name !in users && u.passwd == "") { return false, o; }
      var succ, failed;
      succ, failed, o := ProxyUserOp(Adding, u.name, if u.tags == [] then defaults else u.tags, fallback);
      if succ == [] && failed != [] { return false, o; }
      if u.name !in users {
        users := users[u.name := u.(tags := succ)];
      } else {
        users := users[u.name := users[u.name].(tags := users[u.name].tags + succ)];
      }
      ok := failed == [];
    }

    method Delete(u: User, fallback: string) returns (ok: bool, ghost o: nat -> Reply)
      modifies this
      ensures (Abs(), ok) == UserIndex.Delete(old(Abs()), u, fallback, o)
    {
      o := k => Reply(Done, Done);
      if u.name == "" || u.name !in users { return false, o; }
      var was := users[u.name];
      var succ, failed;
      succ, failed, o := ProxyUserOp(Deleting, u.name, if u.tags == [] then was.tags else u.tags, fallback);
      if succ == [] && failed != [] { return false, o; }
      var tags := Filter(was.tags, succ);
      users := users[u.name := was.(tags := tags)];
      if |tags| == 0 {
        users := users[u.name := users[u.name].(expire := 1)];
        assert users == old(users)[u.name := was.(tags := [], expire := 1)];
      }
      ok := failed == [];
    }

    method Update(u: User) returns (ok: bool)
      modifies this`users
      ensures (Abs(), ok) == UserIndex.Update(old(Abs()), u)
    {
      if u.passwd == "" || u.name !in users { return false; }
      users := users[u.name := users[u.name].(expire := u.expire, passwd := u.passwd)];
      ok := true;
    }

    method Reset(u: User, defaults: seq<string>, fallback: string) returns (ok: bool, ghost o: nat -> Reply)
      modifies this`inbounds, this`runtime
      ensures (Abs(), ok) == UserIndex.Reset(old(Abs()), u, defaults, fallback, o)
    {
      var succ, failed;
      succ, failed, o := ProxyUserOp(Resetting, u.name, if u.tags == [] then defaults else u.tags, fallback);
      ok := failed == [];
    }

    method ClearInvalideUser(now: int, fallback: string)
        returns (ghost names: seq<string>, ghost o: string -> nat -> Reply)
      requires forall n :: n in users ==> users[n].name == n
      modifies this
      ensures ExpiredInOrder(old(Abs()), now, names)
      ensures Abs() == DropAll(old(Abs()), names, fallback, o)
    {
      var expired := ExpiredUsers(now);
      names, o := expired, n => k => Reply(Done, Done);
      var i := 0;
      while i < |expired|
        invariant 0 <= i <= |expired|
        invariant forall n :: n in users <==> n in old(users) && n !in expired[..i]
        invariant forall n :: n in users ==> users[n] == old(users)[n]
        invariant Abs() == DropAll(old(Abs()), expired[..i], fallback, o)
      {
        var name := expired[i];
        assert expired[..i + 1] == expired[..i] + [name];
        assert name in expired && name !in expired[..i];
        ghost var s := Abs();
        ghost var answers := DropUser(name, fallback);
        DropAllAgrees(old(Abs()), expired[..i], fallback, o, name, answers);
        o := m => if m == name then answers else o(m);
        i := i + 1;
      }
      assert expired[..i] == expired;
    }

    /** One turn of the clearing loop. */
    method DropUser(name: string, fallback: string) returns (ghost o: nat -> Reply)
      requires name in users && users[name].name == name
      modifies this
      ensures Abs() == Drop(old(Abs()), name, fallback, o)
      ensures users == old(users) - {name}
    {
      o := k => Reply(Done, Done);
      if |users[name].tags| > 0 {
        var _, _, o' := ProxyUserOp(Deleting, name, users[name].tags, fallback);
        o := o';
      }
      users := users - {name};
    }

    /** The names of the expired users, in the order in which the table is visited. */
    method ExpiredUsers(now: int) returns (names: seq<string>)
      ensures ExpiredInOrder(Abs(), now, names)
    {
      names := [];
      var todo := users.Keys;
      while todo != {}
        invariant todo <= users.Keys && NoDup(names)
        invariant forall n :: n in names <==> n in users && n !in todo && Expired(users[n], now)
        decreases todo
      {
        var n :| n in todo;
        todo := todo - {n};
        if users[n].expire > 0 && users[n].expire < now {
          names := names + [n];
        }
      }
    }
  }

  function Extended(o: nat -> Reply, i: nat, r: Reply): nat -> Reply {
    (k: nat) => if k == i then r else o(k)
  }

  /** The answers given so far are not asked for again. */
  lemma {:induction false} SameAnswers(s: Store, kind: Kind, name: string, tags: seq<string>, o: nat -> Reply,
      o': nat -> Reply)
    requires forall k: nat :: k < |tags| ==> o(k) == o'(k)
    ensures OpTags(s, kind, name, tags, o) == OpTags(s, kind, name, tags, o')
  {
    if tags != [] {
      SameAnswers(s, kind, name, tags[..|tags| - 1], o, o');
    }
  }

  lemma ExtendOracle(s: Store, kind: Kind, name: string, tags: seq<string>, i: nat, o: nat -> Reply, r: Reply)
    requires i < |tags|
    ensures OpTags(s, kind, name, tags[..i + 1], Extended(o, i, r))
         == Visit(OpTags(s, kind, name, tags[..i], o), kind, name, tags[i], r)
  {
    SameAnswers(s, kind, name, tags[..i], o, Extended(o, i, r));
    assert tags[..i + 1][..i] == tags[..i];
  }

  lemma {:induction false} DropAllSame(s: Store, names: seq<string>, fallback: string, o: string -> nat -> Reply,
      o': string -> nat -> Reply)
    requires forall n :: n in names ==> o(n) == o'(n)
    ensures DropAll(s, names, fallback, o) == DropAll(s, names, fallback, o')
  {
    if names != [] {
      var k := |names| - 1;
      DropAllSame(s, names[..k], fallback, o, o');
      assert names[k] in names;
    }
  }

  lemma DropAllAgrees(s: Store, names: seq<string>, fallback: string, o: string -> nat -> Reply, name: string,
      answers: nat -> Reply)
    requires name !in names && name in DropAll(s, names, fallback, o).users
    ensures var o' := m => if m == name then answers else o(m);
            DropAll(s, names + [name], fallback, o') == Drop(DropAll(s, names, fallback, o), name, fallback, answers)
  {
    var o' := m => if m == name then answers else o(m);
    DropAllSame(s, names, fallback, o, o');
    assert (names + [name])[..|names|] == names;
  }

  /** util.StringList.Filter with the tags that are to go. */
  method Filter(tags: seq<string>, gone: seq<string>) returns (rest: seq<string>)
    ensures rest == Remaining(tags, gone)
  {
    rest := [];
    for i := 0 to |tags|
      invariant rest == Remaining(tags[..i], gone)
    {
      assert tags[..i + 1][..i] == tags[..i];
      if tags[i] !in gone { rest := rest + [tags[i]]; }
    }
    assert tags[..|tags|] == tags;
  }
}
