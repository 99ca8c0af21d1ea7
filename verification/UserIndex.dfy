/**
 The users, the tags each is recorded under, and the client lists of the inbounds
 those tags name.  A user operation walks over tags and may fail at each of them.
 */
module UserIndex {

  // ---------------------------------------------------------------- the data

  datatype User = User(name: string, passwd: string, expire: int, tags: seq<string>)

  /** The clients of an inbound, by e-mail; only vmess, vless and trojan inbounds are supported. */
  datatype Inbound = Inbound(supported: bool, clients: seq<string>)

  datatype Store = Store(
    users: map<string, User>,
    inbounds: map<string, Inbound>,
    runtime: set<(string, string)>)  // tag and e-mail

  ghost predicate NoDup(s: seq<string>) {
    forall i, j :: 0 <= i < j < |s| ==> s[i] != s[j]
  }

  /** The client list of the tag's inbound holds the user. */
  predicate Holds(s: Store, tag: string, name: string) {
    tag in s.inbounds && name in s.inbounds[tag].clients
  }

  // ---------------------------------------------------------------- the runtime

  /** A request may take effect and fail all the same, as when its reply is lost. */
  datatype Answer = Done | Refused | Lost

  /** The runtime refuses a user it has, and one without an account. */
  function RuntimeAdd(runtime: set<(string, string)>, tag: string, name: string, supported: bool,
      a: Answer): (set<(string, string)>, bool) {
    if (tag, name) in runtime || !supported || a.Refused? then (runtime, false)
    else (runtime + {(tag, name)}, a.Done?)
  }

  /** The runtime refuses to remove a user it does not have. */
  function RuntimeRemove(runtime: set<(string, string)>, tag: string, name: string,
      a: Answer): (set<(string, string)>, bool) {
    if (tag, name) !in runtime || a.Refused? then (runtime, false) else (runtime - {(tag, name)}, a.Done?)
  }

  // ---------------------------------------------------------------- one user in one inbound

  function AddOne(s: Store, name: string, tag: string, a: Answer): (Store, bool) {
    if tag !in s.inbounds then (s, false)
    else
      var i := s.inbounds[tag];
      var (runtime, ok) := RuntimeAdd(s.runtime, tag, name, i.supported, a);
      var s1 := s.(runtime := runtime);
      if !ok then (s1, false)
      else (s1.(inbounds := s.inbounds[tag := AddClient(i, name)]), true)
  }

  function AddClient(i: Inbound, name: string): Inbound {
    if i.supported then i.(clients := i.clients + [name]) else i
  }

  function RemoveOne(s: Store, name: string, tag: string, a: Answer): (Store, bool) {
    if tag !in s.inbounds then (s, false)
    else
      var i := s.inbounds[tag];
      var (runtime, ok) := RuntimeRemove(s.runtime, tag, name, a);
      var s1 := s.(runtime := runtime);
      if !ok then (s1, false)
      else if !i.supported then (s1, true)
      else
        var (clients, found) := RemoveClient(i.clients, name);
        if found then (s1.(inbounds := s.inbounds[tag := i.(clients := clients)]), true) else (s1, false)
  }

  /** The first occurrence goes; a user who is not there is an error, but not in an empty list. */
  function RemoveClient(clients: seq<string>, name: string): (seq<string>, bool) {
    if clients == [] then ([], true)
    else if name in clients then (Without(clients, name), true)
    else (clients, false)
  }

  function Without(clients: seq<string>, name: string): (r: seq<string>)
    requires name in clients
    ensures |r| == |clients| - 1 && multiset(r) + multiset{name} == multiset(clients)
  {
    assert clients == [clients[0]] + clients[1..];
    if clients[0] == name then clients[1..] else [clients[0]] + Without(clients[1..], name)
  }

  /** The loop over the client list. */
  method RemoveFromList(clients: seq<string>, name: string) returns (rest: seq<string>, ok: bool)
    ensures (rest, ok) == RemoveClient(clients, name)
  {
    var index := 0;
    while index < |clients|
      invariant 0 <= index <= |clients|
      invariant forall i :: 0 <= i < index ==> clients[i] != name
      invariant index == |clients| ==> clients == []
    {
      if clients[index] == name {
        WithoutAt(clients, name, index);
        return clients[..index] + clients[index + 1..], true;
      }
      if index == |clients| - 1 {
        return clients, false;
      }
      index := index + 1;
    }
    rest, ok := clients, true;
  }

  lemma {:induction false} WithoutAt(clients: seq<string>, name: string, k: nat)
    requires k < |clients| && clients[k] == name && forall i :: 0 <= i < k ==> clients[i] != name
    ensures Without(clients, name) == clients[..k] + clients[k + 1..]
  {
    if k > 0 {
      WithoutAt(clients[1..], name, k - 1);
      assert clients[..k] == [clients[0]] + clients[1..][..k - 1];
    }
  }

  /** Removed and added again, with a new identifier. */
  function ResetOne(s: Store, name: string, tag: string, removal: Answer, addition: Answer): (Store, bool) {
    var (s1, ok) := RemoveOne(s, name, tag, removal);
    if ok then AddOne(s1, name, tag, addition) else (s1, false)
  }

  // ---------------------------------------------------------------- one user, many tags

  datatype Kind = Adding | Deleting | Resetting

  /** The runtime's answers at one tag. */
  datatype Reply = Reply(removal: Answer, addition: Answer)

  function One(s: Store, kind: Kind, name: string, tag: string, r: Reply): (Store, bool) {
    match kind
    case Adding => AddOne(s, name, tag, r.addition)
    case Deleting => RemoveOne(s, name, tag, r.removal)
    case Resetting => ResetOne(s, name, tag, r.removal, r.addition)
  }

  datatype Outcome = Outcome(store: Store, succ: seq<string>, failed: seq<string>)

  /** What is done at one tag, and in which list the tag ends up. */
  function Visit(x: Outcome, kind: Kind, name: string, tag: string, r: Reply): Outcome {
    if name == "" then x.(failed := x.failed + [tag])
    else
      var (s1, ok) := One(x.store, kind, name, tag, r);
      if tag == "" then x.(store := s1)
      else if ok then Outcome(s1, x.succ + [tag], x.failed)
      else Outcome(s1, x.succ, x.failed + [tag])
  }

  function OpTags(s: Store, kind: Kind, name: string, tags: seq<string>, o: nat -> Reply): Outcome {
    if tags == [] then Outcome(s, [], [])
    else
      var k := |tags| - 1;
      Visit(OpTags(s, kind, name, tags[..k], o), kind, name, tags[k], o(k))
  }

  /** proxyUserOp: without tags a single configured one is used, which may be empty. */
  function UserOp(s: Store, kind: Kind, name: string, tags: seq<string>, fallback: string, o: nat -> Reply): Outcome {
    OpTags(s, kind, name, if tags == [] then [fallback] else tags, o)
  }

  // ---------------------------------------------------------------- the operations of UserManager

  /** Whether a request to add a user is passed on to the proxy. */
  predicate Addable(s: Store, u: User) {
    u.name != "" && (u.name in s.users || u.passwd != "")
  }

  /** The tags a request means: `defaults` are the default tags, or all tags when none is configured. */
  function TagsMeant(u: User, defaults: seq<string>, fallback: string): seq<string> {
    var tags := if u.tags == [] then defaults else u.tags;
    if tags == [] then [fallback] else tags
  }

  function Add(s: Store, u: User, defaults: seq<string>, fallback: string, o: nat -> Reply): (Store, bool) {
    if !Addable(s, u) then (s, false)
    else
      var x := OpTags(s, Adding, u.name, TagsMeant(u, defaults, fallback), o);
      if x.succ == [] && x.failed != [] then (x.store, false)
      else if u.name !in s.users then (PutUser(x.store, u.name, u.(tags := x.succ)), x.failed == [])
      else
        var was := s.users[u.name];
        (PutUser(x.store, u.name, was.(tags := was.tags + x.succ)), x.failed == [])
  }

  function PutUser(s: Store, name: string, u: User): Store {
    s.(users := s.users[name := u])
  }

  /** util.StringList.Filter, with the tags that are to go. */
  function Remaining(tags: seq<string>, gone: seq<string>): (r: seq<string>)
    ensures forall t :: t in r <==> t in tags && t !in gone
    ensures |r| <= |tags|
  {
    if tags == [] then []
    else
      var k := |tags| - 1;
      Remaining(tags[..k], gone) + if tags[k] in gone then [] else [tags[k]]
  }

  /** A user left without tags is marked as expired. */
  function Strip(u: User, gone: seq<string>): User {
    var tags := Remaining(u.tags, gone);
    if tags == [] then u.(tags := [], expire := 1) else u.(tags := tags)
  }

  function Delete(s: Store, u: User, fallback: string, o: nat -> Reply): (Store, bool) {
    if u.name == "" || u.name !in s.users then (s, false)
    else
      var was := s.users[u.name];
      var x := OpTags(s, Deleting, u.name, TagsMeant(u, was.tags, fallback), o);
      if x.succ == [] && x.failed != [] then (x.store, false)
      else (PutUser(x.store, u.name, Strip(was, x.succ)), x.failed == [])
  }

  function Update(s: Store, u: User): (Store, bool) {
    if u.passwd == "" || u.name !in s.users then (s, false)
    else (PutUser(s, u.name, s.users[u.name].(expire := u.expire, passwd := u.passwd)), true)
  }

  predicate Expired(u: User, now: int) {
    0 < u.expire < now
  }

  /** One expired user goes, whether or not the proxy lets go of him. */
  function Drop(s: Store, name: string, fallback: string, o: nat -> Reply): Store
    requires name in s.users
  {
    var u := s.users[name];
    var s1 := if u.tags == [] then s else UserOp(s, Deleting, u.name, u.tags, fallback, o).store;
    s1.(users := s1.users - {u.name})
  }

  function DropAll(s: Store, names: seq<string>, fallback: string, o: string -> nat -> Reply): Store {
    if names == [] then s
    else
      var k := |names| - 1;
      var s1 := DropAll(s, names[..k], fallback, o);
      if names[k] in s1.users then Drop(s1, names[k], fallback, o(names[k])) else s1
  }

  /** ClearInvalideUser visits the expired users in some order. */
  ghost predicate ExpiredInOrder(s: Store, now: int, names: seq<string>) {
    && NoDup(names)
    && forall n :: n in names <==> n in s.users && Expired(s.users[n], now)
  }

  /** Init: a user found without tags is added to the default ones. */
  function Enroll(s: Store, name: string, tags: seq<string>, o: nat -> Reply): Store {
    if name !in s.users || s.users[name].tags != [] then s
    else
      var x := OpTags(s, Adding, name, tags, o);
      PutUser(x.store, name, s.users[name].(tags := x.succ))
  }

  function Reset(s: Store, u: User, defaults: seq<string>, fallback: string, o: nat -> Reply): (Store, bool) {
    var x := OpTags(s, Resetting, u.name, TagsMeant(u, defaults, fallback), o);
    (x.store, x.failed == [])
  }
}
