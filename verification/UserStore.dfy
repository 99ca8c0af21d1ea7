/**
 The user table in the configuration file: one line of text per user, read back at
 start-up together with the tags found in the client lists.
 */
module UserStore {
  import opened Common
  import opened Text
  import opened UserIndex
  import opened UserSafety
  import opened UserRuns
  import opened UserOrphans

  // ---------------------------------------------------------------- one user

  function Print(u: User): string {
    u.passwd + "|" + Itoa(u.expire)
  }

  /** The password and the expiry; a text of another form is a password without expiry. */
  function Parse(v: string): (string, int) {
    var l := Split(v, '|');
    if |l| != 2 then (v, 0)
    else
      var e := ParseInt(l[1]);
      if e.None? then (v, 0) else (l[0], e.value)
  }

  /** A user is read back as he was exactly when his password holds no separator. */
  lemma PrintParse(u: User)
    requires MIN_INT64 <= u.expire <= MAX_INT64
    ensures Parse(Print(u)) == (u.passwd, u.expire) <==> '|' !in u.passwd
  {
    ItoaClean(u.expire, '|');
    ParseItoa(u.expire);
    SplitPiece(Itoa(u.expire), '|');
    assert Print(u) == u.passwd + ['|'] + Itoa(u.expire);
    if '|' !in u.passwd {
      SplitAfterPiece(u.passwd, Itoa(u.expire), '|');
    } else {
      SplitCounts(u.passwd, Itoa(u.expire), '|');
      assert |Print(u)| > |u.passwd|;
    }
  }

  /**
   Exactly a text with one bar and a number of 64 bits after it has an expiry; every other is a password as
   a whole.
   */
  lemma ParseOne(a: string, b: string)
    requires '|' !in a && '|' !in b
    ensures Parse(a) == (a, 0)
    ensures Parse(a + "|" + b) == if ParseInt(b).Some? then (a, ParseInt(b).value) else (a + "|" + b, 0)
  {
    SplitPiece(a, '|');
    SplitPiece(b, '|');
    SplitAfterPiece(a, b, '|');
    assert a + "|" + b == a + ['|'] + b;
    hide ParseInt;
  }

  lemma ParseMore(a: string, b: string)
    requires '|' in a
    ensures Parse(a + "|" + b) == (a + "|" + b, 0)
  {
    SplitCounts(a, b, '|');
    assert a + "|" + b == a + ['|'] + b;
    hide ParseInt;
  }

  /** A separator on either side of a separator makes three pieces. */
  lemma {:induction false} SplitCounts(a: string, b: string, c: char)
    requires c in a
    ensures |Split(a + [c] + b, c)| >= 3
  {
    var s := a + [c] + b;
    assert s[1..] == a[1..] + [c] + b;
    if a[0] == c {
      SplitOnce(a[1..], b, c);
    } else {
      SplitCounts(a[1..], b, c);
    }
  }

  lemma {:induction false} SplitOnce(a: string, b: string, c: char)
    ensures |Split(a + [c] + b, c)| >= 2
  {
    var s := a + [c] + b;
    if a == [] {
      assert s[1..] == b;
    } else {
      assert s[1..] == a[1..] + [c] + b;
      SplitOnce(a[1..], b, c);
    }
  }

  // ---------------------------------------------------------------- the table

  function Flush(users: map<string, User>): map<string, string> {
    map k | k in users :: Print(users[k])
  }

  /** An inbound in the configuration, with the clients that are read from it. */
  datatype Config = Config(tag: string, clients: seq<string>)

  /** The tags of the inbounds that list the user, once for each time he is listed. */
  function TagsOf(configs: seq<Config>, name: string): (r: seq<string>) {
    if configs == [] then []
    else
      var k := |configs| - 1;
      TagsOf(configs[..k], name) + Mentions(configs[k].clients, configs[k].tag, name)
  }

  function Mentions(clients: seq<string>, tag: string, name: string): (r: seq<string>)
    ensures forall t :: t in r <==> t == tag && name in clients
    ensures name !in clients ==> r == []
  {
    if clients == [] then []
    else
      var k := |clients| - 1;
      assert clients == clients[..k] + [clients[k]];
      Mentions(clients[..k], tag, name) + if clients[k] == name then [tag] else []
  }

  function Load(stored: map<string, string>, configs: seq<Config>): map<string, User> {
    map k | k in stored :: User(k, Parse(stored[k]).0, Parse(stored[k]).1, TagsOf(configs, k))
  }

  /** A user is loaded with exactly the tags of the inbounds that list him. */
  lemma LoadTags(stored: map<string, string>, configs: seq<Config>, k: string, t: string)
    requires k in stored
    ensures k in Load(stored, configs) && Load(stored, configs)[k].name == k
    ensures t in Load(stored, configs)[k].tags <==>
            exists i :: 0 <= i < |configs| && configs[i].tag == t && k in configs[i].clients
  {
    TagsOfExact(configs, k);
  }

  /** Every user comes back, with name, password and expiry. */
  lemma FlushLoad(users: map<string, User>, configs: seq<Config>)
    requires forall k :: k in users ==> '|' !in users[k].passwd && MIN_INT64 <= users[k].expire <= MAX_INT64
    ensures var users' := Load(Flush(users), configs);
            && users'.Keys == users.Keys
            && forall k :: k in users ==>
                 && users'[k].name == k && users'[k].passwd == users[k].passwd && users'[k].expire == users[k].expire
  {
    forall k | k in users ensures Parse(Flush(users)[k]) == (users[k].passwd, users[k].expire) {
      PrintParse(users[k]);
    }
  }

  // ---------------------------------------------------------------- start-up

  /** The configuration and the inbounds made from it. */
  ghost predicate Reflects(s: Store, configs: seq<Config>) {
    && (forall i :: 0 <= i < |configs| ==>
          configs[i].tag in s.inbounds && s.inbounds[configs[i].tag].clients == configs[i].clients)
    && (forall i, j :: 0 <= i < j < |configs| ==> configs[i].tag != configs[j].tag)
  }

  ghost predicate ListedIn(configs: seq<Config>, tag: string, name: string) {
    exists i :: 0 <= i < |configs| && configs[i].tag == tag && name in configs[i].clients
  }

  lemma ListedLast(configs: seq<Config>, tag: string, name: string)
    requires configs != []
    ensures var k := |configs| - 1;
            ListedIn(configs, tag, name) <==>
              ListedIn(configs[..k], tag, name) || (configs[k].tag == tag && name in configs[k].clients)
  {
    var k := |configs| - 1;
    if ListedIn(configs[..k], tag, name) {
      var i :| 0 <= i < k && configs[..k][i].tag == tag && name in configs[..k][i].clients;
      assert configs[i] == configs[..k][i];
    }
    if ListedIn(configs, tag, name) {
      var i :| 0 <= i <= k && configs[i].tag == tag && name in configs[i].clients;
      if i < k { assert configs[..k][i] == configs[i]; }
    }
  }

  lemma {:induction false} TagsOfExact(configs: seq<Config>, name: string)
    ensures forall t :: t in TagsOf(configs, name) <==> ListedIn(configs, t, name)
  {
    if configs != [] {
      hide ListedIn, Mentions;
      TagsOfExact(configs[..|configs| - 1], name);
      forall t: string { ListedLast(configs, t, name); }
    }
  }

  lemma {:induction false} MentionedOnce(clients: seq<string>, tag: string, name: string)
    requires NoDup(clients)
    ensures |Mentions(clients, tag, name)| <= 1
  {
    if clients != [] {
      var k := |clients| - 1;
      MentionedOnce(clients[..k], tag, name);
      assert clients[k] !in clients[..k];
    }
  }

  lemma {:induction false} TagsOfNoDup(configs: seq<Config>, name: string)
    requires forall i, j :: 0 <= i < j < |configs| ==> configs[i].tag != configs[j].tag
    requires forall i :: 0 <= i < |configs| ==> NoDup(configs[i].clients)
    ensures NoDup(TagsOf(configs, name))
  {
    if configs != [] {
      var k := |configs| - 1;
      TagsOfNoDup(configs[..k], name);
      TagsOfExact(configs[..k], name);
      MentionedOnce(configs[k].clients, configs[k].tag, name);
      AppendNoDup(TagsOf(configs[..k], name), Mentions(configs[k].clients, configs[k].tag, name));
    }
  }

  /** What is loaded at start-up is fit for the user operations: every tag is listed, and unique where the lists are. */
  lemma LoadInv(s: Store, stored: map<string, string>, configs: seq<Config>)
    requires Shape(s) && Reflects(s, configs)
    ensures var s' := s.(users := Load(stored, configs));
            Base(s') && AllListed(s') && (ListsUnique(s) ==> Unique(s'))
  {
    var s' := s.(users := Load(stored, configs));
    UsersDoNotMatter(s, s'.users);
    forall n | n in s'.users ensures Listed(s', s'.users[n]) {
      TagsOfExact(configs, n);
    }
    if ListsUnique(s) {
      forall n | n in s'.users ensures NoDup(s'.users[n].tags) {
        TagsOfNoDup(configs, n);
      }
    }
  }

  /** With the runtime started from the same lists, nobody is an orphan either. */
  lemma LoadSound(s: Store, stored: map<string, string>, configs: seq<Config>)
    requires Shape(s) && Reflects(s, configs) && ListsUnique(s)
    requires forall t, n :: Holds(s, t, n) ==> (t, n) in s.runtime
    ensures Sound(s.(users := Load(stored, configs)))
  {
    var s' := s.(users := Load(stored, configs));
    LoadInv(s, stored, configs);
    UsersDoNotMatter(s, s'.users);
    hide Load, Reflects, Shape, ListsUnique, Holds;
    forall t, n ensures !Orphan(s', t, n) {
      RecordedIsHeld(s', t, n);
    }
  }

  // ---------------------------------------------------------------- the loops

  method FlushUser(users: map<string, User>) returns (userMap: map<string, string>)
    ensures userMap == Flush(users)
  {
    userMap := map[];
    var todo := users.Keys;
    while todo != {}
      invariant todo <= users.Keys
      invariant userMap == map k | k in users && k !in todo :: Print(users[k])
      decreases todo
    {
      var k :| k in todo;
      userMap := userMap[k := Print(users[k])];
      todo := todo - {k};
    }
  }

  /** The tags found for a user in some inbounds and in part of one more. */
  function Found(before: seq<Config>, clients: seq<string>, tag: string, name: string): seq<string> {
    TagsOf(before, name) + Mentions(clients, tag, name)
  }

  ghost predicate Collected(m: map<string, seq<string>>, before: seq<Config>, clients: seq<string>, tag: string) {
    forall n :: (n in m <==> Found(before, clients, tag, n) != [])
        && (n in m ==> m[n] == Found(before, clients, tag, n))
  }

  method GetUsersTag(configs: seq<Config>) returns (m: map<string, seq<string>>)
    ensures forall n :: (n in m <==> TagsOf(configs, n) != []) && (n in m ==> m[n] == TagsOf(configs, n))
  {
    m := map[];
    assert Collected(m, [], [], "");
    for i := 0 to |configs|
      invariant Collected(m, configs[..i], [], "")
    {
      m := CollectClients(m, configs[..i], configs[i]);
      assert configs[..i + 1] == configs[..i] + [configs[i]];
    }
    assert configs[..|configs|] == configs;
    assert forall n :: Found(configs, [], "", n) == TagsOf(configs, n);
  }

  method CollectClients(m0: map<string, seq<string>>, ghost before: seq<Config>, c: Config)
      returns (m: map<string, seq<string>>)
    requires Collected(m0, before, [], "")
    ensures Collected(m, before + [c], [], "")
  {
    hide Collected, Found;
    m := m0;
    StartOne(m, before, c.tag);
    for j := 0 to |c.clients|
      invariant Collected(m, before, c.clients[..j], c.tag)
    {
      ghost var m1 := m;
      var user := c.clients[j];
      m := if user in m then m[user := m[user] + [c.tag]] else m[user := [c.tag]];
      CollectOne(m1, m, before, c.clients[..j], c.tag, user);
      assert c.clients[..j + 1] == c.clients[..j] + [user];
    }
    assert c.clients[..|c.clients|] == c.clients;
    CollectAll(m, before, c);
  }

  lemma StartOne(m: map<string, seq<string>>, before: seq<Config>, tag: string)
    requires Collected(m, before, [], "")
    ensures Collected(m, before, [], tag)
  {
    assert forall n :: Found(before, [], tag, n) == Found(before, [], "", n);
  }

  lemma CollectOne(m: map<string, seq<string>>, m': map<string, seq<string>>, before: seq<Config>,
      clients: seq<string>, tag: string, user: string)
    requires Collected(m, before, clients, tag)
    requires m' == if user in m then m[user := m[user] + [tag]] else m[user := [tag]]
    ensures Collected(m', before, clients + [user], tag)
  {
    hide Found, TagsOf, Mentions;
    forall n: string { FoundOne(before, clients, tag, user, n); }
  }

  lemma FoundOne(before: seq<Config>, clients: seq<string>, tag: string, user: string, n: string)
    ensures Found(before, clients + [user], tag, n) == Found(before, clients, tag, n) + if n == user then [tag] else []
  {
    assert (clients + [user])[..|clients|] == clients;
  }

  lemma CollectAll(m: map<string, seq<string>>, before: seq<Config>, c: Config)
    requires Collected(m, before, c.clients, c.tag)
    ensures Collected(m, before + [c], [], "")
  {
    forall n ensures Found(before + [c], [], "", n) == Found(before, c.clients, c.tag, n) {
      assert (before + [c])[..|before|] == before;
    }
  }

  method LoadUser(stored: map<string, string>, configs: seq<Config>) returns (users: map<string, User>)
    ensures users == Load(stored, configs)
  {
    users := map[];
    var userTagMap := GetUsersTag(configs);
    var todo := stored.Keys;
    while todo != {}
      invariant todo <= stored.Keys
      invariant users == map k | k in stored
          && k !in todo :: User(k, Parse(stored[k]).0, Parse(stored[k]).1, TagsOf(configs, k))
      decreases todo
    {
      var k :| k in todo;
      var v := stored[k];
      var l := Split(v, '|');
      var passwd, expire := v, 0;
      if |l| == 2 {
        var e := ParseInt(l[1]);
        if e.Some? { passwd, expire := l[0], e.value; }
      }
      users := users[k := User(k, passwd, expire, if k in userTagMap then userTagMap[k] else [])];
      todo := todo - {k};
    }
  }
}
