/**
 The pool of ports that inbounds are moved to.  It is stored as a list of runs of
 consecutive ports and read back from it; an artificial largest member makes the
 printer flush the last real run.
 */
module Adaptive {
  import opened Common
  import opened Text
  import opened Inbounds

  /** The artificial member. */
  const SENTINEL: nat := MAX_INT64

  datatype Run = Run(lo: nat, hi: nat)

  // ---------------------------------------------------------------- lists of runs

  ghost predicate Covers(runs: seq<Run>, p: int) {
    exists i :: 0 <= i < |runs| && runs[i].lo <= p <= runs[i].hi
  }

  /** Ascending, disjoint, and not to be joined: between two runs at least one port is missing. */
  ghost predicate Ascending(runs: seq<Run>) {
    && (forall i :: 0 <= i < |runs| ==> runs[i].lo <= runs[i].hi)
    && (forall i, j :: 0 <= i < j < |runs| ==> runs[i].hi + 1 < runs[j].lo)
  }

  /** A set of ports has one list of runs only. */
  lemma {:induction false} RunsUnique(a: seq<Run>, b: seq<Run>)
    requires Ascending(a) && Ascending(b)
    requires forall p :: Covers(a, p) <==> Covers(b, p)
    ensures a == b
  {
    if a == [] {
      if b != [] { assert Covers(b, b[0].lo); }
    } else if b == [] {
      assert Covers(a, a[0].lo);
    } else {
      FirstRun(a, b);
      FirstRun(b, a);
      assert a[0] == b[0];
      forall p ensures Covers(a[1..], p) <==> Covers(b[1..], p) {
        CoversTail(a, p);
        CoversTail(b, p);
      }
      RunsUnique(a[1..], b[1..]);
      assert a == [a[0]] + a[1..] && b == [b[0]] + b[1..];
    }
  }

  lemma CoversTail(a: seq<Run>, p: int)
    requires Ascending(a) && a != []
    ensures Covers(a[1..], p) <==> Covers(a, p) && p > a[0].hi
  {
    CoversFirst(a, p);
    if Covers(a[1..], p) {
      var i :| 0 <= i < |a[1..]| && a[1..][i].lo <= p <= a[1..][i].hi;
      assert a[i + 1] == a[1..][i];
    }
  }

  /** The first run of one list starts no earlier and ends no later than that of the other. */
  lemma FirstRun(a: seq<Run>, b: seq<Run>)
    requires Ascending(a) && Ascending(b) && a != [] && b != []
    requires forall p :: Covers(a, p) <==> Covers(b, p)
    ensures a[0].lo >= b[0].lo && a[0].hi <= b[0].hi
  {
    InFirst(a, a[0].lo);
    var i :| 0 <= i < |b| && b[i].lo <= a[0].lo <= b[i].hi;
    assert b[0].lo <= b[i].lo;
    InFirst(b, b[0].lo);
    var k :| 0 <= k < |a| && a[k].lo <= b[0].lo <= a[k].hi;
    assert a[0].lo <= a[k].lo;
    InFirst(a, b[0].hi + 1);
    NotAfterFirst(b);
  }

  lemma InFirst(a: seq<Run>, p: int)
    requires a != []
    ensures a[0].lo <= p <= a[0].hi ==> Covers(a, p)
  {
  }

  lemma NotAfterFirst(b: seq<Run>)
    requires Ascending(b) && b != []
    ensures !Covers(b, b[0].hi + 1)
  {
  }

  // ---------------------------------------------------------------- printing the pool

  ghost predicate StrictlyAscending(s: seq<nat>) {
    forall i, j :: 0 <= i < j < |s| ==> s[i] < s[j]
  }

  /** Port p is in the pool, and so is not every number from it to the largest member. */
  ghost predicate BeforeLastRun(pool: set<nat>, p: int) {
    p in pool && exists q, r :: p < q < r && q !in pool && r in pool
  }

  /** The members of a set in ascending order, whatever the order in which they are visited. */
  method Sorted(pool: set<nat>) returns (s: seq<nat>)
    ensures StrictlyAscending(s) && forall p :: p in s <==> p in pool
  {
    s := [];
    var todo: set<nat> := pool;
    while |todo| > 0
      invariant todo <= pool && StrictlyAscending(s)
      invariant forall p :: p in s <==> p in pool && p !in todo
      decreases todo
    {
      var p :| p in todo;
      s := InsertSorted(s, p);
      todo := todo - {p};
    }
  }

  method InsertSorted(s: seq<nat>, p: nat) returns (r: seq<nat>)
    requires StrictlyAscending(s) && p !in s
    ensures StrictlyAscending(r) && forall q :: q in r <==> q in s || q == p
  {
    var i := 0;
    while i < |s| && s[i] < p
      invariant 0 <= i <= |s|
      invariant forall j :: 0 <= j < i ==> s[j] < p
    {
      i := i + 1;
    }
    r := s[..i] + [p] + s[i..];
  }

  /** The loop of Build: a run is emitted when the next port is not its continuation. */
  method BuildRuns(s: seq<nat>) returns (items: seq<Item>, ghost runs: seq<Run>)
    requires StrictlyAscending(s)
    ensures items == PrintAll(runs) && Ascending(runs)
    ensures forall p :: Covers(runs, p) <==> BeforeLast(s, p)
  {
    items, runs := [], [];
    if |s| > 0 {
      var start, end := s[0], s[0];
      var index := 1;
      assert RunState(s, 1, 0, runs, start, end);
      ghost var first := 0;
      while index < |s|
        invariant 1 <= index <= |s| && 0 <= first < index
        invariant items == PrintAll(runs) && RunState(s, index, first, runs, start, end)
      {
        if s[index] - s[index - 1] == 1 {
          end := s[index];
        } else {
          EmitRun(s, index, first, runs, start, end);
          if start == end {
            items := items + [Num(start)];
          } else {
            items := items + [Txt(Itoa(start) + "-" + Itoa(end))];
          }
          runs := runs + [Run(start, end)];
          start, end := s[index], s[index];
          first := index;
        }
        index := index + 1;
      }
      LastRunLeft(s, first, runs, start, end);
    }
  }

  /** p is a member after which a number is missing before a later member. */
  ghost predicate BeforeLast(s: seq<nat>, p: int) {
    exists i, j :: 0 <= i < j < |s| && s[i] == p && s[j] - s[i] > j - i
  }

  /** Before `index` the runs cover everything up to `first`, and from there on the current run is unbroken. */
  ghost predicate RunState(s: seq<nat>, index: nat, first: nat, runs: seq<Run>, start: nat, end: nat) {
    && first < index <= |s|
    && start == s[first] && end == s[index - 1]
    && (forall i :: first <= i < index ==> s[i] == start + (i - first))
    && (first > 0 ==> s[first - 1] + 1 < s[first])
    && Ascending(runs)
    && (forall i :: 0 <= i < |runs| ==> runs[i].hi + 1 < start)
    && (forall p :: Covers(runs, p) <==> p in s[..first])
  }

  lemma EmitRun(s: seq<nat>, index: nat, first: nat, runs: seq<Run>, start: nat, end: nat)
    requires StrictlyAscending(s) && RunState(s, index, first, runs, start, end)
    requires index < |s| && s[index] - s[index - 1] != 1
    ensures RunState(s, index + 1, index, runs + [Run(start, end)], s[index], s[index])
  {
    var runs' := runs + [Run(start, end)];
    forall p ensures Covers(runs', p) <==> p in s[..index] {
      if p in s[..index] && p !in s[..first] {
        var i :| 0 <= i < index && s[i] == p;
        assert i >= first;
        assert runs'[|runs|] == Run(start, end);
      }
      if Covers(runs', p) {
        var i :| 0 <= i < |runs'| && runs'[i].lo <= p <= runs'[i].hi;
        if i == |runs| {
          assert s[first + (p - start)] == p;
        } else {
          assert Covers(runs, p);
          assert p in s[..first];
        }
      }
      if p in s[..first] {
        assert Covers(runs, p);
        var i :| 0 <= i < |runs| && runs[i].lo <= p <= runs[i].hi;
        assert runs'[i] == runs[i];
      }
    }
  }

  lemma LastRunLeft(s: seq<nat>, first: nat, runs: seq<Run>, start: nat, end: nat)
    requires StrictlyAscending(s) && |s| > 0 && RunState(s, |s|, first, runs, start, end)
    ensures forall p :: Covers(runs, p) <==> BeforeLast(s, p)
  {
    forall p ensures p in s[..first] <==> BeforeLast(s, p) {
      if p in s[..first] {
        var i :| 0 <= i < first && s[i] == p;
        Spread(s, i, first - 1);
        assert s[first] - s[i] > first - i;
      }
      if BeforeLast(s, p) {
        var i, j :| 0 <= i < j < |s| && s[i] == p && s[j] - s[i] > j - i;
        if i >= first { assert false; }
        assert s[..first][i] == p;
      }
    }
  }

  lemma {:induction false} Spread(s: seq<nat>, i: nat, j: nat)
    requires StrictlyAscending(s) && i <= j < |s|
    ensures s[j] - s[i] >= j - i
    decreases j - i
  {
    if i < j { Spread(s, i, j - 1); }
  }

  // ---------------------------------------------------------------- the stored form and back

  /** An element of the stored list: a number, or the text of a range. */
  datatype Item = Num(n: int) | Txt(s: string)

  function Print(r: Run): Item {
    if r.lo == r.hi then Num(r.lo) else Txt(Itoa(r.lo) + "-" + Itoa(r.hi))
  }

  /** The text of an element. */
  function ItemText(i: Item): string {
    match i
    case Num(n) => Itoa(n)
    case Txt(s) => s
  }

  function Min(x: int, y: int): int { if x < y then x else y }

  function Max(x: int, y: int): int { if x < y then y else x }

  function Between(lo: nat, hi: int): (s: set<nat>)
    ensures forall p :: p in s <==> lo <= p <= hi
    decreases hi - lo
  {
    if lo > hi then {} else Between(lo, hi - 1) + {hi}
  }

  /** parseStringPortRange: what the text adds to the pool; nothing on an error. */
  function ParsePorts(pool: set<nat>, s: string): (r: (set<nat>, bool))
    ensures pool <= r.0 && forall p :: p in r.0 && p !in pool ==> InRange(p)
  {
    if '-' in s then
      var parts := Split(s, '-');
      if |parts| < 2 then (pool, false)
      else
        var lo, hi := ParseInt(parts[0]), ParseInt(parts[1]);
        if lo.None? || hi.None? then (pool, false)
        else (pool + Between(Max(lo.value, MIN_PORT), Min(hi.value, MAX_PORT)), true)
    else
      var p := ParseInt(s);
      if p.None? || !InRange(p.value) then (pool, false) else (pool + {p.value}, true)
  }

  /** An argument of AddPort: a text, a JSON number, or an integer of 32 bits, which is a type it passes over. */
  datatype Arg = TextArg(s: string) | FloatArg(n: int) | Uint32Arg(n: int)

  function WithPort(pool: set<nat>, a: Arg): (r: (set<nat>, bool))
    ensures pool <= r.0 && forall p :: p in r.0 && p !in pool ==> InRange(p)
  {
    match a
    case TextArg(s) => ParsePorts(pool, s)
    case FloatArg(n) => if InRange(n) then (pool + {n}, true) else (pool, false)
    case Uint32Arg(_) => (pool, true)
  }

  function ReadItem(i: Item): Arg {
    match i
    case Num(n) => FloatArg(n)
    case Txt(s) => TextArg(s)
  }

  /** The pool read from a stored list, as at start-up. */
  function ReadAll(pool: set<nat>, items: seq<Item>): set<nat>
    decreases |items|
  {
    if items == [] then pool else ReadAll(WithPort(pool, ReadItem(items[0])).0, items[1..])
  }

  function PrintAll(runs: seq<Run>): (items: seq<Item>)
    ensures |items| == |runs|
  {
    seq(|runs|, i requires 0 <= i < |runs| => Print(runs[i]))
  }

  /** Reading the text of a run adds the run. */
  lemma ParsePrint(pool: set<nat>, r: Run)
    requires InRange(r.lo) && InRange(r.hi) && r.lo <= r.hi
    ensures ParsePorts(pool, ItemText(Print(r))) == (pool + Between(r.lo, r.hi), true)
    ensures WithPort(pool, ReadItem(Print(r))) == (pool + Between(r.lo, r.hi), true)
  {
    hide Itoa, ParseInt;
    ParseItoa(r.lo);
    NoDash(r.lo);
    if r.lo == r.hi {
      assert Between(r.lo, r.hi) == {r.lo};
    } else {
      ParseItoa(r.hi);
      SplitRange(r);
    }
  }

  lemma SplitRange(r: Run)
    ensures '-' in Itoa(r.lo) + "-" + Itoa(r.hi)
    ensures Split(Itoa(r.lo) + "-" + Itoa(r.hi), '-') == [Itoa(r.lo), Itoa(r.hi)]
  {
    NoDash(r.lo);
    NoDash(r.hi);
    var s := Itoa(r.lo) + "-" + Itoa(r.hi);
    SplitAfterPiece(Itoa(r.lo), Itoa(r.hi), '-');
    SplitPiece(Itoa(r.hi), '-');
    assert s[|Itoa(r.lo)|] == '-';
    assert s == Itoa(r.lo) + ['-'] + Itoa(r.hi);
  }

  /** The text of any range adds exactly its ports that are in 100..65535. */
  lemma RangeText(pool: set<nat>, r: Run)
    requires r.lo <= MAX_INT64 && r.hi <= MAX_INT64
    ensures var (pool', ok) := ParsePorts(pool, Itoa(r.lo) + "-" + Itoa(r.hi));
            ok && forall p :: p in pool' <==> p in pool || (r.lo <= p <= r.hi && 100 <= p <= 65535)
  {
    hide Itoa, ParseInt, Split;
    ParseItoa(r.lo);
    ParseItoa(r.hi);
    SplitRange(r);
  }

  /** The text of a single port adds it exactly when it is in 100..65535; so does a number. */
  lemma PortText(pool: set<nat>, n: int)
    requires MIN_INT64 <= n <= MAX_INT64
    ensures ParsePorts(pool, Itoa(n)) == if 100 <= n <= 65535 then (pool + {n}, true) else (pool, false)
    ensures WithPort(pool, FloatArg(n)) == if 100 <= n <= 65535 then (pool + {n}, true) else (pool, false)
    ensures WithPort(pool, Uint32Arg(n)) == (pool, true)
  {
    ParseItoa(n);
    if n >= 0 {
      NoDash(n);
    } else {
      NegativeText(n);
    }
    hide Itoa, ParseInt, Split;
  }

  /** A minus sign is taken for the sign of a range. */
  lemma NegativeText(n: int)
    requires n < 0
    ensures '-' in Itoa(n) && Split(Itoa(n), '-')[0] == "" && ParseInt("") == None
  {
    assert Itoa(n)[0] == '-';
  }

  /** What cannot be read changes nothing. */
  lemma UnreadableKeeps(pool: set<nat>, s: string)
    requires !ParsePorts(pool, s).1
    ensures ParsePorts(pool, s).0 == pool
  {
  }

  lemma NoDash(n: nat)
    ensures '-' !in Itoa(n)
  {
  }

  lemma {:induction false} ReadPrintAll(pool: set<nat>, runs: seq<Run>)
    requires forall i :: 0 <= i < |runs| ==> InRange(runs[i].lo) && InRange(runs[i].hi) && runs[i].lo <= runs[i].hi
    ensures forall p :: p in ReadAll(pool, PrintAll(runs)) <==> p in pool || Covers(runs, p)
    decreases |runs|
  {
    if runs != [] {
      hide Covers, ReadAll, PrintAll;
      ReadPrintFirst(pool, runs);
      ReadPrintAll(pool + Between(runs[0].lo, runs[0].hi), runs[1..]);
      forall p: int { CoversFirst(runs, p); }
    }
  }

  lemma ReadPrintFirst(pool: set<nat>, runs: seq<Run>)
    requires runs != [] && InRange(runs[0].lo) && InRange(runs[0].hi) && runs[0].lo <= runs[0].hi
    ensures ReadAll(pool, PrintAll(runs)) == ReadAll(pool + Between(runs[0].lo, runs[0].hi), PrintAll(runs[1..]))
  {
    hide WithPort, ReadItem, Print;
    ParsePrint(pool, runs[0]);
    assert PrintAll(runs)[1..] == PrintAll(runs[1..]);
  }

  lemma CoversFirst(runs: seq<Run>, p: int)
    requires runs != []
    ensures Covers(runs, p) <==> runs[0].lo <= p <= runs[0].hi || Covers(runs[1..], p)
  {
    if Covers(runs[1..], p) {
      var i :| 0 <= i < |runs[1..]| && runs[1..][i].lo <= p <= runs[1..][i].hi;
      assert runs[i + 1] == runs[1..][i];
    }
    if Covers(runs, p) && !(runs[0].lo <= p <= runs[0].hi) {
      var i :| 0 <= i < |runs| && runs[i].lo <= p <= runs[i].hi;
      assert runs[1..][i - 1] == runs[i];
    }
  }

  /** A pool as it is after start-up: real ports, and perhaps the artificial member. */
  ghost predicate PoolInv(pool: set<nat>) {
    forall p :: p in pool ==> InRange(p) || p == SENTINEL
  }

  /** Build as a relation: what the loop may return for a pool. */
  ghost predicate Built(pool: set<nat>, runs: seq<Run>) {
    Ascending(runs) && forall p :: Covers(runs, p) <==> BeforeLastRun(pool, p)
  }

  method Build(pool: set<nat>) returns (items: seq<Item>, ghost runs: seq<Run>)
    ensures Built(pool, runs) && items == PrintAll(runs)
    ensures PoolInv(pool) && SENTINEL in pool ==> ReadAll({}, items) == pool - {SENTINEL}
  {
    var s := Sorted(pool);
    items, runs := BuildRuns(s);
    forall p ensures BeforeLast(s, p) <==> BeforeLastRun(pool, p) {
      LastRunAgrees(s, pool, p);
    }
    if PoolInv(pool) && SENTINEL in pool {
      BuildReadsBack(pool, runs);
    }
  }

  lemma LastRunAgrees(s: seq<nat>, pool: set<nat>, p: int)
    requires StrictlyAscending(s) && forall q :: q in s <==> q in pool
    ensures BeforeLast(s, p) <==> BeforeLastRun(pool, p)
  {
    if BeforeLast(s, p) {
      var i, j :| 0 <= i < j < |s| && s[i] == p && s[j] - s[i] > j - i;
      var k := Gap(s, i, j);
      assert s[k] + 1 !in pool && s[k + 1] in pool && s[k + 1] > s[k] + 1;
      Spread(s, i, k);
      assert p < s[k] + 1 < s[k + 1];
    }
    if BeforeLastRun(pool, p) {
      var q, r :| p < q < r && q !in pool && r in pool;
      var i :| 0 <= i < |s| && s[i] == p;
      var j :| 0 <= j < |s| && s[j] == r;
      if s[j] - s[i] <= j - i {
        Dense(s, i, j, q);
        assert false;
      }
    }
  }

  lemma {:induction false} Gap(s: seq<nat>, i: nat, j: nat) returns (k: nat)
    requires StrictlyAscending(s) && i < j < |s| && s[j] - s[i] > j - i
    ensures i <= k < j && s[k] + 1 < s[k + 1] && s[k] + 1 !in s
    decreases j - i
  {
    if s[j - 1] + 1 < s[j] {
      k := j - 1;
      if s[k] + 1 in s {
        assert false;
      }
    } else {
      k := Gap(s, i, j - 1);
    }
  }

  lemma {:induction false} Dense(s: seq<nat>, i: nat, j: nat, q: int)
    requires StrictlyAscending(s) && i <= j < |s| && s[j] - s[i] <= j - i && s[i] <= q <= s[j]
    ensures q in s
    decreases j - i
  {
    if q < s[j] {
      Spread(s, i, j - 1);
      Dense(s, i, j - 1, q);
    }
  }

  /** With the artificial member, the runs that Build emits cover exactly the real ports. */
  lemma BuildCovers(pool: set<nat>, runs: seq<Run>)
    requires PoolInv(pool) && SENTINEL in pool && Built(pool, runs)
    ensures forall p :: Covers(runs, p) <==> p in pool && p != SENTINEL
  {
    hide Covers, Ascending;
    forall p ensures BeforeLastRun(pool, p) <==> p in pool && p != SENTINEL {
      if p in pool && p != SENTINEL {
        assert MAX_PORT + 1 !in pool;
        assert p < MAX_PORT + 1 < SENTINEL;
      }
    }
  }

  lemma RunsInRange(pool: set<nat>, runs: seq<Run>)
    requires PoolInv(pool) && Ascending(runs)
    requires forall p :: Covers(runs, p) <==> p in pool && p != SENTINEL
    ensures forall i :: 0 <= i < |runs| ==> InRange(runs[i].lo) && InRange(runs[i].hi) && runs[i].lo <= runs[i].hi
  {
    forall i | 0 <= i < |runs| ensures InRange(runs[i].lo) && InRange(runs[i].hi) && runs[i].lo <= runs[i].hi {
      assert Covers(runs, runs[i].lo) && Covers(runs, runs[i].hi);
    }
  }

  /** And what it stores is read back as exactly these ports. */
  lemma BuildReadsBack(pool: set<nat>, runs: seq<Run>)
    requires PoolInv(pool) && SENTINEL in pool && Built(pool, runs)
    ensures ReadAll({}, PrintAll(runs)) == pool - {SENTINEL}
  {
    hide PoolInv, Covers, Ascending, BeforeLastRun;
    BuildCovers(pool, runs);
    RunsInRange(pool, runs);
    ReadPrintAll({}, runs);
  }

  /** Without it the largest port is lost: the artificial member is needed exactly when there is a port to store. */
  lemma SentinelNeeded(pool: set<nat>, runs: seq<Run>)
    requires PoolInv(pool) && Built(pool, runs)
    ensures (forall p :: Covers(runs, p) <==> p in pool && p != SENTINEL) <==> SENTINEL in pool || pool == {}
  {
    if SENTINEL in pool {
      BuildCovers(pool, runs);
    } else if pool != {} {
      var top := Largest(pool);
      assert !BeforeLastRun(pool, top);
    }
  }

  lemma {:induction false} Largest(s: set<nat>) returns (top: nat)
    requires s != {}
    ensures top in s && forall p :: p in s ==> p <= top
    decreases s
  {
    assert |s| > 0;
    var x :| x in s;
    if s == {x} {
      top := x;
    } else {
      assert s == (s - {x}) + {x};
      var t := Largest(s - {x});
      top := if t > x then t else x;
    }
  }

  // ---------------------------------------------------------------- choosing a port

  function Real(order: seq<nat>): (r: seq<nat>)
    ensures forall p :: p in r <==> p in order && p != SENTINEL
  {
    if order == [] then []
    else (if order[0] == SENTINEL then [] else [order[0]]) + Real(order[1..])
  }

  /** getRandPort, with the order in which the pool is visited and the random index. */
  function Chosen(order: seq<nat>, tags: nat, target: nat): int {
    if |order| == 1 || |order| < 2 * tags || target >= |Real(order)| then -1 else Real(order)[target]
  }

  lemma {:induction false} RealSize(order: seq<nat>)
    requires forall i, j :: 0 <= i < j < |order| ==> order[i] != order[j]
    ensures |Real(order)| == if SENTINEL in order then |order| - 1 else |order|
  {
    if order != [] { RealSize(order[1..]); }
  }

  lemma {:induction false} OrderSize(order: seq<nat>, pool: set<nat>)
    requires Orders(order, pool)
    ensures |order| == |pool|
  {
    if order == [] {
      assert pool == {};
    } else {
      var rest := pool - {order[0]};
      assert pool == rest + {order[0]};
      OrderSize(order[1..], rest);
    }
  }

  /**
   Exactly the last index, and a pool too small for the tags, choose nothing; every other index chooses a
   real port.
   */
  lemma ChosenIsReal(pool: set<nat>, order: seq<nat>, tags: nat, target: nat)
    requires PoolInv(pool) && SENTINEL in pool && Orders(order, pool) && target < |pool|
    ensures var p := Chosen(order, tags, target);
            && (p == -1 <==> |pool| == 1 || |pool| < 2 * tags || target == |pool| - 1)
            && (p != -1 ==> InRange(p) && p in pool)
  {
    OrderSize(order, pool);
    RealSize(order);
    if Chosen(order, tags, target) != -1 {
      assert Real(order)[target] in Real(order);
    }
  }

  lemma {:induction false} RealDistinct(order: seq<nat>)
    requires forall i, j :: 0 <= i < j < |order| ==> order[i] != order[j]
    ensures forall i, j :: 0 <= i < j < |Real(order)| ==> Real(order)[i] != Real(order)[j]
  {
    if order != [] {
      RealDistinct(order[1..]);
      assert order[0] !in order[1..];
    }
  }

  /** In any order of visiting, each real port is chosen by exactly one index. */
  lemma EachPortOnce(pool: set<nat>, order: seq<nat>, tags: nat, p: nat)
    requires PoolInv(pool) && SENTINEL in pool && Orders(order, pool) && |pool| > 1 && |pool| >= 2 * tags
    requires p in pool && p != SENTINEL
    ensures exists i: nat :: i < |pool| - 1 && Chosen(order, tags, i) == p
    ensures forall i: nat, j: nat ::
              i < |pool| && j < |pool| && Chosen(order, tags, i) == p && Chosen(order, tags, j) == p ==> i == j
  {
    OrderSize(order, pool);
    RealSize(order);
    RealDistinct(order);
    assert p in Real(order);
    var i :| 0 <= i < |Real(order)| && Real(order)[i] == p;
    assert Chosen(order, tags, i) == p;
  }

  // ---------------------------------------------------------------- the pool as an object

  class Pool {
    var ports: set<nat>
    var tags: set<string>

    /** Init: an element that cannot be read is passed over. */
    constructor (tags: seq<string>, items: seq<Item>)
      ensures ports == ReadAll({}, items) + {SENTINEL}
      ensures forall t :: t in this.tags <==> t in tags
    {
      ports := {};
      this.tags := set t | t in tags;
      new;
      var i := 0;
      while i < |items|
        invariant 0 <= i <= |items|
        invariant this.tags == set t | t in tags
        invariant ReadAll(ports, items[i..]) == ReadAll({}, items)
      {
        assert items[i..][1..] == items[i + 1..];
        var _ := AddPort(ReadItem(items[i]));
        i := i + 1;
      }
      ports := ports + {SENTINEL};
    }

    method AddPort(a: Arg) returns (ok: bool)
      modifies this`ports
      ensures (ports, ok) == WithPort(old(ports), a)
    {
      ok := true;
      match a {
        case TextArg(s) =>
          ok := ParseStringPortRange(s);
        case FloatArg(n) =>
          if n < MIN_PORT || n > MAX_PORT {
            ok := false;
          } else {
            ports := ports + {n};
          }
        case Uint32Arg(_) =>
      }
    }

    method ParseStringPortRange(s: string) returns (ok: bool)
      modifies this`ports
      ensures (ports, ok) == ParsePorts(old(ports), s)
    {
      if '-' in s {
        var parts := Split(s, '-');
        if |parts| < 2 { return false; }
        var lo, hi := ParseInt(parts[0]), ParseInt(parts[1]);
        if lo.None? || hi.None? { return false; }
        AddRange(Max(lo.value, MIN_PORT), Min(hi.value, MAX_PORT));
        ok := true;
      } else {
        var p := ParseInt(s);
        if p.None? || p.value > MAX_PORT || p.value < MIN_PORT { return false; }
        ports := ports + {p.value};
        ok := true;
      }
    }

    method AddRange(lo: nat, hi: int)
      modifies this`ports
      ensures ports == old(ports) + Between(lo, hi)
    {
      var p := lo;
      while p <= hi
        invariant lo <= p && (p <= hi + 1 || p == lo)
        invariant ports == old(ports) + Between(lo, p - 1)
        decreases hi - p
      {
        ports := ports + {p};
        p := p + 1;
      }
    }

    method DeletePort(p: int)
      modifies this`ports
      ensures ports == old(ports) - {p}
    {
      ports := ports - {p};
    }

    /** A walk over the pool in some order, stopping at the target; `order` is the order it takes. */
    method GetRandPort(random: nat) returns (port: int, ghost order: seq<nat>, ghost target: nat)
      requires ports != {} || tags != {}
      ensures Orders(order, ports) && (ports != {} ==> target < |ports|)
      ensures port == Chosen(order, |tags|, target)
      ensures port != -1 ==> port in ports && port != SENTINEL
    {
      order := AnyOrder(ports);
      OrderSize(order, ports);
      target := 0;
      if |ports| == 1 || |ports| < 2 * |tags| {
        return -1, order, target;
      }
      assert ports != {};
      var targetIndex := random % |ports|;
      target := targetIndex;
      port, order := Walk(targetIndex);
      OrderSize(order, ports);
      assert port != -1 ==> port in Real(order);
    }

    method Walk(targetIndex: nat) returns (port: int, ghost order: seq<nat>)
      ensures Orders(order, ports)
      ensures port == if targetIndex < |Real(order)| then Real(order)[targetIndex] else -1
    {
      port, order := -1, [];
      var index, todo := 0, ports;
      while todo != {}
        invariant todo <= ports && Orders(order, ports - todo)
        invariant index == |Real(order)| <= targetIndex
        decreases todo
      {
        var p :| p in todo;
        todo := todo - {p};
        RealLast(order, p);
        ghost var order' := order + [p];
        assert Orders(order', ports - todo);
        if p != SENTINEL && targetIndex == index {
          ghost var rest := AnyOrder(todo);
          RealAppend(order', rest);
          order := order' + rest;
          OrdersAppend(order', rest, ports - todo, todo);
          return p, order;
        }
        if p != SENTINEL { index := index + 1; }
        order := order';
      }
    }
  }

  lemma {:induction false} AnyOrder(pool: set<nat>) returns (order: seq<nat>)
    ensures Orders(order, pool)
    decreases pool
  {
    if pool == {} {
      order := [];
    } else {
      var p :| p in pool;
      var rest := AnyOrder(pool - {p});
      order := [p] + rest;
    }
  }

  lemma OrdersAppend(a: seq<nat>, b: seq<nat>, x: set<nat>, y: set<nat>)
    requires Orders(a, x) && Orders(b, y) && x !! y
    ensures Orders(a + b, x + y)
  {
    forall i, j | 0 <= i < j < |a + b| ensures (a + b)[i] != (a + b)[j] {
      if i < |a| <= j {
        assert a[i] in x && b[j - |a|] in y;
      }
    }
  }

  lemma {:induction false} RealAppend(a: seq<nat>, b: seq<nat>)
    ensures Real(a + b) == Real(a) + Real(b)
  {
    if a == [] {
      assert a + b == b;
    } else {
      RealAppend(a[1..], b);
      assert (a + b)[1..] == a[1..] + b;
      assert Real(a + b) == (if a[0] == SENTINEL then [] else [a[0]]) + (Real(a[1..]) + Real(b));
    }
  }

  lemma RealLast(a: seq<nat>, p: nat)
    ensures Real(a + [p]) == Real(a) + if p == SENTINEL then [] else [p]
  {
    RealAppend(a, [p]);
    assert Real([p]) == if p == SENTINEL then [] else [p];
  }
}
