/**
 Moving an inbound to a port of the pool: what becomes of the inbounds and of the
 pool, for every random choice and every answer of the runtime.
 */
module AdaptiveManager {
  import opened Common
  import opened Inbounds
  import opened Adaptive
  import ProxyManager

  /** The conversion to 32 bits without sign. */
  function Uint32(n: int): int {
    n % 0x1_0000_0000
  }

  /**
   AdaptiveOneInbound, given the chosen port and the runtime's answers.  After a successful transfer
   the port of the inbound, which is the new one by then, is handed to AddPort as a 32-bit integer.
   */
  function AdaptiveOne(m: Inbounds.Manager, pool: set<nat>, tag: string, port: int, o: Answers)
    : (Inbounds.Manager, set<nat>, bool)
  {
    if tag !in m.inbounds then (m, pool, false)
    else
      var (m', ok) := TransferInbound(m, tag, Uint32(port), o);
      if !ok then (m', pool, false)
      else (m', WithPort(pool - {port}, Uint32Arg(Uint32(port))).0, true)
  }

  /** When no port was chosen nothing changes. */
  lemma NoPortNoChange(m: Inbounds.Manager, pool: set<nat>, tag: string, o: Answers)
    ensures AdaptiveOne(m, pool, tag, -1, o) == (m, pool, false)
  {
    assert Uint32(-1) == 0xFFFF_FFFF;
  }

  /**
   A chosen port is a real one; on success the inbound has it and the pool does not, otherwise the pool is
   as before.
   */
  lemma AdaptiveOutcomes(m: Inbounds.Manager, pool: set<nat>, tag: string, port: int, o: Answers)
    requires InOrder(m) && PoolInv(pool) && tag in m.inbounds && tag != API_TAG
    requires port in pool && InRange(port)
    ensures var (m', pool', ok) := AdaptiveOne(m, pool, tag, port, o);
            var was := m.inbounds[tag].port;
            && InOrder(m') && PoolInv(pool')
            && (ok <==> port != was && Moves(m, port, o))
            && (ok ==> OnlyMoved(m, m', tag, port) && pool' == pool - {port})
            && (!ok ==> pool' == pool)
            && (!ok ==> if o.removed.Removed? && (port == was || !InRange(was) || !o.restored.Installed?)
                        then OnlyGone(m, m', tag) else SameMaps(m, m'))
  {
    hide InOrder, OnlyMoved, OnlyGone, SameMaps, TransferInbound;
    assert Uint32(port) == port;
    TransferOutcomes(m, tag, port, o);
    TransferKeeps(m, tag, port, o);
  }

  /** AddPort is given the port just taken: were it not passed over, the pool would be as before, not refilled. */
  lemma HonouredPutsBack(m: Inbounds.Manager, pool: set<nat>, tag: string, port: int, o: Answers)
    requires InOrder(m) && tag in m.inbounds && tag != API_TAG && port in pool && InRange(port)
    requires AdaptiveOne(m, pool, tag, port, o).2
    ensures var (m', pool', _) := AdaptiveOne(m, pool, tag, port, o);
            && tag in m'.inbounds && m'.inbounds[tag].port == port && pool' == pool - {port}
            && WithPort(pool', FloatArg(m'.inbounds[tag].port)).0 == pool
  {
    assert Uint32(port) == port;
    TransferOutcomes(m, tag, port, o);
    hide InOrder, TransferInbound;
    assert pool - {port} + {port} == pool;
  }

  // ---------------------------------------------------------------- many moves

  /** One move: which inbound, how the pool is visited, the random index, and the runtime's answers. */
  datatype Move = Move(tag: string, order: seq<nat>, target: nat, answers: Answers)

  function Step(m: Inbounds.Manager, pool: set<nat>, tags: nat, v: Move): (Inbounds.Manager, set<nat>, bool) {
    AdaptiveOne(m, pool, v.tag, Chosen(v.order, tags, v.target), v.answers)
  }

  /** Inbounds, pool and the number of successful moves after all moves. */
  function Steps(m: Inbounds.Manager, pool: set<nat>, tags: nat, moves: seq<Move>): (Inbounds.Manager, set<nat>, nat)
    decreases |moves|
  {
    if moves == [] then (m, pool, 0)
    else
      var (m1, pool1, ok) := Step(m, pool, tags, moves[0]);
      var (m2, pool2, n) := Steps(m1, pool1, tags, moves[1..]);
      (m2, pool2, if ok then n + 1 else n)
  }

  /** The random choices are ones the program can make. */
  ghost predicate Possible(m: Inbounds.Manager, pool: set<nat>, tags: nat, moves: seq<Move>)
    decreases |moves|
  {
    moves != [] ==>
      && Orders(moves[0].order, pool) && moves[0].target < |pool|
      && var (m1, pool1, _) := Step(m, pool, tags, moves[0]);
         Possible(m1, pool1, tags, moves[1..])
  }

  lemma StepKeeps(m: Inbounds.Manager, pool: set<nat>, tags: nat, v: Move)
    requires InOrder(m) && PoolInv(pool) && SENTINEL in pool && Orders(v.order, pool) && v.target < |pool|
    ensures var (m', pool', ok) := Step(m, pool, tags, v);
            && InOrder(m') && ApiKept(m, m') && PoolInv(pool') && SENTINEL in pool'
            && |pool| == |pool'| + (if ok then 1 else 0)
            && (ok ==> |pool| >= 2 * tags && |pool| > 1)
  {
    hide InOrder, TransferInbound, Orders, PoolInv;
    var port := Chosen(v.order, tags, v.target);
    ChosenIsReal(pool, v.order, tags, v.target);
    if port == -1 {
      NoPortNoChange(m, pool, v.tag, v.answers);
    } else if v.tag in m.inbounds {
      TransferKeeps(m, v.tag, Uint32(port), v.answers);
      assert Uint32(port) == port;
      PoolShrinks(pool, port);
    }
  }

  lemma PoolShrinks(pool: set<nat>, port: nat)
    requires port in pool && PoolInv(pool)
    ensures |pool - {port}| == |pool| - 1 && PoolInv(pool - {port})
  {
  }

  /**
   The pool is drawn from without replacement: over every run each successful move takes one port
   out of it and nothing puts one back, so there are never more moves than ports.
   */
  lemma {:induction false} MovesDrainPool(m: Inbounds.Manager, pool: set<nat>, tags: nat, moves: seq<Move>)
    requires InOrder(m) && PoolInv(pool) && SENTINEL in pool && Possible(m, pool, tags, moves)
    ensures var (m', pool', n) := Steps(m, pool, tags, moves);
            && InOrder(m') && ApiKept(m, m') && PoolInv(pool') && SENTINEL in pool'
            && n + |pool'| == |pool| && n < |pool|
            && (n > 0 ==> |pool'| + 1 >= 2 * tags)
    decreases |moves|
  {
    hide InOrder, Step, PoolInv;
    if moves != [] {
      StepKeeps(m, pool, tags, moves[0]);
      var (m1, pool1, _) := Step(m, pool, tags, moves[0]);
      MovesDrainPool(m1, pool1, tags, moves[1..]);
    }
  }

  // ---------------------------------------------------------------- in place

  class Mover {
    const manager: ProxyManager.Manager
    const pool: Pool

    constructor (manager: ProxyManager.Manager, pool: Pool)
      ensures this.manager == manager && this.pool == pool
    {
      this.manager, this.pool := manager, pool;
    }

    method AdaptiveOneInbound(tag: string, random: nat)
      returns (oldPort: int, newPort: int, ok: bool, ghost v: Move)
      requires manager.Valid() && (pool.ports != {} || pool.tags != {})
      modifies manager, manager.runtime, manager.inbounds.Values, pool
      ensures manager.Valid() && pool.tags == old(pool.tags)
      ensures v.tag == tag && Orders(v.order, old(pool.ports))
          && (old(pool.ports) != {} ==> v.target < |old(pool.ports)|)
      ensures (manager.Abs(), pool.ports, ok) == Step(old(manager.Abs()), old(pool.ports), |pool.tags|, v)
      ensures tag in old(manager.inbounds) ==>
                oldPort == old(manager.Abs()).inbounds[tag].port && newPort == Chosen(v.order, |pool.tags|, v.target)
    {
      hide TransferInbound, Chosen, Orders, Step;
      ghost var m, ports := manager.Abs(), pool.ports;
      ghost var order, target;
      newPort, order, target := pool.GetRandPort(random);
      v := Move(tag, order, target, Answers(Denied, Refused, Denied, Refused));
      if tag !in manager.inbounds {
        StepIs(m, ports, |pool.tags|, v, newPort);
        return 0, 0, false, v;
      }
      ghost var o;
      oldPort, ok, o := MoveTo(tag, newPort);
      v := v.(answers := o);
      StepIs(m, ports, |pool.tags|, v, newPort);
    }

    /** The transfer, and what it means for the pool. */
    method MoveTo(tag: string, newPort: int) returns (oldPort: int, ok: bool, ghost o: Answers)
      requires manager.Valid() && tag in manager.inbounds
      modifies manager, manager.runtime, manager.inbounds.Values, pool
      ensures manager.Valid() && pool.tags == old(pool.tags)
      ensures oldPort == old(manager.inbounds[tag].port)
      ensures (manager.Abs(), ok) == TransferInbound(old(manager.Abs()), tag, Uint32(newPort), o)
      ensures pool.ports == if ok then old(pool.ports) - {newPort} else old(pool.ports)
    {
      hide TransferInbound;
      var inbound := manager.inbounds[tag];
      oldPort := inbound.port;
      ok, o := manager.TransferInbound(tag, Uint32(newPort));
      if ok {
        pool.DeletePort(newPort);
        var _ := pool.AddPort(Uint32Arg(inbound.port));
      }
    }
  }

  lemma StepIs(m: Inbounds.Manager, pool: set<nat>, tags: nat, v: Move, port: int)
    requires port == Chosen(v.order, tags, v.target)
    ensures v.tag !in m.inbounds ==> Step(m, pool, tags, v) == (m, pool, false)
    ensures v.tag in m.inbounds ==>
              var (m', ok) := TransferInbound(m, v.tag, Uint32(port), v.answers);
              Step(m, pool, tags, v) == (m', if ok then pool - {port} else pool, ok)
  {
  }
}
