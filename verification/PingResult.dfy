/** The delays of one target, in a ring of 100 places. */
module PingResult {
  import opened PingStats

  const SIZE: nat := 100

  /** The last hundred of the values, or all of them. */
  function Window(history: seq<real>): seq<real> {
    if |history| <= SIZE then history else history[|history| - SIZE..]
  }

  /** The ring holds the last values, each at its number modulo the size. */
  ghost predicate InRing(ring: seq<real>, history: seq<real>) {
    && |ring| == SIZE
    && forall i :: 0 <= i < |history| && |history| - SIZE <= i ==> ring[i % SIZE] == history[i]
  }

  function ReadRing(ring: seq<real>, n: nat): seq<real>
    requires |ring| == SIZE
  {
    if n >= SIZE then ring else ring[..n]
  }

  lemma PutInRing(ring: seq<real>, history: seq<real>, v: real)
    requires InRing(ring, history)
    ensures InRing(ring[|history| % SIZE := v], history + [v])
  {
    var n := |history|;
    forall i | 0 <= i < n && n + 1 - SIZE <= i ensures i % SIZE != n % SIZE {
      Apart(i, n);
    }
  }

  lemma Apart(i: nat, n: nat)
    requires i < n < i + SIZE
    ensures i % SIZE != n % SIZE
  {
  }

  /** A full ring is the window, turned. */
  lemma RingIsTurned(ring: seq<real>, history: seq<real>)
    requires InRing(ring, history) && |history| >= SIZE
    ensures var w, r := Window(history), |history| % SIZE;
            |w| == SIZE && ring == w[SIZE - r..] + w[..SIZE - r]
  {
    var w, n := Window(history), |history|;
    var r := n % SIZE;
    forall k | 0 <= k < SIZE ensures ring[k] == (w[SIZE - r..] + w[..SIZE - r])[k] {
      var i := if k < r then n - r + k else n - r - SIZE + k;
      Residue(n, k);
      assert i % SIZE == k;
    }
  }

  lemma Residue(n: nat, k: nat)
    requires k < SIZE && n >= SIZE
    ensures (n - n % SIZE + k) % SIZE == k && (n - n % SIZE - SIZE + k) % SIZE == k
  {
    var q := n / SIZE;
    assert n - n % SIZE == SIZE * q;
  }

  /** The window: the last min(n, 100) values, in order. */
  lemma WindowIs(history: seq<real>)
    ensures |Window(history)| == if |history| < 100 then |history| else 100
    ensures forall i :: 0 <= i < |Window(history)| ==>
              Window(history)[i] == history[|history| - |Window(history)| + i]
  {
  }

  /** What is read from the ring is, in some order, the window. */
  lemma RingIsWindow(ring: seq<real>, history: seq<real>)
    requires InRing(ring, history)
    ensures multiset(ReadRing(ring, |history|)) == multiset(Window(history))
  {
    if |history| >= SIZE {
      RingIsTurned(ring, history);
      var w, r := Window(history), |history| % SIZE;
      assert w == w[..SIZE - r] + w[SIZE - r..];
    } else {
      assert ring[..|history|] == history by {
        forall i | 0 <= i < |history| ensures ring[i] == history[i] {
          assert i % SIZE == i;
        }
      }
    }
  }

  class PingResult {
    const delayList: array<real>
    var delayIndex: nat
    ghost var history: seq<real>  // all updates so far

    ghost predicate Valid()
      reads this, delayList
    {
      delayList.Length == SIZE && delayIndex == |history| && InRing(delayList[..], history)
    }

    constructor ()
      ensures Valid() && history == [] && fresh(delayList)
    {
      delayList := new real[SIZE](i => 0.0);
      delayIndex, history := 0, [];
    }

    method Update(delay: real)
      requires Valid()
      modifies this, delayList
      ensures Valid() && history == old(history) + [delay]
    {
      PutInRing(delayList[..], history, delay);
      delayList[delayIndex % SIZE] := delay;
      delayIndex := delayIndex + 1;
      history := history + [delay];
    }

    /** The data handed to a statistic: as a multiset, the window. */
    method ReadData() returns (data: seq<real>)
      requires Valid()
      ensures multiset(data) == multiset(Window(history)) && data == ReadRing(delayList[..], delayIndex)
    {
      RingIsWindow(delayList[..], history);
      data := if delayIndex >= SIZE then delayList[..] else delayList[..delayIndex];
      assert delayIndex < SIZE ==> delayList[..delayIndex] == delayList[..][..delayIndex];
    }

    method GetAvg() returns (r: real)
      requires Valid()
      ensures r == Avg(Window(history))
    {
      var data := ReadData();
      StatsUnordered(data, Window(history));
      r := CalculateAvg(data);
    }

    method GetMax() returns (r: real)
      requires Valid()
      ensures IsMax(Window(history), r)
    {
      var data := ReadData();
      StatsUnordered(data, Window(history));
      r := FindMax(data);
    }

    method GetMin() returns (r: real)
      requires Valid()
      ensures IsMin(Window(history), r)
    {
      var data := ReadData();
      StatsUnordered(data, Window(history));
      r := FindMin(data);
    }

    method GetStDev() returns (r: real)
      requires Valid()
      ensures r == Variance(Window(history))
    {
      var data := ReadData();
      StatsUnordered(data, Window(history));
      r := CalculateStDev(data);
    }

    method GetLoss() returns (r: real)
      requires Valid()
      ensures r == Loss(Window(history))
    {
      var data := ReadData();
      StatsUnordered(data, Window(history));
      r := CalculateLoss(data);
    }

    method GetLatestDelay() returns (r: real)
      requires Valid()
      ensures r == if history == [] then INVALID else history[|history| - 1]
    {
      if delayIndex <= 0 { return INVALID; }
      r := delayList[(delayIndex - 1) % SIZE];
    }
  }
}
