/** Which process the short-term scheduler picks: the shortest estimate first, without preemption. */
module ShortTerm {
  /** Estimates are numbers in the source's `float`; here they are exact. */
  const LARGEST: real := 9999999.0

  /** `(int) x` */
  function Truncated(x: real): int {
    if x >= 0.0 then x.Floor else -(-x).Floor
  }

  /**
    `calcularEstimacion`: the cast binds to `alfa` alone, so the weight of the last burst is cut to a
    whole number.
   */
  function Estimate(alfa: real, burst: real, previous: real): real {
    Truncated(alfa) as real * burst + (1.0 - alfa) * previous
  }

  /** The exponential average the formula is meant to be. */
  function Average(alfa: real, burst: real, previous: real): real {
    alfa * burst + (1.0 - alfa) * previous
  }

  /** The estimate is the average for all bursts exactly when `alfa` is a whole number: in [0, 1], only at its ends. */
  lemma EstimateIsTheAverage(alfa: real)
    ensures (forall burst, previous :: Estimate(alfa, burst, previous) == Average(alfa, burst, previous)) <==>
        alfa == Truncated(alfa) as real
    ensures 0.0 <= alfa <= 1.0 ==> (alfa == Truncated(alfa) as real <==> alfa == 0.0 || alfa == 1.0)
    ensures 0.0 <= alfa < 1.0 ==> forall burst, previous :: Estimate(alfa, burst, previous) == (1.0 - alfa) * previous
  {
    if 0.0 <= alfa < 1.0 {
      assert Truncated(alfa) == 0;
      forall burst: real, previous: real
        ensures Estimate(alfa, burst, previous) == (1.0 - alfa) * previous
      {
        assert 0.0 * burst == 0.0;
      }
    }
    if alfa == Truncated(alfa) as real {
      forall burst: real, previous: real
        ensures Estimate(alfa, burst, previous) == Average(alfa, burst, previous)
      {
        assert Truncated(alfa) as real * burst == alfa * burst;
      }
    } else {
      assert Estimate(alfa, 1.0, 0.0) == Truncated(alfa) as real;
      assert Average(alfa, 1.0, 0.0) == alfa;
    }
  }

  datatype Pcb = Pcb(pid: nat, previous: real, burst: real, next: real)

  /**
    The entry as the choice leaves it: a process whose last burst is still 0 has got a new estimate, the share of its
    previous one; every other entry is as it was.
   */
  predicate Refreshed(alfa: real, before: Pcb, after: Pcb) {
    && after.pid == before.pid && after.previous == before.previous && after.burst == before.burst
    && after.next == if before.burst == 0.0 then (1.0 - alfa) * before.previous else before.next
  }

  /** The first entry of the least estimate; the first entry of all when no estimate is below the bound. */
  ghost predicate IsShortest(ready: seq<Pcb>, i: nat) {
    && i < |ready|
    && (if exists k :: 0 <= k < |ready| && ready[k].next < LARGEST
        then (forall k :: 0 <= k < |ready| ==> ready[i].next <= ready[k].next)
             && (forall k :: 0 <= k < i ==> ready[i].next < ready[k].next)
        else i == 0)
  }

  class Ready {
    const alfa: real
    var list: seq<Pcb>

    constructor (alfa: real)
      ensures this.alfa == alfa && list == []
    {
      this.alfa, list := alfa, [];
    }

    /**
      `elDeMenorSJF`: every entry is looked at, the first of the least estimates is taken out, and the processes left
      behind keep their order.
     */
    method TakeShortest() returns (chosen: Pcb, ghost at: nat, ghost seen: seq<Pcb>)
      requires |list| > 0
      modifies this
      ensures |seen| == |old(list)| && forall k :: 0 <= k < |seen| ==> Refreshed(alfa, old(list)[k], seen[k])
      ensures IsShortest(seen, at) && chosen == seen[at] && list == seen[..at] + seen[at + 1..]
    {
      var least, index, i := LARGEST, 0, 0;
      while i < |list|
        invariant i <= |list| == |old(list)| && index < |list|
        invariant forall k :: 0 <= k < i ==> Refreshed(alfa, old(list)[k], list[k])
        invariant forall k :: i <= k < |list| ==> list[k] == old(list)[k]
        invariant least <= LARGEST && forall k :: 0 <= k < i ==> least <= list[k].next
        invariant if least < LARGEST then index < i && list[index].next == least else index == 0
        invariant least < LARGEST ==> forall k :: 0 <= k < index ==> least < list[k].next
      {
        var p := list[i];
        if p.burst == 0.0 {
          list := list[i := p.(next := Estimate(alfa, p.burst, p.previous))];
        }
        if list[i].next < least {
          least, index := list[i].next, i;
        }
        i := i + 1;
      }
      chosen, at, seen := list[index], index, list;
      list := list[..index] + list[index + 1..];
    }
  }
}
