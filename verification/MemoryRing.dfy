/** The memory-only fallback of the event store: a 512-slot ring used when the database cannot be
    opened. It refines a bounded queue that drops its oldest event when full. */
module MemoryRing {
  import opened EventLog

  const MEMORY_CAP: nat := 512

  function Slot(head: nat, i: nat): (s: nat)
    ensures s < MEMORY_CAP
  {
    (head + i) % MEMORY_CAP
  }

  lemma SlotShift(head: nat, i: nat)
    requires head < MEMORY_CAP
    ensures Slot((head + 1) % MEMORY_CAP, i) == Slot(head, i + 1)
    ensures Slot(head, 0) == head
  {
    if head + 1 == MEMORY_CAP {
      Wraps(i);
    }
  }

  /** A whole turn leads back to the same slot. */
  lemma Wraps(i: nat)
    ensures (MEMORY_CAP + i) % MEMORY_CAP == i % MEMORY_CAP
  {
  }

  /** Distinct queue positions use distinct slots. */
  lemma SlotInjective(head: nat, i: nat, j: nat)
    requires i < MEMORY_CAP && j < MEMORY_CAP && Slot(head, i) == Slot(head, j)
    ensures i == j
  {
  }

  class Ring {
    const mem: array<Stored>
    var head: nat
    var count: nat
    var nextSeq: int

    ghost var queue: seq<Stored>

    ghost predicate Valid()
      reads this, mem
    {
      && mem.Length == MEMORY_CAP
      && head < MEMORY_CAP
      && |queue| == count <= MEMORY_CAP
      && (forall i | 0 <= i < count :: mem[Slot(head, i)] == queue[i])
      && (forall i | 0 <= i < count :: queue[i].seqNo == nextSeq - count + i)
    }

    constructor ()
      ensures Valid() && queue == [] && nextSeq == 1 && fresh(mem)
    {
      mem := new Stored[MEMORY_CAP](_ => Stored(0, Event(0, 0, 0, 0, 0, 0, 0, [])));
      head, count, nextSeq := 0, 0, 1;
      queue := [];
    }

    method DropOldest()
      requires Valid() && count > 0
      modifies this`head, this`count, this`queue
      ensures Valid() && queue == old(queue)[1..]
    {
      var next := (head + 1) % MEMORY_CAP;
      forall i: nat ensures Slot(next, i) == Slot(head, i + 1) { SlotShift(head, i); }
      head := next;
      count := count - 1;
      queue := queue[1..];
    }

    method Push(e: Event)
      requires Valid()
      modifies this, mem
      ensures Valid() && nextSeq == old(nextSeq) + 1
      ensures queue == (if old(count) == 512 then old(queue)[1..] else old(queue)) + [Stored(old(nextSeq), e)]
    {
      if count == MEMORY_CAP { DropOldest(); }
      var idx := (head + count) % MEMORY_CAP;
      forall i | 0 <= i < count ensures Slot(head, i) != idx {
        if Slot(head, i) == Slot(head, count) { SlotInjective(head, i, count); }
      }
      mem[idx] := Stored(nextSeq, e);
      nextSeq := nextSeq + 1;
      count := count + 1;
      queue := queue + [mem[idx]];
    }

    method Fetch(max: int) returns (r: seq<Stored>, ok: bool)
      requires Valid()
      ensures ok <==> max > 0
      ensures r == if max <= 0 then [] else if count < max then queue else queue[..max]
    {
      if max <= 0 { return [], false; }
      var n := if count < max then count else max;
      r, ok := [], true;
      for i := 0 to n
        invariant r == queue[..i]
      {
        r := r + [mem[Slot(head, i)]];
      }
    }

    /** Drops from the front exactly the events numbered up to `upto`. */
    method Ack(upto: int) returns (ok: bool)
      requires Valid()
      modifies this`head, this`count, this`queue
      ensures Valid() && (ok <==> upto > 0)
      ensures count <= old(count) && queue == old(queue)[old(count) - count..]
      ensures ok ==> forall i | 0 <= i < old(count) :: old(queue)[i].seqNo <= upto <==> i < old(count) - count
      ensures !ok ==> queue == old(queue)
    {
      if upto <= 0 { return false; }
      while count > 0 && mem[head].seqNo <= upto
        invariant Valid()
        invariant count <= old(count) && queue == old(queue)[old(count) - count..]
        invariant forall i | 0 <= i < old(count) - count :: old(queue)[i].seqNo <= upto
        decreases count
      {
        SlotShift(head, 0);
        assert queue[0] == old(queue)[old(count) - count];
        DropOldest();
      }
      SlotShift(head, 0);
      ok := true;
    }

    method MarkAllSent()
      requires Valid()
      modifies this`head, this`count, this`queue
      ensures Valid() && queue == []
    {
      head, count, queue := 0, 0, [];
    }
  }
}
