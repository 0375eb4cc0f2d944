/** A circular buffer of packets with two indices and a separate flag. */
module Rings {
  import opened Packets

  datatype Flag = Empty | Normal | Full

  datatype Ring = Ring(slots: seq<Packet>, putIndex: nat, takeIndex: nat, flag: Flag) {

    /** Equal indices say nothing by themselves: the flag tells an empty ring from a full one. */
    ghost predicate Valid() {
      putIndex < |slots| && takeIndex < |slots| && (flag == Normal <==> putIndex != takeIndex)
    }

    ghost function Count(): nat
      requires Valid()
    {
      match flag
      case Empty => 0
      case Full => |slots|
      case Normal => if takeIndex < putIndex then putIndex - takeIndex else |slots| + putIndex - takeIndex
    }

    /** The slot of the k-th oldest packet. */
    ghost function Slot(k: nat): (i: nat)
      requires Valid() && k < |slots|
      ensures i < |slots|
    {
      if takeIndex + k < |slots| then takeIndex + k else takeIndex + k - |slots|
    }

    /** The packets in flight, oldest first. */
    ghost function Contents(): (c: seq<Packet>)
      requires Valid()
      ensures |c| == Count() <= |slots|
    {
      seq(Count(), k requires 0 <= k < Count() => slots[Slot(k)])
    }
  }

  function NewRing(size: nat): (r: Ring)
    requires size > 0
    ensures r.Valid() && r.Contents() == []
  {
    Ring(seq(size, _ => Packet(" ", " ", 0.0, 0.0, "none")), 0, 0, Empty)
  }

  /** The index after i in a ring of n slots. */
  function Next(i: nat, n: nat): (r: nat)
    requires i < n
  {
    if i + 1 == n then 0 else i + 1
  }

  lemma NextIsRemainder(i: nat, n: nat)
    requires i < n
    ensures Next(i, n) == (i + 1) % n
  {
  }

  /** Copy a packet to the put index and advance it. Whether there is room is the caller's business. */
  function Put(r: Ring, p: Packet, message: string): Ring
    requires r.putIndex < |r.slots|
  {
    var next := Next(r.putIndex, |r.slots|);
    r.(slots := r.slots[r.putIndex := Copied(p, message)],
       putIndex := next,
       flag := if next == r.takeIndex then Full else Normal)
  }

  /** What a copy of the packet at the take index says. */
  function Taken(r: Ring, message: string): Packet
    requires r.takeIndex < |r.slots|
  {
    Copied(r.slots[r.takeIndex], message)
  }

  /** Advance the take index. */
  function Take(r: Ring): Ring
    requires r.takeIndex < |r.slots|
  {
    var next := Next(r.takeIndex, |r.slots|);
    r.(takeIndex := next, flag := if next == r.putIndex then Empty else Normal)
  }

  /** The flag is exact. */
  lemma FlagIsExact(r: Ring)
    requires r.Valid()
    ensures r.flag == Empty <==> r.Contents() == []
    ensures r.flag == Full <==> |r.Contents()| == |r.slots|
  {
  }

  /** Putting adds behind the packets in flight, and disturbs none of them, exactly when the ring is not full. */
  lemma PutAppendsExactlyWhenNotFull(r: Ring, p: Packet, message: string)
    requires r.Valid()
    ensures Put(r, p, message).Valid()
    ensures var stored := Copied(p, message);
      Put(r, p, message).Contents() == r.Contents() + [stored] <==> r.flag != Full
  {
    var t := Put(r, p, message);
    if r.flag != Full {
      assert t.Count() == r.Count() + 1;
      assert r.Slot(r.Count()) == r.putIndex;
    } else {
      assert |t.Contents()| <= |r.slots|;
    }
  }

  /** Taking copies and removes the oldest packet exactly when there is one. */
  lemma TakeRemovesExactlyWhenNotEmpty(r: Ring, message: string)
    requires r.Valid()
    ensures Take(r).Valid()
    ensures (r.Contents() != [] && Take(r).Contents() == r.Contents()[1..] &&
             Taken(r, message) == Copied(r.Contents()[0], message)) <==> r.flag != Empty
  {
    if r.flag != Empty {
      assert Take(r).Count() == r.Count() - 1;
      assert r.Slot(0) == r.takeIndex;
    }
  }
}
