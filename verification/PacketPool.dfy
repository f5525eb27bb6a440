/**
 * The ring buffer (source/kernel/buf.h) and the packet pools of a network device built on it
 * (source/kernel/dev/netdev.h).
 */
module PacketPool {
  import opened Lists

  /** The slot after `i` in a ring of `n` slots. */
  function Next(i: nat, n: nat): (r: nat)
    requires i < n
    ensures r == if i + 1 < n then i + 1 else 0
  {
    (i + 1) % n
  }

  class RingBuffer<T(0)> {
    const size: nat                 // the capacity
    const buffer: array<T>          // one slot more than the capacity
    var head: nat
    var tail: nat

    ghost predicate Valid()
      reads this
    {
      size > 0 && buffer.Length == size + 1 && head <= size && tail <= size
    }

    /** The elements held, oldest first. */
    ghost function Contents(): seq<T>
      requires Valid()
      reads this, buffer
    {
      if head <= tail then buffer[head..tail] else buffer[head..] + buffer[..tail]
    }

    constructor (size: nat)
      requires size > 0
      ensures Valid() && this.size == size && Contents() == [] && fresh(buffer)
    {
      this.size := size;
      buffer := new T[size + 1];
      head, tail := 0, 0;
    }

    method Push(data: T) returns (ok: bool)
      requires Valid()
      modifies this`tail, buffer
      ensures Valid() && ok == (|old(Contents())| < size)
      ensures Contents() == if ok then old(Contents()) + [data] else old(Contents())
    {
      var ntail := Next(tail, size + 1);
      if ntail != head {
        buffer[tail] := data;
        tail := ntail;
        return true;
      } else {
        return false;
      }
    }

    /** `before` is what the caller's variable held. */
    method Pop(before: T) returns (ok: bool, data: T)
      requires Valid()
      modifies this`head
      ensures Valid() && ok == (old(Contents()) != [])
      ensures ok ==> data == old(Contents())[0] && Contents() == old(Contents())[1..]
      ensures !ok ==> data == before && Contents() == old(Contents())
    {
      ok, data := head != tail, before;
      if ok {
        data := buffer[head];
        head := Next(head, size + 1);
      }
    }

    method IsFull() returns (full: bool)
      requires Valid()
      ensures full == (|Contents()| == size)
    {
      var ntail := Next(tail, size + 1);
      return ntail == head;
    }

    method IsEmpty() returns (empty: bool)
      requires Valid()
      ensures empty == (Contents() == [])
    {
      return tail == head;
    }
  }

  // ---------------------------------------------------------------------------------------------
  // The packets of one direction
  // ---------------------------------------------------------------------------------------------

  const PACKETS: nat := 300
  const MCLBYTES: nat := 2048

  class Packet {
    var len: nat

    constructor () {
    }
  }

  ghost function Elements<T>(s: seq<T>): set<T> {
    set x | x in s
  }

  lemma {:induction false} ElementsCount<T>(s: seq<T>)
    requires Distinct(s)
    ensures |Elements(s)| == |s|
    decreases |s|
  {
    if s != [] {
      var r := s[..|s| - 1];
      ElementsCount(r);
      assert s == r + [s[|s| - 1]];
      assert Elements(s) == Elements(r) + {s[|s| - 1]};
    }
  }

  /** Every packet is in exactly one place: one ring, the other, or with somebody who took it. */
  ghost predicate Partition(reserved: seq<Packet?>, buffered: seq<Packet?>, held: set<Packet?>, all: set<Packet?>) {
    && Distinct(reserved + buffered) && Elements(reserved + buffered) !! held
    && Elements(reserved + buffered) + held == all && |all| == PACKETS && null !in all
  }

  /** Whoever holds a packet finds room for it in either ring. */
  lemma RoomForHeld(reserved: seq<Packet?>, buffered: seq<Packet?>, held: set<Packet?>, all: set<Packet?>)
    requires Partition(reserved, buffered, held, all)
    ensures |reserved| + |buffered| + |held| == PACKETS
    ensures held != {} ==> |reserved| < PACKETS && |buffered| < PACKETS
  {
    ElementsCount(reserved + buffered);
    assert |Elements(reserved + buffered) + held| == |Elements(reserved + buffered)| + |held|;
    assert held != {} ==> |held| > 0;
  }

  /** The first packet of a ring goes to a holder. */
  lemma TakeFirst(reserved: seq<Packet?>, buffered: seq<Packet?>, held: set<Packet?>, all: set<Packet?>)
    requires Partition(reserved, buffered, held, all) && reserved != []
    ensures Partition(reserved[1..], buffered, held + {reserved[0]}, all)
    ensures reserved[0] in all && reserved[0] !in held && reserved[0] != null
  {
    var s := reserved + buffered;
    assert reserved[1..] + buffered == s[1..] && s == [s[0]] + s[1..];
    assert s[0] !in s[1..];
    assert Elements(s) == Elements(s[1..]) + {s[0]};
  }

  /** A held packet goes to the end of a ring. */
  lemma PutLast(reserved: seq<Packet?>, buffered: seq<Packet?>, held: set<Packet?>, all: set<Packet?>, p: Packet?)
    requires Partition(reserved, buffered, held, all) && p in held
    ensures Partition(reserved + [p], buffered, held - {p}, all)
  {
    var s, t := reserved + buffered, reserved + [p] + buffered;
    assert p !in Elements(s);
    assert Elements(t) == Elements(s) + {p};
    forall i, j | 0 <= i < j < |t| ensures t[i] != t[j] {
      var n := |reserved|;
      assert i != n ==> t[i] == s[if i < n then i else i - 1];
      assert j != n ==> t[j] == s[if j < n then j else j - 1];
    }
  }

  /** The two rings play the same part. */
  lemma Symmetric(reserved: seq<Packet?>, buffered: seq<Packet?>, held: set<Packet?>, all: set<Packet?>)
    requires Partition(reserved, buffered, held, all)
    ensures Partition(buffered, reserved, held, all)
  {
    var s, t, n := reserved + buffered, buffered + reserved, |buffered|;
    assert forall x :: x in s <==> x in t;
    forall i, j | 0 <= i < j < |t| ensures t[i] != t[j] {
      assert t[i] == s[if i < n then i + |reserved| else i - n] && t[j] == s[if j < n then j + |reserved| else j - n];
    }
  }

  lemma FetchFirst(reserved: seq<Packet?>, buffered: seq<Packet?>, held: set<Packet?>, all: set<Packet?>)
    requires Partition(reserved, buffered, held, all) && buffered != []
    ensures Partition(reserved, buffered[1..], held + {buffered[0]}, all) && buffered[0] !in held
  {
    hide Partition;
    Symmetric(reserved, buffered, held, all);
    TakeFirst(buffered, reserved, held, all);
    Symmetric(buffered[1..], reserved, held + {buffered[0]}, all);
  }

  lemma PutBehind(reserved: seq<Packet?>, buffered: seq<Packet?>, held: set<Packet?>, all: set<Packet?>, p: Packet?)
    requires Partition(reserved, buffered, held, all) && p in held
    ensures Partition(reserved, buffered + [p], held - {p}, all)
  {
    hide Partition;
    Symmetric(reserved, buffered, held, all);
    PutLast(buffered, reserved, held, all, p);
    Symmetric(buffered + [p], reserved, held - {p}, all);
  }

  lemma AppendFresh(s: seq<Packet?>, p: Packet?)
    requires s != [] ==> Distinct(s) && p !in s
    ensures Distinct(s) && Distinct(s + [p])
  {
  }

  lemma Filled(s: seq<Packet?>)
    requires Distinct(s) && |s| == PACKETS && null !in s
    ensures Partition(s, [], {}, Elements(s)) && forall p :: p in Elements(s) <==> p in s
  {
    ElementsCount(s);
    assert s + [] == s;
  }

  /**
   * One direction of a device. `held` are the packets that a protocol stack or a driver has taken from one
   * ring and not yet put into another.
   */
  class Pool {
    const reserved: RingBuffer<Packet?>
    const buffered: RingBuffer<Packet?>
    ghost var held: set<Packet?>
    ghost var all: set<Packet?>

    ghost predicate RingsValid()
      reads this, reserved, buffered
    {
      && reserved.Valid() && buffered.Valid() && reserved != buffered && reserved.buffer != buffered.buffer
      && reserved.size == PACKETS && buffered.size == PACKETS
    }

    ghost predicate Valid()
      reads this, reserved, buffered, reserved.buffer, buffered.buffer
    {
      RingsValid() && Partition(reserved.Contents(), buffered.Contents(), held, all)
    }

    /** The rings are created empty and the reserved one is then filled with new packets. */
    constructor ()
      ensures Valid() && held == {} && |reserved.Contents()| == 300 && buffered.Contents() == []
      ensures forall p :: p in all ==> fresh(p)
    {
      reserved := new RingBuffer<Packet?>(PACKETS);
      buffered := new RingBuffer<Packet?>(PACKETS);
      held := {};
      all := {};
      new;
      Init();
    }

    /** The filling loop: no push fails. */
    method Fill() returns (ghost s: seq<Packet?>)
      requires RingsValid() && reserved.Contents() == []
      modifies reserved, reserved.buffer
      ensures RingsValid() && reserved.Contents() == s && |s| == PACKETS && Distinct(s)
      ensures forall p :: p in s ==> p != null && fresh(p)
    {
      hide Distinct;
      var full := reserved.IsFull();
      s := [];
      AppendFresh([], null);
      while !full
        invariant RingsValid() && reserved.Contents() == s && full == (|s| == PACKETS) && |s| <= PACKETS
        invariant Distinct(s) && forall p :: p in s ==> p != null && fresh(p)
        decreases PACKETS - |s|
      {
        var packet := new Packet();
        var ok := reserved.Push(packet);
        assert ok;
        AppendFresh(s, packet);
        s := s + [packet];
        full := reserved.IsFull();
      }
    }

    /** `InitTxPacketBuffer` and `InitRxPacketBuffer`. */
    method Init()
      requires RingsValid() && reserved.Contents() == [] && buffered.Contents() == [] && held == {}
      modifies this, reserved, reserved.buffer
      ensures Valid() && held == {} && |reserved.Contents()| == PACKETS && buffered.Contents() == []
      ensures forall p :: p in all ==> fresh(p)
    {
      hide Elements, Partition, Distinct;
      ghost var s := Fill();
      Filled(s);
      all := Elements(s);
    }

    /** The oldest reserved packet; the driver takes its reception buffers this way. */
    method TakeReserved() returns (ok: bool, packet: Packet?)
      requires Valid()
      modifies `held, reserved
      ensures Valid() && all == old(all) && ok == (old(reserved.Contents()) != [])
      ensures ok ==> packet == old(reserved.Contents())[0] && packet != null && packet in all
      ensures ok ==> packet !in old(held) && held == old(held) + {packet}
      ensures !ok ==> held == old(held)
      ensures reserved.Contents() == if ok then old(reserved.Contents())[1..] else old(reserved.Contents())
      ensures buffered.Contents() == old(buffered.Contents())
    {
      hide Partition;
      ghost var r, b := reserved.Contents(), buffered.Contents();
      if r != [] {
        TakeFirst(r, b, held, all);
      }
      ok, packet := reserved.Pop(null);
      assert buffered.Contents() == b;
      if ok {
        held := held + {packet};
      }
    }

    /** `GetTxPacket`: a reserved packet with its length set to the whole buffer. */
    method GetTxPacket() returns (ok: bool, packet: Packet?)
      requires Valid()
      modifies `held, reserved, all
      ensures Valid() && all == old(all) && ok == (old(reserved.Contents()) != [])
      ensures ok ==> packet == old(reserved.Contents())[0] && packet != null && packet.len == 2048
      ensures ok ==> packet !in old(held) && held == old(held) + {packet}
      ensures !ok ==> held == old(held) && unchanged(all)
      ensures reserved.Contents() == if ok then old(reserved.Contents())[1..] else old(reserved.Contents())
      ensures buffered.Contents() == old(buffered.Contents())
    {
      hide Partition;
      ok, packet := TakeReserved();
      if ok {
        packet.len := MCLBYTES;
      }
    }

    /** `TransmitPacket`, and the driver's hand-over of a received packet: the push of a held packet never fails. */
    method TransmitPacket(packet: Packet) returns (ok: bool)
      requires Valid() && packet in held
      modifies `held, buffered, buffered.buffer
      ensures Valid() && ok && all == old(all) && held == old(held) - {packet}
      ensures buffered.Contents() == old(buffered.Contents()) + [packet] && reserved.Contents() == old(reserved.Contents())
    {
      hide Partition;
      ghost var r, b := reserved.Contents(), buffered.Contents();
      RoomForHeld(r, b, held, all);
      PutBehind(r, b, held, all, packet);
      ok := buffered.Push(packet);
      assert reserved.Contents() == r;
      held := held - {packet};
    }

    /** `ReceivePacket`, and the driver's fetch of a packet to send: the oldest queued packet. */
    method ReceivePacket() returns (ok: bool, packet: Packet?)
      requires Valid()
      modifies `held, buffered
      ensures Valid() && all == old(all) && ok == (old(buffered.Contents()) != [])
      ensures ok ==> packet == old(buffered.Contents())[0] && held == old(held) + {packet} && packet !in old(held)
      ensures !ok ==> held == old(held)
      ensures buffered.Contents() == if ok then old(buffered.Contents())[1..] else old(buffered.Contents())
      ensures reserved.Contents() == old(reserved.Contents())
    {
      hide Partition;
      ghost var r, b := reserved.Contents(), buffered.Contents();
      if b != [] {
        FetchFirst(r, b, held, all);
      }
      ok, packet := buffered.Pop(null);
      assert reserved.Contents() == r;
      if ok {
        held := held + {packet};
      }
    }

    /** `ReuseTxBuffer` and `ReuseRxBuffer`: the assertion on the push holds. */
    method ReuseBuffer(packet: Packet) returns (ok: bool)
      requires Valid() && packet in held
      modifies `held, reserved, reserved.buffer
      ensures Valid() && ok && all == old(all) && held == old(held) - {packet}
      ensures reserved.Contents() == old(reserved.Contents()) + [packet] && buffered.Contents() == old(buffered.Contents())
    {
      hide Partition;
      RoomForHeld(reserved.Contents(), buffered.Contents(), held, all);
      PutLast(reserved.Contents(), buffered.Contents(), held, all, packet);
      ok := reserved.Push(packet);
      held := held - {packet};
    }
  }
}
