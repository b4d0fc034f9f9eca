/**
 The read buffer of a connection: a fixed array that the network fills and the
 decoder empties, in place, as a queue of octets.
 */
module RingBuffer {
  datatype Region = Region(from: nat, size: nat)

  const SIZE_MAX: nat := 0xFFFF_FFFF_FFFF_FFFF

  /** The positions: `bound` tells a full buffer from an empty one. */
  predicate Placed(n: nat, bound: bool, rd: nat, wr: nat) { wr < n && rd < n && if bound then wr <= rd else rd <= wr }

  /** Position `i` holds an unread octet. */
  predicate Holds(bound: bool, rd: nat, wr: nat, i: nat) { if bound then rd <= i || i < wr else rd <= i < wr }

  /** The unread octets, in order. */
  function Queue(m: seq<char>, bound: bool, rd: nat, wr: nat): seq<char>
    requires Placed(|m|, bound, rd, wr)
  {
    if bound then m[rd..] + m[..wr] else m[rd..wr]
  }

  /** Only unread octets matter. */
  lemma QueueFrame(m: seq<char>, k: seq<char>, bound: bool, rd: nat, wr: nat)
    requires |m| == |k| && Placed(|m|, bound, rd, wr)
    requires forall i :: 0 <= i < |m| && Holds(bound, rd, wr, i) ==> m[i] == k[i]
    ensures Queue(m, bound, rd, wr) == Queue(k, bound, rd, wr)
  {
    if bound { assert m[rd..] == k[rd..] && m[..wr] == k[..wr]; } else { assert m[rd..wr] == k[rd..wr]; }
  }

  /** Octets at the write position are added at the end, also when that wraps the position. */
  lemma QueueGrows(m: seq<char>, bound: bool, rd: nat, wr: nat, n: nat)
    requires Placed(|m|, bound, rd, wr) && n <= (if bound then rd - wr else |m| - wr)
    ensures
      var b, w := if wr + n == |m| then true else bound, if wr + n == |m| then 0 else wr + n;
      Placed(|m|, b, rd, w) && Queue(m, b, rd, w) == Queue(m, bound, rd, wr) + m[wr..wr + n]
  {
    if bound {
      assert m[..wr + n] == m[..wr] + m[wr..wr + n];
      assert m[rd..] + (m[..wr] + m[wr..wr + n]) == m[rd..] + m[..wr] + m[wr..wr + n];
    } else {
      assert m[rd..wr + n] == m[rd..wr] + m[wr..wr + n];
      assert wr + n == |m| ==> m[rd..] + m[..0] == m[rd..wr + n];
    }
  }

  /** Octets up to `ptr` are taken from the front, also when that wraps the position. */
  lemma QueueShrinks(m: seq<char>, bound: bool, rd: nat, wr: nat, ptr: nat)
    requires Placed(|m|, bound, rd, wr) && rd <= ptr <= (if bound then |m| else wr)
    ensures
      var b, r := if ptr == |m| then false else bound, if ptr == |m| then 0 else ptr;
      var q := Queue(m, bound, rd, wr);
      Placed(|m|, b, r, wr) && ptr - rd <= |q| && Queue(m, b, r, wr) == q[ptr - rd..] && q[..ptr - rd] == m[rd..ptr]
  {
    var q := Queue(m, bound, rd, wr);
    if bound {
      assert q[..ptr - rd] == m[rd..ptr];
      assert q[ptr - rd..] == m[ptr..] + m[..wr];
      assert ptr == |m| ==> m[ptr..] + m[..wr] == m[0..wr];
    } else {
      assert q[..ptr - rd] == m[rd..ptr] && q[ptr - rd..] == m[ptr..wr];
    }
  }

  /** The contiguous room at the write position, once an empty buffer is realigned. */
  function Room(n: nat, bound: bool, rd: nat, wr: nat): nat
    requires Placed(n, bound, rd, wr)
  {
    if bound then rd - wr else n - wr
  }

  /** None of it is unread, and there is none only when every octet is. */
  lemma RoomIsFree(m: seq<char>, bound: bool, rd: nat, wr: nat)
    requires Placed(|m|, bound, rd, wr)
    ensures forall i :: wr <= i < wr + Room(|m|, bound, rd, wr) ==> !Holds(bound, rd, wr, i)
    ensures Room(|m|, bound, rd, wr) == 0 <==> |Queue(m, bound, rd, wr)| == |m|
  {
  }

  /** `reusable_buffer`; pointers are positions in `mem`. */
  class ReusableBuffer {
    const mem: array<char>
    var bound: bool
    var wr: nat
    var rd: nat
    /** Everything that was ever put in and taken out, and what lies between. */
    ghost var produced: seq<char>
    ghost var consumed: seq<char>
    /** The region handed out last, unless the buffer has been read since. */
    ghost var reserved: Region

    /** The octets still unread, in order. */
    ghost function Contents(): seq<char>
      requires Placed(mem.Length, bound, rd, wr)
      reads this, mem
    {
      Queue(mem[..], bound, rd, wr)
    }

    ghost predicate Valid()
      reads this, mem
    {
      && Placed(mem.Length, bound, rd, wr) && produced == consumed + Contents()
      && reserved.from + reserved.size <= mem.Length
      && (reserved.size > 0 ==>
            && reserved.from == wr && (!bound && rd == wr ==> wr == 0)
            && reserved.size == Room(mem.Length, bound, rd, wr))
    }

    constructor (n: nat)
      requires n > 0
      ensures Valid() && produced == consumed == [] && mem.Length == n && fresh(mem)
      ensures !bound && rd == wr == 0
    {
      mem := new char[n](_ => 0 as char);
      bound, wr, rd := false, 0, 0;
      produced, consumed, reserved := [], [], Region(0, 0);
    }

    /** `avail_mem` */
    method AvailMem() returns (n: nat)
      requires Valid()
      modifies this`wr, this`rd
      ensures Valid() && Contents() == old(Contents()) && n == Room(mem.Length, bound, rd, wr)
      ensures if old(!bound && rd == wr) then wr == rd == 0 else wr == old(wr) && rd == old(rd)
    {
      if wr < rd { return rd - wr; }
      if wr > rd { return mem.Length - wr; }
      if bound { return 0; }
      rd := 0;
      wr := 0;
      return mem.Length;
    }

    /** An empty buffer whose positions have moved: measuring the room moves them back to the start. */
    predicate Realigns()
      reads this
    {
      !bound && rd == wr && wr != 0
    }

    /**
     `reserve`, when the room is measured before the write pointer is read: none of the
     reserved octets is unread, and there are some unless the buffer is full.  C++ does
     not fix the order of the two.
     */
    method Reserve() returns (r: Region)
      requires Valid()
      modifies this`wr, this`rd, this`reserved
      ensures Valid() && Contents() == old(Contents()) && r == reserved && r.from == wr
      ensures r.from + r.size <= mem.Length && forall i :: r.from <= i < r.from + r.size ==> !Holds(bound, rd, wr, i)
      ensures r.size == 0 <==> |Contents()| == mem.Length
      ensures if old(!bound && rd == wr) then wr == rd == 0 && r.size == mem.Length else wr == old(wr) && rd == old(rd)
    {
      var n := AvailMem();
      r := Region(wr, n);
      reserved := r;
      RoomIsFree(mem[..], bound, rd, wr);
    }

    /**
     `reserve`, when the write pointer is read first: the same region, unless measuring
     the room moves the pointer, and exactly then the region ends behind the array.
     */
    method ReservePointerFirst() returns (r: Region)
      requires Valid()
      modifies this`wr, this`rd, this`reserved
      ensures Valid() && Contents() == old(Contents()) && r.from == old(wr)
      ensures r.from + r.size <= mem.Length <==> !old(Realigns())
      ensures !old(Realigns()) ==>
        r == reserved && r.from == wr && forall i :: r.from <= i < r.from + r.size ==> !Holds(bound, rd, wr, i)
      ensures old(Realigns()) ==> r.size == mem.Length
    {
      var pointer := wr;
      var n := AvailMem();
      r := Region(pointer, n);
      reserved := if r.from + r.size <= mem.Length then r else Region(0, 0);
      RoomIsFree(mem[..], bound, rd, wr);
    }

    /** The network stores some octets in the reserved region. */
    method Receive(data: seq<char>)
      requires Valid() && |data| <= reserved.size
      modifies mem
      ensures Valid() && Contents() == old(Contents())
      ensures mem[reserved.from..reserved.from + |data|] == data
    {
      RoomIsFree(mem[..], bound, rd, wr);
      var i := 0;
      while i < |data|
        invariant i <= |data| && forall k :: 0 <= k < i ==> mem[reserved.from + k] == data[k]
        invariant forall k :: 0 <= k < mem.Length && !(reserved.from <= k < reserved.from + i) ==> mem[k] == old(mem[k])
      {
        mem[wr + i] := data[i];
        i := i + 1;
      }
      QueueFrame(mem[..], old(mem[..]), bound, rd, wr);
    }

    /** The write position moves on, back to the start when it reaches the end. */
    method Advance(len: nat)
      requires Valid() && len <= Room(mem.Length, bound, rd, wr)
      modifies this`wr, this`bound, this`produced, this`reserved
      ensures Valid() && produced == old(produced) + mem[old(wr)..old(wr) + len]
      ensures if old(wr) + len == mem.Length then bound && wr == 0 else bound == old(bound) && wr == old(wr) + len
    {
      ghost var before, more := Contents(), mem[wr..wr + len];
      QueueGrows(mem[..], bound, rd, wr, len);
      assert mem[..][wr..wr + len] == more;
      wr := wr + len;
      if wr == mem.Length {
        bound := true;
        wr := 0;
      }
      assert consumed + before + more == consumed + (before + more);
      produced := produced + more;
      reserved := Region(0, 0);
    }

    /** `produce`: the octets at the write position become unread; none if they do not fit. */
    method Produce(len: nat) returns (ok: bool, ptr: nat)
      requires Valid()
      modifies this`wr, this`rd, this`bound, this`produced, this`reserved
      ensures Valid()
      ensures len <= old(reserved.size) ==> ok && (len > 0 ==> ptr == old(reserved.from))
      ensures ok ==> ptr + len <= mem.Length && produced == old(produced) + mem[ptr..ptr + len]
      ensures !ok ==> produced == old(produced)
      ensures rd == (if old(!bound && rd == wr) then 0 else old(rd))
      ensures ok && ptr + len == mem.Length ==> bound && wr == 0
      ensures ok && ptr + len < mem.Length ==> bound == old(bound) && wr == ptr + len
    {
      var max := AvailMem();
      ok, ptr := len <= max, wr;
      if ok { Advance(len); }
    }

    /** The end of the contiguous run of unread octets that starts at the read position. */
    function UpperBound(): nat
      reads this
    {
      if bound then mem.Length else wr
    }

    /** The read position moves on, back to the start when it reaches the end. */
    method Release(ptr: nat)
      requires Valid() && rd <= ptr <= UpperBound() && 0 < ptr
      modifies this`rd, this`bound, this`consumed, this`reserved
      ensures Valid() && ptr - old(rd) <= |old(Contents())|
      ensures consumed == old(consumed) + old(Contents())[..ptr - old(rd)]
        && Contents() == old(Contents())[ptr - old(rd)..]
      ensures ptr < mem.Length ==> rd == ptr && bound == old(bound)
    {
      ghost var before, bytes := Contents(), ptr - rd;
      QueueShrinks(mem[..], bound, rd, wr, ptr);
      rd := ptr;
      if rd == mem.Length {
        bound := false;
        rd := 0;
      }
      assert consumed + before == consumed + before[..bytes] + before[bytes..];
      consumed := consumed + before[..bytes];
      reserved := Region(0, 0);
    }

    /** A pointer in front of the read position, which `consume` takes all the same. */
    predicate IsBehind(ptr: nat)
      reads this
    {
      0 < ptr < rd && ptr <= UpperBound()
    }

    /**
     `consume`: the octets up to `ptr` have been read.  A pointer outside the unread run
     is refused, except one in front of the read position: then octets that were read
     are unread again, and the count wraps around.
     */
    method Consume(ptr: nat) returns (bytes: nat)
      requires Valid()
      modifies this`rd, this`bound, this`consumed, this`reserved
      ensures !old(IsBehind(ptr)) ==>
        && Valid() && produced == old(produced)
        && bytes == (if old(rd) <= ptr <= old(UpperBound()) then ptr - old(rd) else 0)
        && bytes <= |old(Contents())| && consumed == old(consumed) + old(Contents())[..bytes]
        && Contents() == old(Contents())[bytes..]
      ensures old(rd) <= ptr <= old(UpperBound()) && 0 < ptr < mem.Length ==> rd == ptr && bound == old(bound)
      ensures old(IsBehind(ptr))
        ==> rd == ptr && wr == old(wr) && bytes == SIZE_MAX + 1 - (old(rd) - ptr) % (SIZE_MAX + 1)
    {
      bytes := 0;
      ghost var before := Contents();
      assert before == before[0..];
      var upperBound := if bound then mem.Length else wr;
      if 0 < ptr <= upperBound {
        if ptr < rd {
          // the subtraction of the source is unsigned
          bytes := SIZE_MAX + 1 - (rd - ptr) % (SIZE_MAX + 1);
          rd := ptr;
          return;
        }
        bytes := ptr - rd;
        Release(ptr);
      } else {
        reserved := Region(0, 0);
        assert consumed + before[..0] == consumed;
      }
    }
  }

  /** An octet in, the octet out, and the next region of a buffer of two octets ends behind it. */
  method PastTheEnd() returns (b: ReusableBuffer, r: Region)
    ensures b.mem.Length == 2 && r == Region(1, 2)
  {
    b := new ReusableBuffer(2);
    var first := b.Reserve();
    b.Receive(['x']);
    var ok, ptr := b.Produce(1);
    var bytes := b.Consume(1);
    r := b.ReservePointerFirst();
  }
}
