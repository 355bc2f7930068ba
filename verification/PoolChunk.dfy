/**
The canary bytes of the pool allocator. A chunk in use carries a pattern behind its
requested bytes; a spare one carries the complement of it, and a second pattern at both
ends of its data. Every step from one to the other tests the one and sets the other.
*/
module PoolChunk {
  import opened MachineWords

  type Byte = bv8

  /** The global random word, byte by byte as it lies in memory. */
  datatype Magic = Magic(b0: Byte, b1: Byte, b2: Byte, b3: Byte)

  function Complement(m: Magic): Magic {
    Magic(!m.b0, !m.b1, !m.b2, !m.b3)
  }

  const AMPOOL_ALIGN: nat := 16
  const AMPOOL_MAX_VALIDATE_HALF: nat := 32

  /** Four addresses in a row carry the four bytes of the word; where there is data, their low halves. */
  lemma WordInMemory(m: Magic, k: nat, isData: bool)
    ensures var mask: Byte := if isData then 0x0F else 0xFF;
      && MagicByte(m, 4 * k, isData) == m.b0 & mask && MagicByte(m, 4 * k + 1, isData) == m.b1 & mask
      && MagicByte(m, 4 * k + 2, isData) == m.b2 & mask && MagicByte(m, 4 * k + 3, isData) == m.b3 & mask
  {
    assert (4 * k) % 4 == 0 && (4 * k + 1) % 4 == 1 && (4 * k + 2) % 4 == 2 && (4 * k + 3) % 4 == 3;
  }

  /** What goes with an address: one byte of the word, or the low half of it for data. */
  function MagicByte(m: Magic, address: nat, isData: bool): Byte {
    var b := match address % 4 case 0 => m.b0 case 1 => m.b1 case 2 => m.b2 case _ => m.b3;
    if isData then b & 0x0F else b
  }

  /** The byte expected at an address, and the one to leave there. */
  function MagicValues(m: Magic, address: nat, isData: bool, toAllocated: bool): (Byte, Byte) {
    var expected := MagicByte(m, address, isData);
    var desired := !expected;
    if toAllocated then (!expected, !desired) else (expected, desired)
  }

  /** What one step leaves is what the step back expects. */
  lemma StepsAlternate(m: Magic, address: nat, isData: bool, toAllocated: bool)
    ensures MagicValues(m, address, isData, toAllocated).0 == MagicValues(m, address, isData, !toAllocated).1
    ensures MagicValues(m, address, isData, toAllocated).0 != MagicValues(m, address, isData, toAllocated).1
  {
    var b := MagicByte(m, address, isData);
    assert !!b == b && !b != b;
  }

  /** A chunk: where its data lies, the size asked for, its header word, and all of its bytes. */
  datatype Chunk = Chunk(address: nat, size: Word32, magic: Magic, data: seq<Byte>)

  /** The bytes from `lo` to `hi` carry the pattern that a step in the given direction leaves. */
  ghost predicate Marked(c: Chunk, lo: nat, hi: nat, m: Magic, isData: bool, toAllocated: bool) {
    && hi <= |c.data|
    && forall i :: lo <= i < hi ==> c.data[i] == MagicValues(m, c.address + i, isData, toAllocated).1
  }

  /** How many bytes at either end of the data are looked at. */
  function Half(size: Word32): nat {
    var len := (size + 1) / 2;
    if AMPOOL_MAX_VALIDATE_HALF > len then len else AMPOOL_MAX_VALIDATE_HALF
  }

  ghost predicate InUse(c: Chunk, m: Magic, validate: bool) {
    && c.size <= |c.data| && c.magic == m
    && (validate ==> Marked(c, c.size, |c.data|, m, false, true))
  }

  ghost predicate Spare(c: Chunk, m: Magic, validate: bool) {
    && c.size <= |c.data| && c.magic == Complement(m)
    && (validate ==>
          && Marked(c, c.size, |c.data|, m, false, false)
          && Marked(c, 0, Half(c.size), m, true, false)
          && Marked(c, c.size - Half(c.size), c.size, m, true, false))
  }

  lemma OneMoreMarked(c: Chunk, lo: nat, hi: nat, m: Magic, isData: bool, toAllocated: bool)
    requires lo <= hi < |c.data|
    ensures Marked(c, lo, hi + 1, m, isData, toAllocated) <==>
      Marked(c, lo, hi, m, isData, toAllocated) && Marked(c, hi, hi + 1, m, isData, toAllocated)
  {
  }

  /** One byte of the pattern of the step before. */
  method TestByte(c: Chunk, at: nat, isData: bool, toAllocated: bool, m: Magic) returns (ok: bool)
    requires at < |c.data|
    ensures ok <==> (isData && !toAllocated) || Marked(c, at, at + 1, m, isData, !toAllocated)
  {
    StepsAlternate(m, c.address + at, isData, toAllocated);
    var (expected, _) := MagicValues(m, c.address + at, isData, toAllocated);
    ok := c.data[at] == expected || (isData && !toAllocated);
  }

  /** Looks for that pattern; data is not looked at on the way out of use. */
  method TestLen(c: Chunk, from: nat, len: nat, isData: bool, toAllocated: bool, m: Magic) returns (ok: bool)
    requires from + len <= |c.data|
    ensures ok <==> (isData && !toAllocated) || Marked(c, from, from + len, m, isData, !toAllocated)
  {
    ok := true;
    var ptr, remaining := from, len;
    while remaining > 0
      invariant from <= ptr && ptr + remaining == from + len
      invariant ok <==> (isData && !toAllocated) || Marked(c, from, ptr, m, isData, !toAllocated)
    {
      var right := TestByte(c, ptr, isData, toAllocated, m);
      OneMoreMarked(c, from, ptr, m, isData, !toAllocated);
      ok := ok && right;
      ptr := ptr + 1;
      remaining := remaining - 1;
    }
  }

  /** Leaves the pattern of this step; data is left alone on the way into use. */
  method SetLen(c: Chunk, from: nat, len: nat, isData: bool, toAllocated: bool, m: Magic) returns (c': Chunk)
    requires from + len <= |c.data|
    ensures c' == c.(data := c'.data) && |c'.data| == |c.data|
    ensures forall i :: 0 <= i < |c.data| && !(from <= i < from + len) ==> c'.data[i] == c.data[i]
    ensures if isData && toAllocated then c' == c else Marked(c', from, from + len, m, isData, toAllocated)
  {
    c' := c;
    var ptr, remaining := from, len;
    while remaining > 0
      invariant from <= ptr && ptr + remaining == from + len
      invariant c' == c.(data := c'.data) && |c'.data| == |c.data|
      invariant forall i :: 0 <= i < |c.data| && !(from <= i < ptr) ==> c'.data[i] == c.data[i]
      invariant if isData && toAllocated then c' == c else Marked(c', from, ptr, m, isData, toAllocated)
    {
      var (_, desired) := MagicValues(m, c.address + ptr, isData, toAllocated);
      if !isData || !toAllocated {
        c' := c'.(data := c'.data[ptr := desired]);
      }
      ptr := ptr + 1;
      remaining := remaining - 1;
    }
  }

  /** Whether the assertions that a step begins with hold: exactly if the chunk is as the step before left it. */
  method ChunkTest(c: Chunk, toAllocated: bool, validate: bool, m: Magic) returns (ok: bool)
    requires c.size <= |c.data|
    ensures ok <==> if toAllocated then Spare(c, m, validate) else InUse(c, m, validate)
  {
    ok := (c.magic == m || toAllocated) && (c.magic == Complement(m) || !toAllocated);
    if validate {
      var len := Half(c.size);
      var near := TestLen(c, 0, len, true, toAllocated, m);
      var far := TestLen(c, c.size - len, len, true, toAllocated, m);
      var behind := TestLen(c, c.size, |c.data| - c.size, false, toAllocated, m);
      ok := ok && near && far && behind;
    }
  }

  /** The marks that a step ends with. */
  method ChunkSet(c: Chunk, toAllocated: bool, validate: bool, m: Magic) returns (c': Chunk)
    requires c.size <= |c.data|
    ensures c'.address == c.address && c'.size == c.size && |c'.data| == |c.data|
    ensures if toAllocated then InUse(c', m, validate) else Spare(c', m, validate)
    ensures toAllocated ==> c'.data[..c.size] == c.data[..c.size]
  {
    c' := c.(magic := if toAllocated then m else Complement(m));
    if validate {
      if !toAllocated {
        c' := SetEnds(c', m);
      }
      var c1 := c';
      c' := SetOverflow(c1, toAllocated, m);
      if !toAllocated {
        MarkedStays(c1, c', 0, Half(c.size), m, true, false);
        MarkedStays(c1, c', c.size - Half(c.size), c.size, m, true, false);
      }
    }
  }

  /** Marks what lies behind the data. */
  method SetOverflow(c: Chunk, toAllocated: bool, m: Magic) returns (c': Chunk)
    requires c.size <= |c.data|
    ensures c' == c.(data := c'.data) && |c'.data| == |c.data|
    ensures Marked(c', c.size, |c.data|, m, false, toAllocated) && c'.data[..c.size] == c.data[..c.size]
  {
    c' := SetLen(c, c.size, |c.data| - c.size, false, toAllocated, m);
    assert forall i :: 0 <= i < c.size ==> c'.data[i] == c.data[i];
  }

  lemma MarkedStays(c: Chunk, c': Chunk, lo: nat, hi: nat, m: Magic, isData: bool, toAllocated: bool)
    requires c' == c.(data := c'.data) && |c'.data| == |c.data| && c.size <= |c.data|
    requires c'.data[..c.size] == c.data[..c.size] && hi <= c.size && Marked(c, lo, hi, m, isData, toAllocated)
    ensures Marked(c', lo, hi, m, isData, toAllocated)
  {
    forall i | lo <= i < hi ensures c'.data[i] == c.data[i] {
      assert c'.data[i] == c'.data[..c.size][i] && c.data[i] == c.data[..c.size][i];
    }
  }

  /** Marks both ends of the data. */
  method SetEnds(c: Chunk, m: Magic) returns (c': Chunk)
    requires c.size <= |c.data|
    ensures c' == c.(data := c'.data) && |c'.data| == |c.data|
    ensures Marked(c', 0, Half(c.size), m, true, false)
    ensures Marked(c', c.size - Half(c.size), c.size, m, true, false)
  {
    var len := Half(c.size);
    var c1 := SetLen(c, 0, len, true, false, m);
    c' := SetLen(c1, c.size - len, len, true, false, m);
    EndsMeet(c1, c', len, m);
  }

  /** Marking the far end of the data does not spoil the near end, even where they overlap. */
  lemma EndsMeet(c: Chunk, c': Chunk, len: nat, m: Magic)
    requires c' == c.(data := c'.data) && len <= c.size <= |c.data| == |c'.data|
    requires forall i :: 0 <= i < |c.data| && !(c.size - len <= i < c.size) ==> c'.data[i] == c.data[i]
    requires Marked(c, 0, len, m, true, false) && Marked(c', c.size - len, c.size, m, true, false)
    ensures Marked(c', 0, len, m, true, false)
  {
    forall i | 0 <= i < len ensures c'.data[i] == MagicValues(m, c.address + i, true, false).1 {
      if i < c.size - len {
        assert c'.data[i] == c.data[i];
      }
    }
  }

  /** A client that keeps to its own bytes keeps the chunk in order. */
  lemma WritesInside(c: Chunk, m: Magic, validate: bool, data: seq<Byte>)
    requires InUse(c, m, validate) && |data| == |c.data| && data[c.size..] == c.data[c.size..]
    ensures InUse(c.(data := data), m, validate)
  {
    forall i | c.size <= i < |data| ensures data[i] == c.data[i] {
      assert data[i] == data[c.size..][i - c.size] && c.data[i] == c.data[c.size..][i - c.size];
    }
  }

  /** One that writes behind them, with validation on, fails the test at the next step unless it changes nothing. */
  lemma WriteBehindIsCaught(c: Chunk, m: Magic, i: nat, v: Byte)
    requires InUse(c, m, true) && c.size <= i < |c.data|
    ensures InUse(c.(data := c.data[i := v]), m, true) <==> v == c.data[i]
  {
    var c' := c.(data := c.data[i := v]);
    assert c.data[i] == MagicValues(m, c.address + i, false, true).1;
    if v == c.data[i] {
      assert c' == c;
    } else {
      assert c'.data[i] == v;
    }
  }
}
