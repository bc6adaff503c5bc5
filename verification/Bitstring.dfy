/** The status list's bit array: index 0 is the left-most bit of the first byte. */
module Bitstring {
  import opened Prelude

  const TWO_32: nat := 0x1_0000_0000

  /** `0b1000_0000 >>> k`. */
  function Mask(k: nat): bv8
    requires k < 8
  {
    if k == 0 then 0x80 else if k == 1 then 0x40 else if k == 2 then 0x20 else if k == 3 then 0x10
    else if k == 4 then 0x08 else if k == 5 then 0x04 else if k == 6 then 0x02 else 0x01
  }

  lemma MaskSets(b: bv8, j: nat, k: nat)
    requires j < 8 && k < 8
    ensures (b | Mask(k)) & Mask(j) != 0 <==> j == k || b & Mask(j) != 0
    ensures b & !Mask(k) & Mask(j) != 0 <==> j != k && b & Mask(j) != 0
  {
  }

  predicate BitAt(byte: bv8, k: nat)
    requires k < 8
  {
    byte & Mask(k) != 0
  }

  function Bits(bytes: seq<bv8>): (bits: seq<bool>)
    ensures |bits| == 8 * |bytes|
  {
    seq(8 * |bytes|, i requires 0 <= i < 8 * |bytes| => BitAt(bytes[i / 8], i % 8))
  }

  /** The byte an index addresses: `index >>> 3` first reduces it modulo 2^32. */
  function ByteOf(index: nat): nat {
    index % TWO_32 / 8
  }

  /** Distinct indices of a list address distinct bits. */
  ghost predicate Faithful(length: nat) {
    forall i: nat, j: nat :: i < j < length ==> Apart(i, j)
  }

  predicate Apart(i: nat, j: nat) {
    ByteOf(i) != ByteOf(j) || i % 8 != j % 8
  }

  lemma WithinWord(i: nat)
    requires i < TWO_32
    ensures ByteOf(i) == i / 8
  {
    assert i % TWO_32 == i;
  }

  /** The 32-bit shift keeps indices apart exactly for lists of at most 2^32 entries. */
  lemma FaithfulIffFitsWord(length: nat)
    ensures Faithful(length) <==> length <= TWO_32
  {
    if length <= TWO_32 {
      forall i: nat, j: nat | i < j < length
        ensures Apart(i, j)
      {
        WithinWord(i);
        WithinWord(j);
      }
    } else {
      assert 0 < TWO_32 < length;
      assert ByteOf(0) == 0 && ByteOf(TWO_32) == 0;
      assert !Apart(0, TWO_32);
    }
  }

  function ByteWith(byte: bv8, mask: bv8, value: bool): bv8 {
    if value then byte | mask else byte & !mask
  }

  lemma BitOfByteWith(byte: bv8, j: nat, k: nat, value: bool)
    requires j < 8 && k < 8
    ensures BitAt(ByteWith(byte, Mask(k), value), j) == if j == k then value else BitAt(byte, j)
  {
    hide Mask;
    MaskSets(byte, j, k);
  }

  lemma BitUpdated(bytes: seq<bv8>, index: nat, value: bool, i: nat)
    requires index < 8 * |bytes| && i < 8 * |bytes|
    ensures var bytes' := bytes[index / 8 := ByteWith(bytes[index / 8], Mask(index % 8), value)];
      BitAt(bytes'[i / 8], i % 8) == if i == index then value else BitAt(bytes[i / 8], i % 8)
  {
    hide Mask, BitAt, ByteWith;
    if i / 8 == index / 8 {
      BitOfByteWith(bytes[index / 8], i % 8, index % 8, value);
      assert i == 8 * (i / 8) + i % 8 && index == 8 * (index / 8) + index % 8;
    }
  }

  /** Changing one bit of one byte changes one bit of the list. */
  lemma BitsUpdate(bytes: seq<bv8>, index: nat, value: bool)
    requires index < 8 * |bytes|
    ensures Bits(bytes[index / 8 := ByteWith(bytes[index / 8], Mask(index % 8), value)]) == Bits(bytes)[index := value]
  {
    hide Mask, BitAt, ByteWith;
    var bytes' := bytes[index / 8 := ByteWith(bytes[index / 8], Mask(index % 8), value)];
    forall i | 0 <= i < 8 * |bytes|
      ensures Bits(bytes')[i] == Bits(bytes)[index := value][i]
    {
      BitUpdated(bytes, index, value, i);
    }
  }

  /** The set positions of a list, in order. */
  function SetPositions(bits: seq<bool>): seq<nat> {
    if bits == [] then []
    else
      var n := |bits| - 1;
      SetPositions(bits[..n]) + if bits[n] then [n] else []
  }

  lemma {:induction false} SetPositionsExact(bits: seq<bool>, i: nat)
    ensures i in SetPositions(bits) <==> i < |bits| && bits[i]
  {
    if bits != [] {
      var n := |bits| - 1;
      SetPositionsExact(bits[..n], i);
      if i < n {
        assert bits[..n][i] == bits[i];
      }
    }
  }

  /** The first bit of a byte is its left-most one: shifting right by 7 - k leaves bit k last. */
  lemma LeftMostFirst(byte: bv8, k: nat)
    requires k < 8
    ensures BitAt(byte, k) <==> (byte >> (7 - k)) & 1 == 1
  {
    if k == 0 {
      assert byte & 0x80 != 0 <==> (byte >> 7) & 1 == 1;
    } else if k == 1 {
      assert byte & 0x40 != 0 <==> (byte >> 6) & 1 == 1;
    } else if k == 2 {
      assert byte & 0x20 != 0 <==> (byte >> 5) & 1 == 1;
    } else if k == 3 {
      assert byte & 0x10 != 0 <==> (byte >> 4) & 1 == 1;
    } else if k == 4 {
      assert byte & 0x08 != 0 <==> (byte >> 3) & 1 == 1;
    } else if k == 5 {
      assert byte & 0x04 != 0 <==> (byte >> 2) & 1 == 1;
    } else if k == 6 {
      assert byte & 0x02 != 0 <==> (byte >> 1) & 1 == 1;
    } else {
      assert byte & 0x01 != 0 <==> (byte >> 0) & 1 == 1;
    }
  }

  class Bitstring {
    const bytes: array<bv8>

    ghost function Value(): (bits: seq<bool>)
      reads bytes
      ensures |bits| == 8 * bytes.Length
    {
      Bits(bytes[..])
    }

    constructor (entries: nat)
      requires entries > 0 && entries % 8 == 0
      ensures fresh(bytes) && 8 * bytes.Length == entries
      ensures Value() == seq(entries, i => false)
    {
      bytes := new bv8[entries / 8](i => 0);
      new;
      assert 8 * |bytes[..]| == entries;
    }

    /** The byte and mask of an index, or nothing for an index outside the list. */
    function Locate(index: int): Option<(nat, bv8)>
      reads bytes
    {
      if index < 0 || index >= 8 * bytes.Length || index > MAX_SAFE_INTEGER then None
      else Some((ByteOf(index), Mask(index % 8)))
    }

    method Get(index: int) returns (bit: Option<bool>)
      ensures bit.None? <==> index < 0 || index >= 8 * bytes.Length || index > MAX_SAFE_INTEGER
      ensures bit.Some? && 8 * bytes.Length <= TWO_32 ==> bit.value == Value()[index]
    {
      hide Mask;
      var place := Locate(index);
      if place.None? {
        return None;
      }
      ByteInside(index, bytes.Length);
      if index < TWO_32 {
        WithinWord(index);
      }
      assert bytes[..][index / 8] == bytes[index / 8];
      bit := Some(bytes[place.value.0] & place.value.1 != 0);
    }

    method Set(index: int, value: bool) returns (ok: bool)
      modifies bytes
      ensures ok <==> 0 <= index < 8 * bytes.Length && index <= MAX_SAFE_INTEGER
      ensures !ok ==> Value() == old(Value())
      ensures ok && 8 * bytes.Length <= TWO_32 ==> Value() == old(Value())[index := value]
    {
      hide Mask, Bits, ByteOf, ByteWith;
      var place := Locate(index);
      if place.None? {
        return false;
      }
      ByteInside(index, bytes.Length);
      Put(place.value.0, place.value.1, value);
      SetEffect(old(bytes[..]), index, value);
      return true;
    }

    method Put(b: nat, mask: bv8, value: bool)
      requires b < bytes.Length
      modifies bytes
      ensures bytes[..] == old(bytes[..])[b := ByteWith(old(bytes[b]), mask, value)]
    {
      if value {
        bytes[b] := bytes[b] | mask;
      } else {
        bytes[b] := bytes[b] & !mask;
      }
    }

    method SetIndices() returns (out: seq<nat>)
      ensures out == SetPositions(Value())
    {
      hide Mask, SetPositions;
      out := [];
      NothingBefore(Value());
      var b := 0;
      while b < bytes.Length
        invariant 0 <= b <= bytes.Length
        invariant out == SetPositions(Value()[..8 * b])
      {
        var v := bytes[b];
        assert bytes[..][b] == v;
        var bit := 0;
        if v == 0 {
          ZeroByteSkips(bytes[..], b);
          bit := 8;
        }
        while bit < 8
          invariant 0 <= bit <= 8
          invariant out == SetPositions(Value()[..8 * b + bit])
        {
          PositionsNext(Value(), 8 * b + bit);
          assert (8 * b + bit) / 8 == b && (8 * b + bit) % 8 == bit;
          if v & Mask(bit) != 0 {
            out := out + [8 * b + bit];
          }
          bit := bit + 1;
        }
        b := b + 1;
      }
      assert Value()[..8 * b] == Value();
    }
  }

  lemma SetEffect(bytes: seq<bv8>, index: nat, value: bool)
    requires index < 8 * |bytes|
    ensures ByteOf(index) < |bytes|
    ensures 8 * |bytes| <= TWO_32 ==>
      Bits(bytes[ByteOf(index) := ByteWith(bytes[ByteOf(index)], Mask(index % 8), value)]) == Bits(bytes)[index := value]
  {
    hide Mask, Bits, ByteOf, ByteWith;
    ByteInside(index, |bytes|);
    if 8 * |bytes| <= TWO_32 {
      WithinWord(index);
      BitsUpdate(bytes, index, value);
    }
  }

  lemma ByteInside(index: nat, bytes: nat)
    requires index < 8 * bytes
    ensures ByteOf(index) < bytes
  {
    assert index % TWO_32 <= index;
  }

  lemma NothingBefore(bits: seq<bool>)
    ensures SetPositions(bits[..0]) == []
  {
  }

  lemma PositionsNext(bits: seq<bool>, i: nat)
    requires i < |bits|
    ensures SetPositions(bits[..i + 1]) == SetPositions(bits[..i]) + if bits[i] then [i] else []
  {
    assert bits[..i + 1][..i] == bits[..i];
  }

  lemma ZeroByteSkips(bytes: seq<bv8>, b: nat)
    requires b < |bytes| && bytes[b] == 0
    ensures SetPositions(Bits(bytes)[..8 * b + 8]) == SetPositions(Bits(bytes)[..8 * b])
  {
    hide SetPositions;
    var k := 0;
    while k < 8
      invariant 0 <= k <= 8
      invariant SetPositions(Bits(bytes)[..8 * b + k]) == SetPositions(Bits(bytes)[..8 * b])
    {
      PositionsNext(Bits(bytes), 8 * b + k);
      assert (8 * b + k) / 8 == b;
      k := k + 1;
    }
  }
}
