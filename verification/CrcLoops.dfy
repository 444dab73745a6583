/** The register loops, as the framing layer and the modem interface write them. */
module CrcLoops {
  import opened Bits
  import opened Crc
  import opened Prelude
  import opened Xor

  lemma CrcSnoc(k: Kind, r: nat, bits: seq<bool>, bit: bool)
    ensures CrcBits(k, r, bits + [bit]) == Step(k, CrcBits(k, r, bits), bit)
  {
    CrcConcat(k, r, bits, [bit]);
  }

  /** The loop over the masks of one byte takes one more bit. */
  lemma MaskStep(k: Kind, r: nat, b: byte, j: nat, mask: nat)
    requires j < 8 && mask == Pow2(j)
    ensures CrcBits(k, r, LowBits(b, 8)[..j + 1])
         == Step(k, CrcBits(k, r, LowBits(b, 8)[..j]), (b / mask) % 2 == 1)
  {
    var bits := LowBits(b, 8);
    LowBitAt(b, 8, j);
    assert bits[..j + 1] == bits[..j] + [bits[j]];
    CrcSnoc(k, r, bits[..j], bits[j]);
  }

  /** The loop over the bytes takes one more byte. */
  lemma ByteStep(k: Kind, r: nat, data: bytes, i: nat)
    requires i < |data|
    ensures CrcBits(k, r, MessageBits(data[..i + 1]))
         == CrcBits(k, CrcBits(k, r, MessageBits(data[..i])), LowBits(data[i], 8))
  {
    assert data[..i + 1] == data[..i] + [data[i]];
    BitsConcat(data[..i], [data[i]]);
    BitsUnfold([data[i]]);
    assert MessageBits([data[i]]) == LowBits(data[i], 8);
    CrcConcat(k, r, MessageBits(data[..i]), LowBits(data[i], 8));
  }

  lemma MaskRange(j: nat)
    requires j <= 8
    ensures Pow2(j) <= 0x80 <==> j < 8
  {
    assert Pow2(8) == 256 && Pow2(7) == 128;
    if j < 8 { Pow2Grows(j, 7); }
  }

  method Crc16Stanag(data: bytes, init: nat) returns (crc: nat)
    ensures crc == CrcOf(Crc16, data, init)
  {
    crc := init % 0x1_0000;
    ghost var start := crc;
    for i := 0 to |data|
      invariant crc == CrcBits(Crc16, start, MessageBits(data[..i]))
    {
      ghost var before, j := crc, 0;
      var mask: nat := 0x01;
      while mask <= 0x80
        invariant 0 <= j <= 8 && mask == Pow2(j)
        invariant crc == CrcBits(Crc16, before, LowBits(data[i], 8)[..j])
        decreases 8 - j
      {
        MaskRange(j);
        MaskStep(Crc16, before, data[i], j, mask);
        var bit := (crc % 2 == 1) != ((data[i] / mask) % 2 == 1);
        crc := crc / 2;
        if bit { crc := XorNat(crc, 0x9299); }
        mask := mask * 2;
        j := j + 1;
      }
      MaskRange(j);
      assert LowBits(data[i], 8)[..8] == LowBits(data[i], 8);
      ByteStep(Crc16, start, data, i);
    }
    assert data[..|data|] == data;
  }

  method Crc32S5066(data: bytes, init: nat) returns (crc: nat)
    ensures crc == CrcOf(Crc32, data, init)
  {
    crc := init % 0x1_0000_0000;
    ghost var start := crc;
    for i := 0 to |data|
      invariant crc == CrcBits(Crc32, start, MessageBits(data[..i]))
    {
      ghost var before, j := crc, 0;
      var mask: nat := 0x01;
      while mask <= 0x80
        invariant 0 <= j <= 8 && mask == Pow2(j)
        invariant crc == CrcBits(Crc32, before, LowBits(data[i], 8)[..j])
        decreases 8 - j
      {
        MaskRange(j);
        MaskStep(Crc32, before, data[i], j, mask);
        var bit := (crc % 2 == 1) != ((data[i] / mask) % 2 == 1);
        crc := crc / 2;
        if bit { crc := XorNat(crc, 0xF3A4_E550); }
        mask := mask * 2;
        j := j + 1;
      }
      MaskRange(j);
      assert LowBits(data[i], 8)[..8] == LowBits(data[i], 8);
      ByteStep(Crc32, start, data, i);
    }
    assert data[..|data|] == data;
  }

  /** The modem interface's own CRC-16, written over a table of masks; it computes the same check. */
  method Crc16AppendixA(data: bytes) returns (crc: nat)
    ensures crc == CrcOf(Crc16, data, 0)
  {
    hide XorNat, MessageBits, LowBits;
    var masks := [0x01, 0x02, 0x04, 0x08, 0x10, 0x20, 0x40, 0x80];
    MaskTable(masks);
    crc := 0;
    for i := 0 to |data|
      invariant crc == CrcBits(Crc16, 0, MessageBits(data[..i]))
    {
      ghost var before := crc;
      for j := 0 to |masks|
        invariant crc == CrcBits(Crc16, before, LowBits(data[i], 8)[..j])
      {
        MaskStep(Crc16, before, data[i], j, masks[j]);
        var bit := (crc % 2 == 1) != ((data[i] / masks[j]) % 2 == 1);
        crc := crc / 2;
        if bit { crc := XorNat(crc, 0x9299); }
      }
      assert LowBits(data[i], 8)[..8] == LowBits(data[i], 8);
      ByteStep(Crc16, 0, data, i);
    }
    assert data[..|data|] == data;
    CrcFits(Crc16, 0, MessageBits(data));
    SmallMod(crc, 0x1_0000);
    crc := crc % 0x1_0000;
  }

  lemma MaskTable(masks: seq<int>)
    requires masks == [0x01, 0x02, 0x04, 0x08, 0x10, 0x20, 0x40, 0x80]
    ensures forall j :: 0 <= j < 8 ==> masks[j] == Pow2(j)
  {
    assert Pow2(0) == 1 && Pow2(1) == 2 && Pow2(2) == 4 && Pow2(3) == 8;
    assert Pow2(4) == 16 && Pow2(5) == 32 && Pow2(6) == 64 && Pow2(7) == 128;
  }
}
