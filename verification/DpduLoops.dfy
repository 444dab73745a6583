/** The address loops of the framing code, and the D_PDU object that encoding writes back into. */
module DpduLoops {
  import opened Bits
  import opened Crc
  import opened CrcDetect
  import opened Dpdu
  import opened DpduCodec
  import opened DpduCodecProof
  import opened Prelude

  // ---- Addresses ----------------------------------------------------------

  lemma DivTwice(v: nat, p: nat)
    requires p > 0
    ensures (v / 16) / p == v / (16 * p)
  {
    var q, m := (v / 16) / p, (v / 16) % p;
    assert v == 16 * (p * q + m) + v % 16;
    assert 16 * (p * q + m) == (16 * p) * q + 16 * m;
    DivIs(v, 16 * p, q, 16 * m + v % 16);
  }

  /** The nibble that a shift by `4 * shift` bits selects. */
  lemma {:induction false} NibbleAt(v: nat, n: nat, shift: nat)
    requires shift < n
    ensures Nibbles(v, n)[n - 1 - shift] == (v / Pow16(shift)) % 16
    decreases n
  {
    if shift > 0 {
      NibbleAt(v / 16, n - 1, shift - 1);
      DivTwice(v, Pow16(shift - 1));
      assert Nibbles(v, n)[n - 1 - shift] == Nibbles(v / 16, n - 1)[n - 2 - (shift - 1)];
    }
  }

  method ToNibbles(value: nat, count: nat) returns (s: seq<nibble>)
    ensures s == Nibbles(value, count)
  {
    s := [];
    var shift := count;
    while shift > 0
      invariant 0 <= shift <= count && s == Nibbles(value, count)[..count - shift]
    {
      shift := shift - 1;
      NibbleAt(value, count, shift);
      s := s + [(value / Pow16(shift)) % 16];
    }
  }

  lemma {:induction false} PairSnoc(s: seq<nibble>, hi: nibble, lo: nibble)
    requires |s| % 2 == 0
    ensures Pair(s + [hi, lo]) == Pair(s) + [Hex(hi, lo)]
    decreases |s|
  {
    if s == [] {
      assert [hi, lo][2..] == [];
    } else {
      PairSnoc(s[2..], hi, lo);
      assert (s + [hi, lo])[2..] == s[2..] + [hi, lo];
    }
  }

  method EncodeAddressLoop(address: Address) returns (out: bytes)
    ensures out == EncodeAddress(address)
  {
    hide Pair, Nibbles, Hex;
    var d := ToNibbles(address.destination, address.size);
    var s := ToNibbles(address.source, address.size);
    var nibbles := d + s;
    out := [];
    var idx := 0;
    while idx < |nibbles|
      invariant 0 <= idx <= |nibbles| && idx % 2 == 0 && out == Pair(nibbles[..idx])
    {
      PairSnoc(nibbles[..idx], nibbles[idx], nibbles[idx + 1]);
      assert nibbles[..idx + 2] == nibbles[..idx] + [nibbles[idx], nibbles[idx + 1]];
      out := out + [Hex(nibbles[idx], nibbles[idx + 1])];
      idx := idx + 2;
    }
    assert nibbles[..|nibbles|] == nibbles;
  }

  lemma {:induction false} UnpairSnoc(w: bytes, b: byte)
    ensures Unpair(w + [b]) == Unpair(w) + [b / 16, b % 16]
    decreases |w|
  {
    if w == [] {
      assert [b][1..] == [];
    } else {
      UnpairSnoc(w[1..], b);
      assert (w + [b])[1..] == w[1..] + [b];
    }
  }

  method NibblesValue(values: seq<nibble>) returns (value: nat)
    ensures value == FromNibbles(values)
  {
    value := 0;
    for i := 0 to |values|
      invariant value == FromNibbles(values[..i])
    {
      assert values[..i + 1][..i] == values[..i];
      value := value * 16 + values[i];
    }
    assert values[..|values|] == values;
  }

  method DecodeAddressLoop(data: bytes) returns (address: Address)
    requires 1 <= |data| <= 7
    ensures address == DecodeAddress(data)
  {
    var nibbles: seq<nibble> := [];
    for i := 0 to |data|
      invariant nibbles == Unpair(data[..i])
    {
      UnpairSnoc(data[..i], data[i]);
      assert data[..i + 1] == data[..i] + [data[i]];
      nibbles := nibbles + [data[i] / 16, data[i] % 16];
    }
    assert data[..|data|] == data;
    var destination := NibblesValue(nibbles[..|data|]);
    var source := NibblesValue(nibbles[|data|..2 * |data|]);
    address := AddressPair(destination, source, |data|);
  }

  // ---- The D_PDU object ---------------------------------------------------

  /** What the header builder returns. */
  function HeaderOf(d: Dpdu): Result<bytes, string> {
    if CheckPayload(d).Some? then Err(CheckPayload(d).value)
    else match EncodeSpecific(d)
      case Err(e) => Err(e)
      case Ok(specific) =>
        if 4 + |specific| + 2 > 31 then Err("Header size exceeds 5-bit maximum (31 bytes)")
        else Ok(Header(d, specific))
  }

  /** The header, from the type field up to its check. */
  method HeaderWithoutCrc(d: Dpdu) returns (r: Result<bytes, string>)
    ensures r == HeaderOf(d)
  {
    var problem := CheckPayload(d);
    if problem.Some? { return Err(problem.value); }
    var specific := EncodeSpecific(d);
    if specific.Err? { return Err(specific.error); }
    var address := EncodeAddressLoop(d.address);
    var hdrSize := 4 + |specific.value| + 2;
    if hdrSize > 31 { return Err("Header size exceeds 5-bit maximum (31 bytes)"); }
    var common: bytes := [TypeCode(d.kind) * 16 + d.eow / 256, d.eow % 256, d.eot, d.address.size * 32 + hdrSize];
    HeaderIs(d, specific.value, common);
    return Ok(common + address + specific.value);
  }

  lemma HeaderIs(d: Dpdu, specific: bytes, common: bytes)
    requires |specific| <= 25
    requires common == [TypeCode(d.kind) * 16 + d.eow / 256, d.eow % 256, d.eot, d.address.size * 32 + (6 + |specific|)]
    ensures Header(d, specific) == common + EncodeAddress(d.address) + specific
  {
  }

  class DpduObject {
    var fields: Dpdu
    var rawBytes: bytes

    constructor (d: Dpdu)
      ensures fields == d && rawBytes == []
    {
      fields, rawBytes := d, [];
    }

    /** Builds the frame piece by piece and fills in the check fields; a failure leaves the object alone. */
    method EncodeDpdu() returns (r: Result<bytes, string>)
      modifies this
      ensures r.Ok? == Encode(old(fields)).Ok?
      ensures r.Ok? ==> r == Encode(old(fields)) && rawBytes == r.value && fields == Stamped(old(fields))
      ensures r.Err? ==> rawBytes == old(rawBytes) && fields == old(fields)
    {
      var header := HeaderWithoutCrc(fields);
      if header.Err? { return header; }
      var headerCrc := CrcOf(Crc16, header.value, 0);
      var frame := Sync();
      frame := frame + header.value;
      frame := frame + ToWire(Crc16, headerCrc);
      var dataCrc: Option<nat> := None;
      if HasDataCrc(fields.kind) {
        frame := frame + fields.userData;
        var crc := CrcOf(Crc32, fields.userData, 0);
        dataCrc := Some(crc);
        AppendAssoc(Sync() + header.value + ToWire(Crc16, headerCrc), fields.userData, ToWire(Crc32, crc));
        frame := frame + ToWire(Crc32, crc);
      } else if fields.kind.Management? {
      } else if fields.userData != [] {
        return Err("This DPDU type does not carry user data");
      }
      assert !HasDataCrc(fields.kind) ==> frame + Payload(fields) == frame;
      fields := fields.(headerCrc := Some(headerCrc), dataCrc := dataCrc, headerCrcOk := Some(true),
                        dataCrcOk := if dataCrc.Some? then Some(true) else None);
      rawBytes := frame;
      return Ok(frame);
    }

    /** Recomputes the header check, from the bytes when there are any. */
    method ValidateHeaderCrc() returns (r: Result<bool, string>)
      ensures rawBytes != [] ==>
        && (r.Ok? <==> Decode(rawBytes).Ok?)
        && (r.Ok? ==> (r.value <==> Decode(rawBytes).value.headerCrcOk == Some(true)))
      ensures rawBytes == [] && fields.headerCrc.None? ==> r == Ok(false)
      ensures rawBytes == [] && fields.headerCrc.Some? ==>
        && (r.Ok? <==> HeaderOf(fields).Ok?)
        && (r.Ok? ==> (r.value <==> fields.headerCrc == Some(CrcOf(Crc16, HeaderOf(fields).value, 0))))
    {
      if rawBytes != [] {
        var d := Decode(rawBytes);
        if d.Err? { return Err(d.error); }
        return Ok(d.value.headerCrcOk == Some(true));
      }
      if fields.headerCrc.None? { return Ok(false); }
      var header := HeaderWithoutCrc(fields);
      if header.Err? { return Err(header.error); }
      return Ok(Some(CrcOf(Crc16, header.value, 0)) == fields.headerCrc);
    }
  }

  /** Encoding an object and then checking it always succeeds. */
  method EncodeThenValidate(o: DpduObject) returns (r: Result<bytes, string>, ok: Result<bool, string>)
    modifies o
    ensures r.Ok? <==> Encodable(old(o.fields))
    ensures r.Ok? ==> ok == Ok(true) && Decode(r.value) == Ok(Carried(old(o.fields)))
  {
    ghost var d := o.fields;
    EncodableIff(d);
    r := o.EncodeDpdu();
    ok := Ok(false);
    if r.Ok? {
      RoundTrip(d);
      assert Encode(d) == Ok(Wire(d));
      assert |Wire(d)| > 0;
      ok := o.ValidateHeaderCrc();
    }
  }
}
