/** Management messages as D_PDUs: what the other engine is given back. */
module ManagementWire {
  import opened Crc
  import opened Dpdu
  import opened DpduCodec
  import opened DpduCodecProof
  import opened Prelude
  import M = Management

  predicate Sendable(f: M.MgmtFrame) {
    0 <= f.id < 256 && (f.Message? ==> 0 <= f.kind < 16 && 0 <= f.contents < 256 && |f.data| <= 23)
  }

  /** The D_PDU of a message or an acknowledgement. Type and contents travel in the field of the common header. */
  function MgmtDpdu(f: M.MgmtFrame, address: Address): Dpdu
    requires Sendable(f)
  {
    var field: u12 := if f.Message? then 256 * f.kind + f.contents else 0;
    var h := ManagementHeader(field, f.Ack?, f.Message?, f.id);
    Dpdu(DpduType.Management, field, 0, address, None, None, None, Some(h), None, None,
         if f.Message? then f.data else [], None, None, None, None)
  }

  /** What the engine takes out of a received D_PDU. */
  function ReadFrame(d: Dpdu): Option<M.MgmtFrame> {
    if !d.kind.Management? || d.management.None? then None
    else
      var h := d.management.value;
      if h.messageAck then Some(M.Ack(h.frameId))
      else Some(M.Message(h.frameId, h.messageField / 256, h.messageField % 256, d.userData))
  }

  /** A message or an acknowledgement sent is the one received, with a good header check. */
  lemma FrameSurvives(f: M.MgmtFrame, address: Address)
    requires Sendable(f)
    ensures Encodable(MgmtDpdu(f, address))
    ensures var r := Decode(Wire(MgmtDpdu(f, address)));
      r.Ok? && ReadFrame(r.value) == Some(f) && r.value.headerCrcOk == Some(true) && r.value.address == address
  {
    hide Decode, Encode, EncodeSpecific, CheckPayload;
    RoundTrip(MgmtDpdu(f, address));
    var specific := SpecificBytes(MgmtDpdu(f, address));
    if f.Message? { Digits(f.kind, f.contents); }
  }

  lemma Digits(hi: nat, lo: nat)
    requires lo < 256
    ensures (256 * hi + lo) / 256 == hi && (256 * hi + lo) % 256 == lo
  {
  }

  /** What `send` is given arrives with its type cut to 4 bits and its contents to 8; all messages of 23 octets fit. */
  lemma MessageSurvives(m: M.Msg, id: int, address: Address)
    requires 0 <= id < 256 && |m.data| <= 23
    ensures Sendable(M.WireOf(m, id))
    ensures var r := Decode(Wire(MgmtDpdu(M.WireOf(m, id), address)));
      r.Ok? && ReadFrame(r.value) == Some(M.Message(id, m.kind % 16, m.contents % 256, m.data))
  {
    FrameSurvives(M.WireOf(m, id), address);
  }

  /** The copies per transmission as the standard tabulates them: data rate, short and long interleaver. */
  lemma RepetitionTable(rate: int)
    ensures (M.Repetitions(rate, false), M.Repetitions(rate, true)) ==
      if rate == 75 then (5, 9)
      else if rate == 150 || rate == 300 then (3, 5)
      else if rate == 600 then (3, 3)
      else if rate == 1200 then (1, 3)
      else (1, 1)
  {
  }
}
