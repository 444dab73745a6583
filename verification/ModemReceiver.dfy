/** The receiving side of the modem adapter as an object: packet reader, reassembler and frame queue. */
module ModemReceiver {
  import Framing
  import opened Modem110d
  import opened Packets
  import opened Prelude
  import opened Stream

  /** The receive state, and the bytes that the packet reader still holds. */
  datatype Link = Link(rx: Rx, held: bytes)

  /** Reading and dispatching until there is no packet, or until the connection goes down. */
  ghost function Drive(s: Rx, buf: bytes): Link
    requires Steady(Framing.NextFrame)
    decreases |buf|
  {
    var f := First(buf);
    if f.packet.None? then Link(s, f.rest)
    else
      var t := Dispatch(s, f.packet.value);
      if f.packet.value.kind == ERROR then Link(t, f.rest) else Drive(t, f.rest)
  }

  /** Without an error report this handles every packet that the buffer holds, in order. */
  lemma {:induction false} DriveIsDispatch(s: Rx, buf: bytes)
    requires Steady(Framing.NextFrame) && Steady(NextPacket)
    requires forall p :: p in Run(NextPacket, buf).items ==> p.kind != ERROR
    ensures Drive(s, buf) == Link(DispatchAll(s, Run(NextPacket, buf).items), Run(NextPacket, buf).rest)
    decreases |buf|
  {
    var f := First(buf);
    FirstIsRun(buf);
    if f.packet.Some? {
      var p, later := f.packet.value, Run(NextPacket, f.rest).items;
      assert ([p] + later)[0] == p && ([p] + later)[1..] == later;
      DriveIsDispatch(Dispatch(s, p), f.rest);
      DispatchFirst(s, [p] + later);
    }
  }

  /** The first error report ends it: what came before is handled, the connection goes down, and the rest is dropped. */
  lemma {:induction false} DriveStops(s: Rx, buf: bytes, e: nat)
    requires Steady(Framing.NextFrame) && Steady(NextPacket)
    requires var ps := Run(NextPacket, buf).items;
      e < |ps| && ps[e].kind == 0xFF && forall i :: 0 <= i < e ==> ps[i].kind != 0xFF
    ensures Drive(s, buf).rx == Rx([], DispatchAll(s, Run(NextPacket, buf).items[..e]).frames, false)
    decreases |buf|
  {
    hide *;
    var f, ps := First(buf), Run(NextPacket, buf).items;
    FirstIsRun(buf);
    var p, later := f.packet.value, Run(NextPacket, f.rest).items;
    assert ps == [p] + later;
    DriveNext(s, buf);
    if e == 0 {
      assert ps[..0] == [];
      NothingDispatched(s);
      ErrorEnds(s, p);
    } else {
      assert forall i :: 0 <= i < e - 1 ==> later[i] == ps[i + 1];
      DriveStops(Dispatch(s, p), f.rest, e - 1);
      assert ps[..e][0] == p && ps[..e][1..] == later[..e - 1];
      DispatchFirst(s, ps[..e]);
    }
  }

  lemma DriveNext(s: Rx, buf: bytes)
    requires Steady(Framing.NextFrame) && First(buf).packet.Some?
    ensures var f := First(buf);
      && |f.rest| < |buf|
      && Drive(s, buf) == if f.packet.value.kind == 0xFF then Link(Dispatch(s, f.packet.value), f.rest)
                          else Drive(Dispatch(s, f.packet.value), f.rest)
  {
    hide First, Dispatch;
  }

  lemma NothingDispatched(s: Rx)
    requires Steady(Framing.NextFrame)
    ensures DispatchAll(s, []) == s
  {
  }

  lemma ErrorEnds(s: Rx, p: Packet)
    requires Steady(Framing.NextFrame) && p.kind == 0xFF
    ensures Dispatch(s, p) == Rx([], s.frames, false)
  {
  }

  class Receiver {
    const reader: PacketReader
    const reassembler: Framing.DpduReassembler
    var rxFrames: seq<bytes>
    var connected: bool

    /** The abstract state of the receiver. */
    ghost function State(): Link
      reads this, reader, reassembler
    {
      Link(Rx(reassembler.buf, rxFrames, connected), reader.buf)
    }

    constructor ()
      ensures State() == Link(Rx([], [], true), [])
      ensures fresh(reader) && fresh(reassembler)
    {
      reader := new PacketReader();
      reassembler := new Framing.DpduReassembler();
      rxFrames, connected := [], true;
    }

    method OnDataTransfer(payload: bytes)
      requires ReadTransfer(payload).Ok?
      modifies this, reassembler
      ensures Steady(Framing.NextFrame)
      ensures var t := ReadTransfer(payload).value;
        State() == old(State()).(rx := OnTransfer(old(State().rx), t.0, t.1))
    {
      var t := ReadTransfer(payload).value;
      if t.0 == FIRST_ONLY || t.0 == FIRST_AND_LAST {
        reassembler.Reset();
      }
      var newFrames := reassembler.Feed(t.1);
      rxFrames := rxFrames + newFrames;
    }

    /** One packet; an error report takes the connection down. */
    method DispatchPacket(p: Packet)
      modifies this, reassembler
      ensures Steady(Framing.NextFrame)
      ensures State() == old(State()).(rx := Dispatch(old(State().rx), p))
    {
      Framing.FramesSteady();
      if p.kind == ERROR {
        connected := false;
        reassembler.Reset();
        return;
      }
      if p.kind != DATA { return; }
      if p.payload == [] { return; }
      if p.payload[0] == DATA_TRANSFER && ReadTransfer(p.payload).Ok? {
        OnDataTransfer(p.payload);
      }
    }

    /** Bytes from the socket. */
    method OnReceive(data: bytes)
      modifies this, reader, reassembler
      ensures Steady(Framing.NextFrame)
      ensures State() == Drive(old(State().rx), old(reader.buf) + data)
    {
      Framing.FramesSteady();
      reader.Feed(data);
      ghost var goal := Drive(State().rx, reader.buf);
      while true
        invariant goal == Drive(State().rx, reader.buf)
        decreases |reader.buf|
      {
        ghost var before := State();
        var p := reader.Read();
        assert Pick(p, reader.buf) == First(before.held);
        if p.None? { return; }
        DispatchPacket(p.value);
        if p.value.kind == ERROR { return; }
      }
    }
  }
}
