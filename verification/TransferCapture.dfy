/** Which bytes of a control, bulk or interrupt transfer are stored, and when: on the
    way to the device (submission) or on the way back (completion). And the table of
    requests with unknown functions (USBPcapDriver/USBPcapURB.c, USBPcapTables.c). */
module TransferCapture {
  import opened Wrappers
  import opened Bytes
  import opened Pcap
  import opened PacketStore
  import opened CaptureSession
  import Isochronous
  import Sequences

  /** buffer is the memory behind the transfer, None when it could not be mapped. */
  datatype Transfer = Transfer(inward: bool, setup: seq<Byte>, length: nat, buffer: Option<seq<Byte>>)

  predicate Valid(t: Transfer) {
    && |t.setup| == 8 && t.length < TWO_TO_32
    && (t.buffer.Some? ==> |t.buffer.value| == t.length)
  }

  /** A packet handed to the ring. */
  datatype Packet = Packet(header: seq<Byte>, entries: seq<Payload>)

  /** USBPcapURBGetBufferPointer */
  function BufferPointer(t: Transfer): Payload {
    if t.length == 0 then None else t.buffer
  }

  /** A packet header; fields holds the 21 bytes from irpId to transfer. */
  function PacketHeader(size: nat, fields: seq<Byte>, dataLength: nat, more: seq<Byte>): (h: seq<Byte>)
    requires |fields| == 21
    ensures |h| == PACKET_HEADER + |more|
  {
    ((Encode16(size) + fields) + Encode32(dataLength)) + more
  }

  lemma PacketHeaderFits(fields: seq<Byte>, dataLength: nat, more: seq<Byte>)
    requires |fields| == 21 && dataLength < TWO_TO_32 && |more| <= 1
    ensures var h := PacketHeader(PACKET_HEADER + |more|, fields, dataLength, more);
      IsPacketHeader(h) && PacketDataLength(h) == dataLength && h[2..23] == fields && h[27..] == more
  {
    RoundTrip16(PACKET_HEADER + |more|);
    RoundTrip32(dataLength);
    Isochronous.HeaderFields(Encode16(PACKET_HEADER + |more|), fields, Encode32(dataLength), more);
  }

  /** A packet made of a transfer: what it announces and what it holds, behind what comes
      before the data. */
  ghost predicate Carries(p: Packet, t: Transfer, post: bool, front: seq<Byte>) {
    && IsPacketHeader(p.header)
    && PacketDataLength(p.header) == (|front| + (if t.inward == post then t.length else 0)) % TWO_TO_32
    && Gather(p.entries) == front + (if t.inward == post && t.buffer.Some? then t.buffer.value else [])
  }

  /** USBPcapAnalyzeControlTransfer: the setup packet, and what is written to the device,
      on submission; what was read from it on completion. */
  method AnalyzeControlTransfer(t: Transfer, fields: seq<Byte>, post: bool) returns (p: Packet)
    requires Valid(t) && |fields| == 21
    ensures Carries(p, t, post, if post then [] else t.setup)
    ensures |p.header| == 28 && p.header[2..23] == fields && p.header[27] == if post then 3 else 0
  {
    var dataBuffer := if t.length != 0 then BufferPointer(t) else None;
    var dataBufferLength := if t.length != 0 then t.length else 0;
    var dataLength: nat;
    var stage: Byte;
    var payload: seq<Payload>;
    if !post {
      dataLength, stage := 8, STAGE_SETUP;
      payload := [Some(t.setup), None, None];
      if !t.inward {
        dataLength := (dataLength + dataBufferLength) % TWO_TO_32;
        payload := payload[1 := dataBuffer];
      }
      assert payload == [Some(t.setup), if t.inward then None else BufferPointer(t), None];
    } else {
      dataLength, stage := 0, STAGE_COMPLETE;
      payload := [None, None];
      if t.inward {
        dataLength := (dataLength + dataBufferLength) % TWO_TO_32;
        payload := payload[0 := dataBuffer];
      }
      assert payload == [if t.inward then BufferPointer(t) else None, None];
    }
    ControlCarries(t, fields, post, dataLength, stage, payload);
    p := Packet(PacketHeader(CONTROL_HEADER, fields, dataLength, [stage]), payload);
  }

  lemma ControlCarries(t: Transfer, fields: seq<Byte>, post: bool, dataLength: nat, stage: Byte, payload: seq<Payload>)
    requires Valid(t) && |fields| == 21
    requires dataLength == ((if post then 0 else 8) + (if t.inward == post then t.length else 0)) % TWO_TO_32
    requires payload == if post then [if t.inward then BufferPointer(t) else None, None]
                        else [Some(t.setup), if t.inward then None else BufferPointer(t), None]
    ensures var p := Packet(PacketHeader(CONTROL_HEADER, fields, dataLength, [stage]), payload);
      && Carries(p, t, post, if post then [] else t.setup)
      && |p.header| == 28 && p.header[2..23] == fields && p.header[27] == stage
  {
    var h := PacketHeader(CONTROL_HEADER, fields, dataLength, [stage]);
    PacketHeaderFits(fields, dataLength, [stage]);
    assert h[27..][0] == stage;
    ControlEntries(t, post, payload);
  }

  /** The entries of a control packet, and what they hold. */
  lemma ControlEntries(t: Transfer, post: bool, payload: seq<Payload>)
    requires Valid(t)
    requires payload == if post then [if t.inward then BufferPointer(t) else None, None]
                        else [Some(t.setup), if t.inward then None else BufferPointer(t), None]
    ensures Gather(payload) ==
            (if post then [] else t.setup) + (if t.inward == post && t.buffer.Some? then t.buffer.value else [])
  {
    GatherTwo(payload);
    Sequences.Empty(t.setup);
  }

  lemma GatherTwo(payload: seq<Payload>)
    requires |payload| >= 2 && payload[|payload| - 1].None? && |payload| <= 3
    ensures Gather(payload) == if payload[0].None? then []
                               else payload[0].value
                                    + if |payload| == 3 && payload[1].Some? then payload[1].value else []
  {
    if payload[0].Some? {
      assert Gather(payload) == payload[0].value + Gather(payload[1..]);
      if |payload| == 3 && payload[1].Some? {
        assert Gather(payload[1..]) == payload[1].value + Gather(payload[1..][1..]);
        Sequences.Empty(payload[1].value);
      }
      Sequences.Empty(payload[0].value);
    }
  }

  /** URB_FUNCTION_BULK_OR_INTERRUPT_TRANSFER with USBPcapBufferWritePacket. */
  method AnalyzeBulkTransfer(t: Transfer, fields: seq<Byte>, post: bool) returns (p: Packet)
    requires Valid(t) && |fields| == 21
    ensures Carries(p, t, post, [])
    ensures |p.header| == 27 && p.header[2..23] == fields
  {
    var dataLength, transferBuffer := 0, None;
    if (t.inward && post) || (!t.inward && !post) {
      dataLength := t.length;
      transferBuffer := BufferPointer(t);
    }
    PacketHeaderFits(fields, dataLength, []);
    GatherTwo([transferBuffer, None]);
    p := Packet(PacketHeader(PACKET_HEADER, fields, dataLength, []), [transferBuffer, None]);
  }

  /** The producers' side of the pipeline's premise: the payload covers the announced
      length exactly when the data this packet should carry, if any, was mapped, or the
      announced length wraps around. */
  lemma HonestExactly(p: Packet, t: Transfer, post: bool, front: seq<Byte>, timestamp: nat, mapped: bool)
    requires Valid(t) && Carries(p, t, post, front) && |front| <= 8
    ensures HonestEvent(Store(timestamp, p.header, p.entries, mapped))
            <==> t.inward != post || t.length == 0 || t.buffer.Some? || |front| + t.length >= TWO_TO_32
  {
    Sequences.Empty(front);
  }

  /** Between submission and completion the data is stored once: one packet carries all
      of it and the other none. */
  lemma StoredOnce(submitted: Packet, completed: Packet, t: Transfer, front: seq<Byte>)
    requires Valid(t) && t.buffer.Some?
    requires Carries(submitted, t, false, front) && Carries(completed, t, true, []) && |front| + t.length < TWO_TO_32
    ensures Gather(submitted.entries)[|front|..] + Gather(completed.entries) == t.buffer.value
    ensures PacketDataLength(submitted.header) + PacketDataLength(completed.header) == |front| + t.length
    ensures Gather(submitted.entries)[..|front|] == front
    ensures if t.inward then Gather(submitted.entries) == front else Gather(completed.entries) == []
  {
    Parts(front, t.buffer.value, Gather(submitted.entries), Gather(completed.entries), t.inward);
    Lengths(|front|, t.length, PacketDataLength(submitted.header), PacketDataLength(completed.header), t.inward);
  }

  lemma Lengths(front: nat, data: nat, a: nat, b: nat, second: bool)
    requires a == (front + if second then 0 else data) % TWO_TO_32 && b == (if second then data else 0) % TWO_TO_32
    requires front + data < TWO_TO_32
    ensures a + b == front + data
  {}

  lemma Parts(front: seq<Byte>, data: seq<Byte>, a: seq<Byte>, b: seq<Byte>, second: bool)
    requires a == front + (if second then [] else data) && b == [] + (if second then data else [])
    ensures |front| <= |a| && a[|front|..] + b == data && a[..|front|] == front
    ensures if second then a == front else b == []
  {}

  /** An unmapped buffer of one to sixteen bytes slips through the ring's check, and its
      record is not whole; a longer one is refused. */
  lemma UnmappedExactly(p: Packet, t: Transfer, post: bool, front: seq<Byte>, snaplen: nat, timestamp: nat)
    requires Valid(t) && Carries(p, t, post, front) && t.inward == post && t.length > 0 && t.buffer.None?
    requires |p.header| + |front| + t.length < TWO_TO_32 && snaplen >= |p.header| + |front| + t.length
    ensures PassesCheck(snaplen, p.header, p.entries) <==> t.length <= RECORD_HEADER
    ensures !Framed(RecordBytes(snaplen, timestamp, p.header, p.entries))
  {
    Sequences.Empty(front);
    assert |Gather(p.entries)| == |front| && PacketDataLength(p.header) == |front| + t.length;
    ShortfallExactly(snaplen, timestamp, p.header, p.entries, t.length);
  }

  // ---------- requests with unknown functions ----------

  /** What is noted of a request when it is submitted. */
  datatype UrbInfo = UrbInfo(timestamp: nat, status: nat, urbFunction: nat)

  /** The table of the driver; insertion leaves an entry that is already there. */
  class UrbIrpTable {
    var table: map<nat, UrbInfo>

    constructor ()
      ensures table == map[]
    {
      table := map[];
    }

    method AddURBIRPInfo(irp: nat, info: UrbInfo)
      modifies this
      ensures table == Added(old(table), irp, info)
    {
      if irp !in table {
        table := table[irp := info];
      }
    }

    method ObtainURBIRPInfo(irp: nat) returns (info: Option<UrbInfo>)
      modifies this
      ensures info == if irp in old(table) then Some(old(table)[irp]) else None
      ensures table == old(table) - {irp}
    {
      if irp in table {
        info := Some(table[irp]);
        table := table - {irp};
      } else {
        info := None;
        assert table == table - {irp};
      }
    }
  }

  function Added(table: map<nat, UrbInfo>, irp: nat, info: UrbInfo): map<nat, UrbInfo> {
    if irp in table then table else table[irp := info]
  }

  /** captured says whether the device is in the capture at that moment, known whether
      the function the request has then is one the driver analyzes. */
  datatype UrbEvent = Submit(irp: nat, known: bool, captured: bool, info: UrbInfo)
                    | Return(irp: nat, captured: bool)

  /** inFlight holds what was submitted and has not returned; logged the submissions
      written late, when their requests returned. */
  datatype UrbWorld = UrbWorld(table: map<nat, UrbInfo>, inFlight: map<nat, UrbEvent>, logged: seq<UrbInfo>)

  /** The I/O manager: an IRP is submitted while not in flight, returned while it is. */
  predicate UrbEnabled(w: UrbWorld, e: UrbEvent) {
    e.Submit? <==> e.irp !in w.inFlight
  }

  function UrbNext(w: UrbWorld, e: UrbEvent): UrbWorld {
    match e
    case Submit(irp, known, captured, info) =>
      UrbWorld(if captured && !known then Added(w.table, irp, info) else w.table, w.inFlight[irp := e], w.logged)
    case Return(irp, captured) =>
      UrbWorld(w.table - {irp}, w.inFlight - {irp},
               if captured && irp in w.table then w.logged + [w.table[irp]] else w.logged)
  }

  predicate Noted(e: UrbEvent) {
    e.Submit? && e.captured && !e.known
  }

  /** The table holds exactly the noted submissions that are in flight, as submitted. */
  ghost predicate TableOk(w: UrbWorld) {
    && (forall irp :: irp in w.table <==> irp in w.inFlight && Noted(w.inFlight[irp]))
    && (forall irp :: irp in w.table ==> w.table[irp] == w.inFlight[irp].info)
  }

  function UrbRun(w: UrbWorld, es: seq<UrbEvent>): UrbWorld
    decreases |es|
  {
    if es == [] then w else UrbRun(UrbNext(w, es[0]), es[1..])
  }

  ghost predicate UrbLegal(w: UrbWorld, es: seq<UrbEvent>)
    decreases |es|
  {
    es == [] || (UrbEnabled(w, es[0]) && UrbLegal(UrbNext(w, es[0]), es[1..]))
  }

  /** The submissions that should have been logged: noted, and returned while captured. */
  function DueLog(w: UrbWorld, es: seq<UrbEvent>): seq<UrbInfo>
    decreases |es|
  {
    if es == [] then []
    else
      (if es[0].Return? && es[0].captured && es[0].irp in w.inFlight && Noted(w.inFlight[es[0].irp])
       then [w.inFlight[es[0].irp].info] else [])
      + DueLog(UrbNext(w, es[0]), es[1..])
  }

  /** In every run the table holds the noted submissions in flight and nothing else, so
      it is empty when nothing is, and each one that returns while captured is logged
      once, with the time and status of its submission. */
  lemma {:induction false} UnknownRequests(w: UrbWorld, es: seq<UrbEvent>)
    requires TableOk(w) && UrbLegal(w, es)
    ensures TableOk(UrbRun(w, es))
    ensures UrbRun(w, es).logged == w.logged + DueLog(w, es)
    ensures UrbRun(w, es).inFlight == map[] ==> UrbRun(w, es).table == map[]
    decreases |es|
  {
    if es == [] {
      Sequences.Empty(w.logged);
    } else {
      var n := UrbNext(w, es[0]);
      assert TableOk(n);
      UnknownRequests(n, es[1..]);
      if es[0].Return? && es[0].captured && es[0].irp in w.table {
        Sequences.Regroup(w.logged, [w.table[es[0].irp]], DueLog(n, es[1..]));
      } else {
        Sequences.Empty(DueLog(n, es[1..]));
      }
    }
  }
}
