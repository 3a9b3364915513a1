/** The descriptor records injected behind the global header (USBPcapCMD/descriptors.c):
    control packets collected in a list, and the list laid out as capture records. */
module Descriptors {
  import opened Wrappers
  import opened Bytes
  import opened Pcap
  import opened PacketStore
  import opened CaptureReader
  import opened CaptureFile
  import Sequences
  import AddressFilter

  const TRANSFER_CONTROL := 2

  const URB_SELECT_CONFIGURATION := 0x0000
  const URB_CONTROL_TRANSFER := 0x0008
  const URB_GET_DESCRIPTOR_FROM_DEVICE := 0x000b

  // ---------- control packets ----------

  /** The fields of a control packet's header up to the data length, in order. */
  function HeaderFront(bus: nat, device: nat, urbFunction: nat, fromPDO: bool, outward: bool): (h: seq<Byte>)
    ensures |h| == 23
  {
    (Encode16(CONTROL_HEADER) + [0, 0, 0, 0, 0, 0, 0, 0] + [0, 0, 0, 0] + Encode16(urbFunction)
     + [if fromPDO then 1 else 0] + Encode16(bus))
    + (Encode16(device) + [if outward then 0x00 else 0x80, TRANSFER_CONTROL])
  }

  function ControlPacket(bus: nat, device: nat, urbFunction: nat, stage: Byte, fromPDO: bool, outward: bool,
                         payload: seq<Byte>): (p: seq<Byte>)
    ensures |p| == CONTROL_HEADER + |payload|
  {
    ((HeaderFront(bus, device, urbFunction, fromPDO, outward) + Encode32(|payload|)) + [stage]) + payload
  }

  /** The eight bytes of a setup packet. */
  function Setup(requestType: Byte, request: Byte, value: nat, index: nat, length: nat): (s: seq<Byte>)
    ensures |s| == 8
  {
    [requestType, request] + Encode16(value) + Encode16(index) + Encode16(length)
  }

  /** A packet as the records need it: a header that knows its length, of a control
      transfer of the device, announcing exactly the payload that follows. */
  ghost predicate IsControlPacket(p: seq<Byte>, device: nat) {
    && |p| >= CONTROL_HEADER && |p| - CONTROL_HEADER < TWO_TO_32
    && PacketHeaderLen(p) == CONTROL_HEADER && PacketDataLength(p) == |p| - CONTROL_HEADER
    && PacketDevice(p) == device && PacketTransfer(p) == TRANSFER_CONTROL
    && (PacketEndpoint(p) == 0x00 || PacketEndpoint(p) == 0x80)
  }

  lemma FrontFields(bus: nat, device: nat, urbFunction: nat, fromPDO: bool, outward: bool, rest: seq<Byte>)
    requires device < TWO_TO_16
    ensures var p := HeaderFront(bus, device, urbFunction, fromPDO, outward) + rest;
      && Decode16(p, 0) == CONTROL_HEADER && Decode16(p, 19) == device
      && p[21] == (if outward then 0x00 else 0x80) && p[22] == TRANSFER_CONTROL
  {}

  lemma ControlPacketFits(bus: nat, device: nat, urbFunction: nat, stage: Byte, fromPDO: bool, outward: bool,
                          payload: seq<Byte>)
    requires device < TWO_TO_16 && |payload| < TWO_TO_32
    ensures var p := ControlPacket(bus, device, urbFunction, stage, fromPDO, outward, payload);
      IsControlPacket(p, device) && p[CONTROL_HEADER..] == payload
  {
    var f := HeaderFront(bus, device, urbFunction, fromPDO, outward);
    var d := Encode32(|payload|);
    var p := ControlPacket(bus, device, urbFunction, stage, fromPDO, outward, payload);
    RoundTrip32(|payload|);
    Sequences.Regroup(f + d, [stage], payload);
    DecodeWithin(f, d, [stage] + payload);
    Sequences.Regroup(f, d, [stage] + payload);
    FrontFields(bus, device, urbFunction, fromPDO, outward, d + ([stage] + payload));
    Sequences.DropBack((f + d) + [stage], payload, 0);
  }

  /** A control packet, field by field: request id and status zero, the bus and the device,
      the end point's direction, and whether it is the setup or the completion. */
  ghost predicate Describes(p: seq<Byte>, bus: nat, device: nat, urbFunction: nat, complete: bool, endpoint: Byte,
                            payload: seq<Byte>)
  {
    && |p| == 28 + |payload| && Decode16(p, 0) == 28 && p[2..14] == seq(12, _ => 0)
    && Decode16(p, 14) == urbFunction && p[16] == (if complete then 1 else 0)
    && Decode16(p, 17) == bus && Decode16(p, 19) == device && p[21] == endpoint && p[22] == 2
    && Decode32(p, 23) == |payload| && p[27] == (if complete then 3 else 0) && p[28..] == payload
  }

  lemma ControlPacketDescribes(bus: nat, device: nat, urbFunction: nat, complete: bool, outward: bool,
                               payload: seq<Byte>)
    requires bus < TWO_TO_16 && device < TWO_TO_16 && urbFunction < TWO_TO_16 && |payload| < TWO_TO_32
    ensures Describes(ControlPacket(bus, device, urbFunction, if complete then STAGE_COMPLETE else STAGE_SETUP,
                                    complete, outward, payload),
                      bus, device, urbFunction, complete, if outward then 0x00 else 0x80, payload)
  {
    var stage: Byte := if complete then STAGE_COMPLETE else STAGE_SETUP;
    var p := ControlPacket(bus, device, urbFunction, stage, complete, outward, payload);
    var a, b, c, d := Encode16(urbFunction), Encode16(bus), Encode16(device), Encode32(|payload|);
    RoundTrip16(CONTROL_HEADER);
    RoundTrip16(urbFunction);
    RoundTrip16(bus);
    RoundTrip16(device);
    RoundTrip32(|payload|);
    var f := HeaderFront(bus, device, urbFunction, complete, outward);
    assert p[..23] == f;
    assert forall k :: 0 <= k < 23 ==> p[k] == f[k];
    assert p[23] == d[0] && p[24] == d[1] && p[25] == d[2] && p[26] == d[3];
    assert f[14] == a[0] && f[15] == a[1] && f[17] == b[0] && f[18] == b[1] && f[19] == c[0] && f[20] == c[1];
  }

  /** The eight bytes as the USB specification lays them out, section 9.3 of USB 2.0. */
  lemma SetupBytes(requestType: Byte, request: Byte, v0: Byte, v1: Byte, i0: Byte, i1: Byte, l0: Byte, l1: Byte)
    ensures Setup(requestType, request, v0 + 0x100 * v1, i0 + 0x100 * i1, l0 + 0x100 * l1)
            == [requestType, request, v0, v1, i0, i1, l0, l1]
  {
    LittleEndian(v0, v1, 0, 0);
    LittleEndian(i0, i1, 0, 0);
    LittleEndian(l0, l1, 0, 0);
  }

  // ---------- the list ----------

  /** What a device answers: its device descriptor and, if it could be read, the
      configuration descriptor with the request that read it. */
  datatype ConfigRequest = ConfigRequest(requestType: Byte, request: Byte, value: nat, index: nat, data: seq<Byte>)

  datatype DeviceAnswer = DeviceAnswer(device: nat, descriptor: seq<Byte>, config: Option<ConfigRequest>)

  predicate WellSized(a: DeviceAnswer) {
    && a.device < TWO_TO_16 && |a.descriptor| == 18
    && (a.config.Some? ==> 9 <= |a.config.value.data| < TWO_TO_16)
  }

  function ConfigPackets(bus: nat, device: nat, c: ConfigRequest): seq<seq<Byte>>
    requires |c.data| >= 9
  {
    [ControlPacket(bus, device, URB_GET_DESCRIPTOR_FROM_DEVICE, STAGE_SETUP, false, false,
                   Setup(c.requestType, c.request, c.value, c.index, |c.data|)),
     ControlPacket(bus, device, URB_CONTROL_TRANSFER, STAGE_COMPLETE, true, false, c.data),
     ControlPacket(bus, device, URB_SELECT_CONFIGURATION, STAGE_SETUP, false, true, Setup(0x00, 9, c.data[5], 0, 0)),
     ControlPacket(bus, device, URB_SELECT_CONFIGURATION, STAGE_COMPLETE, true, true, [])]
  }

  /** The packets of one device. */
  function PacketsOf(bus: nat, a: DeviceAnswer): seq<seq<Byte>>
    requires WellSized(a)
  {
    [ControlPacket(bus, a.device, URB_GET_DESCRIPTOR_FROM_DEVICE, STAGE_SETUP, false, false,
                   Setup(0x80, 6, 0x100, 0, 18)),
     ControlPacket(bus, a.device, URB_CONTROL_TRANSFER, STAGE_COMPLETE, true, false, a.descriptor)]
    + if a.config.Some? then ConfigPackets(bus, a.device, a.config.value) else []
  }

  ghost predicate AllControl(list: seq<seq<Byte>>, device: nat) {
    forall k :: 0 <= k < |list| ==> IsControlPacket(list[k], device)
  }

  lemma PacketsOfDevice(bus: nat, a: DeviceAnswer)
    requires WellSized(a)
    ensures AllControl(PacketsOf(bus, a), a.device)
  {
    ControlPacketFits(bus, a.device, URB_GET_DESCRIPTOR_FROM_DEVICE, STAGE_SETUP, false, false,
                      Setup(0x80, 6, 0x100, 0, 18));
    ControlPacketFits(bus, a.device, URB_CONTROL_TRANSFER, STAGE_COMPLETE, true, false, a.descriptor);
    if a.config.Some? {
      var c := a.config.value;
      ControlPacketFits(bus, a.device, URB_GET_DESCRIPTOR_FROM_DEVICE, STAGE_SETUP, false, false,
                        Setup(c.requestType, c.request, c.value, c.index, |c.data|));
      ControlPacketFits(bus, a.device, URB_CONTROL_TRANSFER, STAGE_COMPLETE, true, false, c.data);
      ControlPacketFits(bus, a.device, URB_SELECT_CONFIGURATION, STAGE_SETUP, false, true,
                        Setup(0x00, 9, c.data[5], 0, 0));
      ControlPacketFits(bus, a.device, URB_SELECT_CONFIGURATION, STAGE_COMPLETE, true, true, []);
    }
  }

  lemma ConfigAsked(bus: nat, device: nat, c: ConfigRequest)
    requires bus < TWO_TO_16 && device < TWO_TO_16 && 9 <= |c.data| < TWO_TO_16
    requires c.value < TWO_TO_16 && c.index < TWO_TO_16
    ensures var ps := ConfigPackets(bus, device, c);
      && (exists s: seq<Byte> ::
            && Describes(ps[0], bus, device, 0x000b, false, 0x80, s) && |s| == 8 && s[..2] == [c.requestType, c.request]
            && Decode16(s, 2) == c.value && Decode16(s, 4) == c.index && Decode16(s, 6) == |c.data|)
      && Describes(ps[1], bus, device, 0x0008, true, 0x80, c.data)
  {
    var s := Setup(c.requestType, c.request, c.value, c.index, |c.data|);
    SetupFields(c.requestType, c.request, c.value, c.index, |c.data|);
    ControlPacketDescribes(bus, device, 0x000b, false, false, s);
    ControlPacketDescribes(bus, device, 0x0008, true, false, c.data);
  }

  lemma ConfigSet(bus: nat, device: nat, c: ConfigRequest)
    requires bus < TWO_TO_16 && device < TWO_TO_16 && 9 <= |c.data|
    ensures var ps := ConfigPackets(bus, device, c);
      && |ps| == 4
      && Describes(ps[2], bus, device, 0x0000, false, 0x00, [0x00, 9, c.data[5], 0, 0, 0, 0, 0])
      && Describes(ps[3], bus, device, 0x0000, true, 0x00, [])
  {
    SetupBytes(0x00, 9, c.data[5], 0, 0, 0, 0, 0);
    ControlPacketDescribes(bus, device, 0x0000, false, true, Setup(0x00, 9, c.data[5], 0, 0));
    ControlPacketDescribes(bus, device, 0x0000, true, true, []);
  }

  lemma SetupFields(requestType: Byte, request: Byte, value: nat, index: nat, length: nat)
    requires value < TWO_TO_16 && index < TWO_TO_16 && length < TWO_TO_16
    ensures var s := Setup(requestType, request, value, index, length);
      s[..2] == [requestType, request] && Decode16(s, 2) == value && Decode16(s, 4) == index && Decode16(s, 6) == length
  {
    RoundTrip16(value);
    RoundTrip16(index);
    RoundTrip16(length);
  }

  /** The packets of a device: its device descriptor asked for and given; then, if it was
      read, its configuration descriptor asked for and given, and its configuration set
      to the one described (ConfigAsked, ConfigSet). */
  lemma PacketsMeaning(bus: nat, a: DeviceAnswer)
    requires WellSized(a) && bus < TWO_TO_16
    ensures var ps := PacketsOf(bus, a);
      && |ps| == (if a.config.Some? then 6 else 2)
      && Describes(ps[0], bus, a.device, 0x000b, false, 0x80, [0x80, 6, 0, 1, 0, 0, 18, 0])
      && Describes(ps[1], bus, a.device, 0x0008, true, 0x80, a.descriptor)
      && (a.config.Some? ==> ps[2..] == ConfigPackets(bus, a.device, a.config.value))
  {
    SetupBytes(0x80, 6, 0, 1, 0, 0, 18, 0);
    ControlPacketDescribes(bus, a.device, 0x000b, false, false, Setup(0x80, 6, 0x100, 0, 18));
    ControlPacketDescribes(bus, a.device, 0x0008, true, false, a.descriptor);
  }

  /** descriptor_callback_context: the packets collected so far, in order. */
  class Context {
    const roothub: nat
    const addresses: AddressFilter.Filter
    var list: seq<seq<Byte>>

    constructor (bus: nat, filter: AddressFilter.Filter)
      ensures roothub == bus && addresses == filter && list == []
    {
      roothub, addresses, list := bus, filter, [];
    }

    method AddToList(data: seq<Byte>)
      modifies this
      ensures list == old(list) + [data]
    {
      list := list + [data];
    }

    method WriteSetupPacket(urbFunction: nat, device: nat, requestType: Byte, request: Byte, value: nat, index: nat,
                            length: nat, outward: bool)
      modifies this
      ensures list == old(list) + [ControlPacket(roothub, device, urbFunction, STAGE_SETUP, false, outward,
                                                 Setup(requestType, request, value, index, length))]
    {
      AddToList(ControlPacket(roothub, device, urbFunction, STAGE_SETUP, false, outward,
                              Setup(requestType, request, value, index, length)));
    }

    method WriteCompletePacket(urbFunction: nat, device: nat, payload: seq<Byte>, outward: bool)
      modifies this
      ensures list == old(list) + [ControlPacket(roothub, device, urbFunction, STAGE_COMPLETE, true, outward, payload)]
    {
      AddToList(ControlPacket(roothub, device, urbFunction, STAGE_COMPLETE, true, outward, payload));
    }

    /** Devices outside the capture's address filter are passed over. */
    method DescriptorCallback(a: DeviceAnswer)
      requires WellSized(a) && addresses.Valid()
      modifies this
      ensures list == old(list) +
                      if addresses.filterAll || !AddressFilter.IsAddress(a.device) || addresses.Has(a.device)
                      then PacketsOf(roothub, a) else []
    {
      var wanted := addresses.IsDeviceFiltered(a.device);
      if !wanted {
        return;
      }
      WriteSetupPacket(URB_GET_DESCRIPTOR_FROM_DEVICE, a.device, 0x80, 6, 0x100, 0, 18, false);
      WriteCompletePacket(URB_CONTROL_TRANSFER, a.device, a.descriptor, false);
      if a.config.Some? {
        WriteConfiguration(a.device, a.config.value);
      }
    }

    method WriteConfiguration(device: nat, c: ConfigRequest)
      requires |c.data| >= 9
      modifies this
      ensures list == old(list) + ConfigPackets(roothub, device, c)
    {
      WriteSetupPacket(URB_GET_DESCRIPTOR_FROM_DEVICE, device, c.requestType, c.request, c.value, c.index, |c.data|,
                       false);
      WriteCompletePacket(URB_CONTROL_TRANSFER, device, c.data, false);
      WriteSetupPacket(URB_SELECT_CONFIGURATION, device, 0x00, 9, c.data[5], 0, 0, true);
      WriteCompletePacket(URB_SELECT_CONFIGURATION, device, [], true);
    }
  }

  // ---------- the records ----------

  function DescriptorRecord(time: nat, data: seq<Byte>): (r: seq<Byte>)
    ensures |r| == RECORD_HEADER + |data|
  {
    RecordHeader(Seconds(time), Microseconds(time), |data|, |data|) + data
  }

  function RecordList(times: seq<nat>, list: seq<seq<Byte>>): (rs: seq<seq<Byte>>)
    requires |times| == |list|
    ensures |rs| == |list| && forall k :: 0 <= k < |rs| ==> rs[k] == DescriptorRecord(times[k], list[k])
  {
    seq(|list|, k requires 0 <= k < |list| => DescriptorRecord(times[k], list[k]))
  }

  function TotalLength(list: seq<seq<Byte>>): nat {
    if list == [] then 0 else TotalLength(list[..|list| - 1]) + (RECORD_HEADER + |list[|list| - 1]|)
  }

  lemma PrefixStep(times: seq<nat>, list: seq<seq<Byte>>, i: nat)
    requires |times| == |list| && i < |list|
    ensures TotalLength(list[..i + 1]) == TotalLength(list[..i]) + (RECORD_HEADER + |list[i]|)
    ensures Join(RecordList(times[..i + 1], list[..i + 1])) ==
            Join(RecordList(times[..i], list[..i])) + DescriptorRecord(times[i], list[i])
  {
    assert list[..i + 1][..i] == list[..i];
    assert RecordList(times[..i + 1], list[..i + 1]) ==
           RecordList(times[..i], list[..i]) + [DescriptorRecord(times[i], list[i])];
    JoinOne(RecordList(times[..i], list[..i]), DescriptorRecord(times[i], list[i]));
  }

  lemma {:induction false} TotalGrows(list: seq<seq<Byte>>, i: nat)
    requires i <= |list|
    ensures TotalLength(list[..i]) <= TotalLength(list)
  {
    if i == |list| {
      assert list[..i] == list;
    } else {
      TotalGrows(list[..|list| - 1], i);
      assert list[..|list| - 1][..i] == list[..i];
    }
  }

  /** The first i records. */
  ghost predicate LaidOut(times: seq<nat>, list: seq<seq<Byte>>, i: nat, bytes: seq<Byte>) {
    |times| == |list| && i <= |list| && bytes == Join(RecordList(times[..i], list[..i]))
  }

  lemma LaidOutStep(times: seq<nat>, list: seq<seq<Byte>>, i: nat, bytes: seq<Byte>)
    requires LaidOut(times, list, i, bytes) && i < |list|
    ensures LaidOut(times, list, i + 1, bytes + DescriptorRecord(times[i], list[i]))
    ensures TotalLength(list[..i]) + (RECORD_HEADER + |list[i]|) == TotalLength(list[..i + 1]) <= TotalLength(list)
  {
    PrefixStep(times, list, i);
    TotalGrows(list, i + 1);
  }

  lemma AllLaidOut(times: seq<nat>, list: seq<seq<Byte>>, bytes: seq<Byte>)
    requires LaidOut(times, list, |list|, bytes)
    ensures bytes == Join(RecordList(times, list)) && TotalLength(list[..|list|]) == TotalLength(list)
  {
    Sequences.TakeAll(list);
    Sequences.TakeAll(times);
  }

  /** One round of the second loop. */
  method LayOut(pcap: array<Byte>, offset: nat, time: nat, data: seq<Byte>)
    requires offset + RECORD_HEADER + |data| <= pcap.Length
    modifies pcap
    ensures pcap[..offset + RECORD_HEADER + |data|] == old(pcap[..offset]) + DescriptorRecord(time, data)
  {
    ghost var done := pcap[..offset];
    var header := RecordHeader(Seconds(time), Microseconds(time), |data|, |data|);
    ghost var before := pcap[..];
    CopyInto(pcap, offset, header);
    OverwrittenFront(before, offset, header);
    assert pcap[..offset + RECORD_HEADER] == done + header;
    ghost var between := pcap[..];
    CopyInto(pcap, offset + RECORD_HEADER, data);
    OverwrittenFront(between, offset + RECORD_HEADER, data);
    assert pcap[..offset + RECORD_HEADER + |data|] == (done + header) + data;
    Sequences.Regroup(done, header, data);
  }

  /** The first loop. */
  method SumLengths(list: seq<seq<Byte>>) returns (total: nat)
    ensures total == TotalLength(list)
  {
    total := 0;
    for i := 0 to |list|
      invariant total == TotalLength(list[..i])
    {
      assert list[..i + 1][..i] == list[..i];
      total := total + RECORD_HEADER;
      total := total + |list[i]|;
    }
    assert list[..|list|] == list;
  }

  /** generate_pcap_packets: the length is summed first, then the records are laid out
      one after the other; they fill the block exactly. */
  method GeneratePcapPackets(times: seq<nat>, list: seq<seq<Byte>>) returns (pcap: array<Byte>)
    requires |times| == |list|
    ensures fresh(pcap) && pcap[..] == Join(RecordList(times, list))
  {
    var total := SumLengths(list);
    pcap := new Byte[total](_ => 0);
    var offset: nat := 0;
    for i := 0 to |list|
      invariant offset == TotalLength(list[..i]) <= total
      invariant LaidOut(times, list, i, pcap[..offset])
    {
      LaidOutStep(times, list, i, pcap[..offset]);
      LayOut(pcap, offset, times[i], list[i]);
      offset := offset + RECORD_HEADER + |list[i]|;
    }
    AllLaidOut(times, list, pcap[..offset]);
    assert pcap[..offset] == pcap[..];
  }

  /** What the reader makes of a descriptor record. */
  lemma DescriptorRoundTrip(time: nat, data: seq<Byte>, device: nat)
    requires IsControlPacket(data, device) && |data| < TWO_TO_32
    ensures var r := DescriptorRecord(time, data);
      && Framed(r) && InclLen(r) == |data|
      && ParseRecord(r).tsSec == Seconds(time) && ParseRecord(r).tsUsec == Microseconds(time)
      && ParseRecord(r).origLen == |data|
      && ParseRecord(r).device == device && ParseRecord(r).transfer == TRANSFER_CONTROL
      && ParseRecord(r).payload == data[CONTROL_HEADER..] && ParseRecord(r).dataLen == |data| - CONTROL_HEADER
  {
    RecordHeaderFields(Seconds(time), Microseconds(time), |data|, |data|, data);
    assert data[CONTROL_HEADER..|data|] == data[CONTROL_HEADER..];
  }

  /** The generated block is what the pipeline asks of injected descriptors: whole
      records, short enough to be read, which come back one for one. */
  lemma DescriptorsAreRecords(times: seq<nat>, list: seq<seq<Byte>>)
    requires |times| == |list|
    requires forall k :: 0 <= k < |list| ==> |list[k]| <= MAX_RECORD_SIZE
    ensures var ds := RecordList(times, list);
      && AllFramed(ds) && ShortEnough(ds)
      && Cut(Join(ds)) == Pieces(ds, [])
      && ReadAll(Join(ds)) == Reading(ParseAll(ds), None)
  {
    var ds := RecordList(times, list);
    forall k | 0 <= k < |ds| ensures Framed(ds[k]) && InclLen(ds[k]) == |list[k]| {
      RecordHeaderFields(Seconds(times[k]), Microseconds(times[k]), |list[k]|, |list[k]|, list[k]);
    }
    CutJoin(ds, []);
    Sequences.Empty(Join(ds));
    Sequences.Empty(ds);
    ReadWhole(ds, []);
  }
}
