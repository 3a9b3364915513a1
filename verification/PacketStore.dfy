/** What storing a packet means: the bytes appended to the capture stream for a
    packet header and its payload entries (USBPcapDriver/USBPcapBuffer.c,
    USBPcapBufferStorePacket), on an abstract ring. */
module PacketStore {
  import opened Wrappers
  import opened Bytes
  import opened Pcap
  import Sequences

  datatype Status = Success | InvalidParameter | InsufficientResources | BufferTooSmall
                  | Unsuccessful | AccessDenied | Pending | Cancelled

  const DEFAULT_SNAPLEN := 65535

  datatype Ring = NoBuffer | Buffer(size: nat, data: seq<Byte>)

  /** A payload entry; None is a NULL buffer, which ends the array. */
  type Payload = Option<seq<Byte>>

  /** All payload up to the first NULL entry. */
  function Gather(entries: seq<Payload>): (p: seq<Byte>)
  {
    if entries == [] || entries[0].None? then [] else entries[0].value + Gather(entries[1..])
  }

  /** The first n entries, up to a NULL one or all, are gathered end to end; what comes
      behind a NULL entry is not. */
  lemma {:induction false} GatherIsJoin(entries: seq<Payload>, blocks: seq<seq<Byte>>)
    requires |blocks| <= |entries| && forall i :: 0 <= i < |blocks| ==> entries[i] == Some(blocks[i])
    requires |blocks| < |entries| ==> entries[|blocks|] == None
    ensures Gather(entries) == Join(blocks)
  {
    if blocks != [] {
      GatherIsJoin(entries[1..], blocks[1..]);
    }
  }

  /** A packet header in memory: headerLen names the size of the structure. */
  predicate IsPacketHeader(header: seq<Byte>) {
    PACKET_HEADER <= |header| < TWO_TO_16 && PacketHeaderLen(header) == |header|
  }

  // 100 ns ticks since 1601 to Unix time; the seconds are cast to 32 bits.
  function Seconds(timestamp: nat): (n: nat)
    ensures n < TWO_TO_32
  {
    (timestamp / 10000000 - 11644473600) % TWO_TO_32
  }

  function Microseconds(timestamp: nat): (n: nat)
    ensures n < 1000000
  {
    timestamp % 10000000 / 10
  }

  /** orig_len: the 32-bit sum of header and payload length. */
  function OrigLength(header: seq<Byte>): (n: nat)
    requires IsPacketHeader(header)
    ensures n < TWO_TO_32
  {
    (|header| + PacketDataLength(header)) % TWO_TO_32
  }

  function InclLength(snaplen: nat, header: seq<Byte>): (n: nat)
    requires IsPacketHeader(header)
    ensures n <= snaplen && n < TWO_TO_32
  {
    Min(OrigLength(header), snaplen)
  }

  /** What is written for a packet that is accepted. */
  function RecordBytes(snaplen: nat, timestamp: nat, header: seq<Byte>, entries: seq<Payload>): (r: seq<Byte>)
    requires IsPacketHeader(header)
  {
    var incl := InclLength(snaplen, header);
    var h := Min(incl, |header|);
    var p := Gather(entries);
    RecordHeader(Seconds(timestamp), Microseconds(timestamp), incl, OrigLength(header))
      + header[..h] + p[..Min(|p|, incl - h)]
  }

  /** The sanity check on the payload, as it is coded: the record header's 16
      bytes are subtracted along with the packet header's. */
  predicate PassesCheck(snaplen: nat, header: seq<Byte>, entries: seq<Payload>)
    requires IsPacketHeader(header)
  {
    InclLength(snaplen, header) <= RECORD_HEADER + |header| + |Gather(entries)|
  }

  function StoreInRing(ring: Ring, snaplen: nat, timestamp: nat, header: seq<Byte>, entries: seq<Payload>)
    : (Ring, Status)
    requires IsPacketHeader(header)
  {
    if !PassesCheck(snaplen, header, entries) then (ring, InvalidParameter)
    else if ring.NoBuffer? || ring.size < 1 + |ring.data| + RECORD_HEADER + InclLength(snaplen, header) then
      (ring, InsufficientResources)
    else
      (Buffer(ring.size, ring.data + RecordBytes(snaplen, timestamp, header, entries)), Success)
  }

  function SetUpRing(ring: Ring, snaplen: nat, bytes: nat, memory: bool): (Ring, Status) {
    if bytes < 4096 || bytes > 134217728 then (ring, InvalidParameter)
    else if !memory then (ring, InsufficientResources)
    else match ring
      case NoBuffer => (Buffer(bytes, GlobalHeader(snaplen)), Success)
      case Buffer(_, data) =>
        if |data| >= bytes then (ring, BufferTooSmall) else (Buffer(bytes, data), Success)
  }

  /** The payload is long enough for what the record announces. A caller knows
      this before the call: it supplies the entries and the data length. */
  predicate SuppliesPayload(snaplen: nat, header: seq<Byte>, entries: seq<Payload>)
    requires IsPacketHeader(header)
  {
    InclLength(snaplen, header) <= |header| + |Gather(entries)|
  }

  /** A stored record is whole exactly when its payload is long enough. */
  lemma StoredFraming(snaplen: nat, timestamp: nat, header: seq<Byte>, entries: seq<Payload>)
    requires IsPacketHeader(header)
    ensures var r := RecordBytes(snaplen, timestamp, header, entries);
      && |r| >= RECORD_HEADER && InclLen(r) == InclLength(snaplen, header) <= snaplen
      && Decode32(r, 12) == OrigLength(header)
      && (Framed(r) <==> SuppliesPayload(snaplen, header, entries))
      && |r| <= RECORD_HEADER + InclLen(r)
      && (PassesCheck(snaplen, header, entries) ==> InclLen(r) <= |r|)
  {
    var incl := InclLength(snaplen, header);
    var h := Min(incl, |header|);
    var p := Gather(entries);
    var body := header[..h] + p[..Min(|p|, incl - h)];
    var rh := RecordHeader(Seconds(timestamp), Microseconds(timestamp), incl, OrigLength(header));
    RecordHeaderFields(Seconds(timestamp), Microseconds(timestamp), incl, OrigLength(header), body);
    Sequences.Regroup(rh, header[..h], p[..Min(|p|, incl - h)]);
  }

  /** A time of t seconds and us microseconds after the Unix epoch, in ticks of 100 ns
      since 1601, of which less than a microsecond is lost. */
  lemma TimestampParts(t: nat, us: nat, ticks: nat)
    requires us < 1000000 && ticks < 10
    ensures var timestamp := (t + 11644473600) * 10000000 + us * 10 + ticks;
      Seconds(timestamp) == t % TWO_TO_32 && Microseconds(timestamp) == us
  {
    var timestamp := (t + 11644473600) * 10000000 + us * 10 + ticks;
    assert timestamp / 10000000 == t + 11644473600;
    assert timestamp % 10000000 == us * 10 + ticks;
  }

  /** What is announced: the packet's full length, and as much of it as the snapshot
      length allows. */
  lemma AnnouncedLengths(snaplen: nat, timestamp: nat, header: seq<Byte>, entries: seq<Payload>)
    requires IsPacketHeader(header) && |header| + PacketDataLength(header) < TWO_TO_32
    ensures var r, length := RecordBytes(snaplen, timestamp, header, entries), |header| + PacketDataLength(header);
      && |r| >= RECORD_HEADER && Decode32(r, 12) == length
      && InclLen(r) == if length <= snaplen then length else snaplen
  {
    StoredFraming(snaplen, timestamp, header, entries);
  }

  /** What is stored of a packet that supplies its payload: the leading bytes of header
      and payload, as many as announced. */
  lemma StoredBytes(snaplen: nat, timestamp: nat, header: seq<Byte>, entries: seq<Payload>)
    requires IsPacketHeader(header) && SuppliesPayload(snaplen, header, entries)
    ensures var r := RecordBytes(snaplen, timestamp, header, entries);
      && |r| >= RECORD_HEADER && InclLen(r) <= |header + Gather(entries)|
      && r[RECORD_HEADER..] == (header + Gather(entries))[..InclLen(r)]
  {
    StoredFraming(snaplen, timestamp, header, entries);
    var incl, g := InclLength(snaplen, header), Gather(entries);
    var rh := RecordHeader(Seconds(timestamp), Microseconds(timestamp), incl, OrigLength(header));
    var h := Min(incl, |header|);
    Sequences.Regroup(rh, header[..h], g[..Min(|g|, incl - h)]);
    Sequences.DropBack(rh, header[..h] + g[..Min(|g|, incl - h)], 0);
  }

  /** Which packets are stored. One is refused for its payload when that is more than 16
      bytes short of what its record announces, and for want of room when there is no
      ring or the announced record does not leave a byte of it free. A refused packet
      changes nothing, and a stored one adds its record and nothing else. */
  lemma StoreExactly(ring: Ring, snaplen: nat, timestamp: nat, header: seq<Byte>, entries: seq<Payload>)
    requires IsPacketHeader(header)
    ensures var (after, status) := StoreInRing(ring, snaplen, timestamp, header, entries);
            var r := RecordBytes(snaplen, timestamp, header, entries);
      && |r| >= RECORD_HEADER
      && (status == InvalidParameter <==> InclLen(r) > |header| + |Gather(entries)| + 16)
      && (status == Success <==> status != InvalidParameter && ring.Buffer?
                                 && |ring.data| + RECORD_HEADER + InclLen(r) < ring.size)
      && (status == InsufficientResources <==> status != InvalidParameter && status != Success)
      && after == if status == Success then Buffer(ring.size, ring.data + r) else ring
  {
    StoredFraming(snaplen, timestamp, header, entries);
  }

  /** So a packet that supplies its payload is stored exactly when there is a ring with
      room for its record. */
  lemma StoredWhenItFits(ring: Ring, snaplen: nat, timestamp: nat, header: seq<Byte>, entries: seq<Payload>)
    requires IsPacketHeader(header) && |Gather(entries)| >= PacketDataLength(header)
    ensures StoreInRing(ring, snaplen, timestamp, header, entries).1 == Success <==>
            ring.Buffer? && |ring.data| + |RecordBytes(snaplen, timestamp, header, entries)| < ring.size
  {
    DataLengthSuffices(snaplen, header, entries);
    StoredFraming(snaplen, timestamp, header, entries);
    StoreExactly(ring, snaplen, timestamp, header, entries);
  }

  /** When a ring is set up or resized, to what, and why not. */
  lemma SetUpExactly(ring: Ring, snaplen: nat, bytes: nat, memory: bool)
    ensures var (after, status) := SetUpRing(ring, snaplen, bytes, memory);
      && (status == InvalidParameter <==> bytes < 4 * 1024 || bytes > 128 * 1024 * 1024)
      && (status == InsufficientResources <==> status != InvalidParameter && !memory)
      && (status == BufferTooSmall <==> status != InvalidParameter && memory && ring.Buffer? && |ring.data| >= bytes)
      && (status == Success <==> 4 * 1024 <= bytes <= 128 * 1024 * 1024 && memory
                                 && (ring.Buffer? ==> |ring.data| < bytes))
      && after == if status == Success
                  then Buffer(bytes, if ring.Buffer? then ring.data else GlobalHeader(snaplen))
                  else ring
  {}

  /** Entries that supply the header's data length supply enough under any snaplen. */
  lemma DataLengthSuffices(snaplen: nat, header: seq<Byte>, entries: seq<Payload>)
    requires IsPacketHeader(header) && |Gather(entries)| >= PacketDataLength(header)
    ensures SuppliesPayload(snaplen, header, entries) && PassesCheck(snaplen, header, entries)
  {}

  /** How much the check misses: a packet that fits the snapshot length and is n bytes
      short of the payload it announces passes exactly when n is at most 16, and is
      never stored whole. */
  lemma ShortfallExactly(snaplen: nat, timestamp: nat, header: seq<Byte>, entries: seq<Payload>, n: nat)
    requires IsPacketHeader(header) && n > 0 && |Gather(entries)| + n == PacketDataLength(header)
    requires |header| + PacketDataLength(header) < TWO_TO_32 && |header| + PacketDataLength(header) <= snaplen
    ensures PassesCheck(snaplen, header, entries) <==> n <= RECORD_HEADER
    ensures !Framed(RecordBytes(snaplen, timestamp, header, entries))
  {
    assert InclLength(snaplen, header) == |header| + PacketDataLength(header);
    StoredFraming(snaplen, timestamp, header, entries);
  }

  /** The check lets a packet pass whose payload is missing: its record announces
      28 bytes and holds 27. */
  lemma CheckMissesShortfall(timestamp: nat)
    ensures var header := Encode16(27) + seq(21, _ => 0) + Encode32(1);
      && IsPacketHeader(header)
      && PassesCheck(DEFAULT_SNAPLEN, header, [])
      && !Framed(RecordBytes(DEFAULT_SNAPLEN, timestamp, header, []))
      && |RecordBytes(DEFAULT_SNAPLEN, timestamp, header, [])| == RECORD_HEADER + 27
  {
    var header: seq<Byte> := Encode16(27) + seq(21, _ => 0) + Encode32(1);
    assert PacketHeaderLen(header) == 27;
    assert header[23..27] == Encode32(1);
    assert PacketDataLength(header) == 1;
    StoredFraming(DEFAULT_SNAPLEN, timestamp, header, []);
  }

  /** One step of a loop over the entries: done has been gathered before entry i. */
  lemma GatherNext(entries: seq<Payload>, i: nat, done: seq<Byte>)
    requires i <= |entries| && Gather(entries) == done + Gather(entries[i..])
    ensures i == |entries| || entries[i].None? ==> Gather(entries) == done
    ensures i < |entries| && entries[i].Some? ==>
            Gather(entries) == (done + entries[i].value) + Gather(entries[i + 1..])
  {}
}
