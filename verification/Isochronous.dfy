/** Compaction of inbound isochronous transfers (USBPcapDriver/USBPcapURB.c, case
    URB_FUNCTION_ISOCH_TRANSFER): the packets' data is captured without the gaps
    between them, and the packet table is rewritten to match. */
module Isochronous {
  import opened Wrappers
  import opened Bytes
  import opened Pcap
  import opened PacketStore
  import CaptureSession
  import Sequences

  datatype IsoPacket = IsoPacket(offset: nat, length: nat, status: nat)

  predicate WordSized(packets: seq<IsoPacket>) {
    forall i :: 0 <= i < |packets| ==>
      packets[i].offset < TWO_TO_32 && packets[i].length < TWO_TO_32 && packets[i].status < TWO_TO_32
  }

  /** Every packet lies inside the transfer buffer. */
  predicate InBounds(packets: seq<IsoPacket>, buffer: seq<Byte>) {
    forall i :: 0 <= i < |packets| ==> packets[i].offset + packets[i].length <= |buffer|
  }

  function Total(packets: seq<IsoPacket>): nat {
    if packets == [] then 0 else Total(packets[..|packets| - 1]) + packets[|packets| - 1].length
  }

  function SourceOf(packet: IsoPacket, buffer: seq<Byte>): (b: seq<Byte>)
    requires packet.offset + packet.length <= |buffer|
    ensures |b| == packet.length
  {
    buffer[packet.offset..packet.offset + packet.length]
  }

  /** The rewritten table: offsets are running 32-bit sums of the lengths. */
  function Rewritten(packets: seq<IsoPacket>): (r: seq<IsoPacket>)
    ensures |r| == |packets|
  {
    seq(|packets|, i requires 0 <= i < |packets| =>
      IsoPacket(Total(packets[..i]) % TWO_TO_32, packets[i].length, packets[i].status))
  }

  /** The payload entries pointing at the original data, and the terminator. */
  function Sources(packets: seq<IsoPacket>, buffer: seq<Byte>): (e: seq<Payload>)
    requires InBounds(packets, buffer)
    ensures |e| == |packets| + 1
  {
    seq(|packets|, i requires 0 <= i < |packets| => Some(SourceOf(packets[i], buffer))) + [None]
  }

  lemma TotalStep(packets: seq<IsoPacket>, i: nat)
    requires i < |packets|
    ensures Total(packets[..i + 1]) == Total(packets[..i]) + packets[i].length
  {
    assert packets[..i + 1][..i] == packets[..i];
  }

  lemma {:induction false} TotalGrows(packets: seq<IsoPacket>, i: nat, j: nat)
    requires i <= j <= |packets|
    ensures Total(packets[..i]) <= Total(packets[..j])
    decreases j - i
  {
    if i < j {
      TotalStep(packets, j - 1);
      TotalGrows(packets, i, j - 1);
    }
  }

  datatype Compacted = Compacted(dataLength: nat, packets: seq<IsoPacket>, entries: seq<Payload>)

  lemma AddWrapped(a: nat, b: nat)
    ensures (a % TWO_TO_32 + b) % TWO_TO_32 == (a + b) % TWO_TO_32
  {}

  /** The loop summing the lengths, in 32 bits. */
  method SumLengths(packets: seq<IsoPacket>) returns (compactedLength: nat)
    ensures compactedLength == Total(packets) % TWO_TO_32
  {
    compactedLength := 0;
    for i := 0 to |packets|
      invariant compactedLength == Total(packets[..i]) % TWO_TO_32
    {
      TotalStep(packets, i);
      AddWrapped(Total(packets[..i]), packets[i].length);
      compactedLength := (compactedLength + packets[i].length) % TWO_TO_32;
    }
    assert packets[..|packets|] == packets;
  }

  /** The loop adjusting the offsets and collecting the payload entries. */
  method CloseGaps(packets: seq<IsoPacket>, buffer: seq<Byte>) returns (table: seq<IsoPacket>, entries: seq<Payload>)
    requires InBounds(packets, buffer)
    ensures table == Rewritten(packets) && entries == Sources(packets, buffer)
  {
    table, entries := [], [];
    var compactedOffset := 0;
    for i := 0 to |packets|
      invariant compactedOffset == Total(packets[..i]) % TWO_TO_32
      invariant table == Rewritten(packets)[..i]
      invariant entries == Sources(packets, buffer)[..i]
    {
      TotalStep(packets, i);
      AddWrapped(Total(packets[..i]), packets[i].length);
      Sequences.SnocTake(Rewritten(packets), i);
      Sequences.SnocTake(Sources(packets, buffer), i);
      table := table + [IsoPacket(compactedOffset, packets[i].length, packets[i].status)];
      entries := entries + [Some(buffer[packets[i].offset..packets[i].offset + packets[i].length])];
      compactedOffset := (compactedOffset + packets[i].length) % TWO_TO_32;
    }
    entries := entries + [None];
  }

  /** None: the lengths exceed the transfer buffer length and nothing is captured. */
  method Compact(packets: seq<IsoPacket>, transferBufferLength: nat, buffer: seq<Byte>) returns (r: Option<Compacted>)
    requires InBounds(packets, buffer) && transferBufferLength < TWO_TO_32
    ensures r == if Total(packets) % TWO_TO_32 > transferBufferLength then None
                 else Some(Compacted(Total(packets) % TWO_TO_32, Rewritten(packets), Sources(packets, buffer)))
  {
    var compactedLength := SumLengths(packets);
    if compactedLength > transferBufferLength {
      return None;
    }
    var table, entries := CloseGaps(packets, buffer);
    return Some(Compacted(compactedLength, table, entries));
  }

  lemma {:induction false} GatherConcat(a: seq<Payload>, b: seq<Payload>)
    requires forall k :: 0 <= k < |a| ==> a[k].Some?
    ensures Gather(a + b) == Gather(a) + Gather(b)
  {
    if a == [] {
      assert a + b == b;
    } else {
      assert (a + b)[1..] == a[1..] + b;
      GatherConcat(a[1..], b);
      Sequences.Regroup(a[0].value, Gather(a[1..]), Gather(b));
    }
  }

  /** The gathered payload up to packet i has the prefix sum as its length. */
  lemma {:induction false} GatherLength(packets: seq<IsoPacket>, buffer: seq<Byte>, i: nat)
    requires InBounds(packets, buffer) && i <= |packets|
    ensures |Gather(Sources(packets, buffer)[..i])| == Total(packets[..i])
  {
    if i > 0 {
      var e := Sources(packets, buffer);
      GatherLength(packets, buffer, i - 1);
      TotalStep(packets, i - 1);
      Sequences.SnocTake(e, i - 1);
      GatherConcat(e[..i - 1], [e[i - 1]]);
      Sequences.Empty(e[i - 1].value);
      assert Gather([e[i - 1]]) == e[i - 1].value + Gather([e[i - 1]][1..]);
    }
  }

  /** Packet i's data comes right after it. */
  lemma GatherSources(packets: seq<IsoPacket>, buffer: seq<Byte>, i: nat)
    requires InBounds(packets, buffer) && i <= |packets|
    ensures var e := Sources(packets, buffer);
      && |Gather(e[..i])| == Total(packets[..i])
      && Gather(e) == Gather(e[..i]) + Gather(e[i..])
      && (i < |packets| ==> Gather(e[i..]) == SourceOf(packets[i], buffer) + Gather(e[i + 1..]))
      && (i == |packets| ==> Gather(e[i..]) == [])
  {
    var e := Sources(packets, buffer);
    GatherLength(packets, buffer, i);
    Sequences.Split(e, i);
    GatherConcat(e[..i], e[i..]);
    if i < |packets| {
      assert e[i..][1..] == e[i + 1..];
    }
  }

  /** Cutting the payload at a table entry gives back the packet's bytes. */
  predicate RecoversPacket(packet: IsoPacket, source: seq<Byte>, entry: IsoPacket, payload: seq<Byte>) {
    && entry.length == packet.length
    && entry.offset + entry.length <= |payload|
    && payload[entry.offset..entry.offset + entry.length] == source
  }

  /** What the capture is for: the stored table recovers every packet from the payload. */
  predicate Recoverable(packets: seq<IsoPacket>, buffer: seq<Byte>, table: seq<IsoPacket>, payload: seq<Byte>)
    requires InBounds(packets, buffer)
  {
    && |table| == |packets|
    && forall i :: 0 <= i < |packets| ==> RecoversPacket(packets[i], SourceOf(packets[i], buffer), table[i], payload)
  }

  lemma PacketInPlace(packets: seq<IsoPacket>, buffer: seq<Byte>, i: nat)
    requires InBounds(packets, buffer) && i < |packets|
    ensures var t, n, g := Total(packets[..i]), packets[i].length, Gather(Sources(packets, buffer));
            t + n <= |g| && g[t..t + n] == SourceOf(packets[i], buffer)
  {
    GatherSources(packets, buffer, i);
  }

  lemma {:induction false} FirstOverflow(packets: seq<IsoPacket>, n: nat) returns (i: nat)
    requires n <= |packets| && Total(packets[..n]) >= TWO_TO_32
    ensures i < n && Total(packets[..i]) < TWO_TO_32 <= Total(packets[..i]) + packets[i].length
  {
    TotalStep(packets, n - 1);
    if Total(packets[..n - 1]) >= TWO_TO_32 {
      i := FirstOverflow(packets, n - 1);
    } else {
      i := n - 1;
    }
  }

  lemma RewrittenAt(packets: seq<IsoPacket>, i: nat)
    requires i < |packets| && Total(packets[..i]) < TWO_TO_32
    ensures Rewritten(packets)[i] == IsoPacket(Total(packets[..i]), packets[i].length, packets[i].status)
  {}

  lemma NoOverflowAt(packets: seq<IsoPacket>, buffer: seq<Byte>, i: nat)
    requires InBounds(packets, buffer) && Total(packets) < TWO_TO_32 && i < |packets|
    ensures Rewritten(packets)[i].offset == Total(packets[..i])
    ensures RecoversPacket(packets[i], SourceOf(packets[i], buffer), Rewritten(packets)[i],
                           Gather(Sources(packets, buffer)))
  {
    assert packets[..|packets|] == packets;
    TotalGrows(packets, i, |packets|);
    RewrittenAt(packets, i);
    PacketInPlace(packets, buffer, i);
  }

  lemma NoOverflowRecoverable(packets: seq<IsoPacket>, buffer: seq<Byte>)
    requires InBounds(packets, buffer) && Total(packets) < TWO_TO_32
    ensures Recoverable(packets, buffer, Rewritten(packets), Gather(Sources(packets, buffer)))
    ensures forall i :: 0 <= i < |packets| ==> Rewritten(packets)[i].offset == Total(packets[..i])
  {
    forall i | 0 <= i < |packets|
      ensures Rewritten(packets)[i].offset == Total(packets[..i])
      ensures RecoversPacket(packets[i], SourceOf(packets[i], buffer), Rewritten(packets)[i],
                             Gather(Sources(packets, buffer)))
    {
      NoOverflowAt(packets, buffer, i);
    }
  }

  lemma OverflowUnrecoverable(packets: seq<IsoPacket>, buffer: seq<Byte>, payload: seq<Byte>)
    requires InBounds(packets, buffer) && Total(packets) >= TWO_TO_32 && |payload| < TWO_TO_32
    ensures !Recoverable(packets, buffer, Rewritten(packets), payload)
  {
    assert packets[..|packets|] == packets;
    var i := FirstOverflow(packets, |packets|);
    RewrittenAt(packets, i);
    assert !RecoversPacket(packets[i], SourceOf(packets[i], buffer), Rewritten(packets)[i], payload);
  }

  lemma GatheredLength(packets: seq<IsoPacket>, buffer: seq<Byte>)
    requires InBounds(packets, buffer)
    ensures |Gather(Sources(packets, buffer))| == Total(packets)
  {
    GatherSources(packets, buffer, |packets|);
    assert packets[..|packets|] == packets;
  }

  /** A compacted transfer can be recovered from what is stored of it exactly when the
      lengths do not overflow 32 bits in sum; then the data length is that sum, the
      payload has no gaps and the offsets are the prefix sums. */
  lemma CompactionExact(packets: seq<IsoPacket>, buffer: seq<Byte>)
    requires InBounds(packets, buffer)
    ensures var g := Gather(Sources(packets, buffer));
            var n := Total(packets) % TWO_TO_32;
      && |g| == Total(packets) && n <= |g|
      && (Recoverable(packets, buffer, Rewritten(packets), g[..n]) <==> Total(packets) < TWO_TO_32)
      && (Total(packets) < TWO_TO_32 ==> g[..n] == g)
      && (Total(packets) < TWO_TO_32 ==>
            forall i :: 0 <= i < |packets| ==> Rewritten(packets)[i].offset == Total(packets[..i]))
  {
    var g := Gather(Sources(packets, buffer));
    var n := Total(packets) % TWO_TO_32;
    GatheredLength(packets, buffer);
    if Total(packets) < TWO_TO_32 {
      assert n == |g| && g[..n] == g;
      NoOverflowRecoverable(packets, buffer);
    } else {
      OverflowUnrecoverable(packets, buffer, g[..n]);
    }
  }

  // ---------- the stored record ----------

  function Table(packets: seq<IsoPacket>): (t: seq<Byte>)
    ensures |t| == 12 * |packets|
  {
    if packets == [] then []
    else Table(packets[..|packets| - 1])
         + (Encode32(packets[|packets| - 1].offset) + Encode32(packets[|packets| - 1].length) +
            Encode32(packets[|packets| - 1].status))
  }

  /** USBPCAP_BUFFER_ISOCH_HEADER and its table; fields holds the 21 bytes from irpId to transfer. */
  function IsoHeader(fields: seq<Byte>, dataLength: nat, startFrame: nat, count: nat, errorCount: nat,
                     table: seq<Byte>): (h: seq<Byte>)
    requires |fields| == 21
    ensures |h| == 39 + |table|
  {
    ((Encode16(39 + |table|) + fields) + Encode32(dataLength))
      + ((Encode32(startFrame) + Encode32(count) + Encode32(errorCount)) + table)
  }

  lemma {:induction false} TableAt(packets: seq<IsoPacket>, i: nat)
    requires WordSized(packets) && i < |packets|
    ensures Decode32(Table(packets), 12 * i) == packets[i].offset
    ensures Decode32(Table(packets), 12 * i + 4) == packets[i].length
    ensures Decode32(Table(packets), 12 * i + 8) == packets[i].status
  {
    var last := |packets| - 1;
    var front := Table(packets[..last]);
    if i < last {
      TableAt(packets[..last], i);
      assert forall k :: 0 <= k < 12 * last ==> Table(packets)[k] == front[k];
    } else {
      RoundTrip32(packets[i].offset);
      RoundTrip32(packets[i].length);
      RoundTrip32(packets[i].status);
      var a, b, c := Encode32(packets[i].offset), Encode32(packets[i].length), Encode32(packets[i].status);
      assert Table(packets) == front + (a + b + c);
      assert front + (a + b + c) == front + a + (b + c);
      DecodeWithin(front, a, b + c);
      assert front + (a + b + c) == (front + a) + b + c;
      DecodeWithin(front + a, b, c);
      assert front + (a + b + c) == (front + a + b) + c + [];
      DecodeWithin(front + a + b, c, []);
    }
  }

  lemma HeaderFields(n: seq<Byte>, fields: seq<Byte>, d: seq<Byte>, more: seq<Byte>)
    requires |n| == 2 && |fields| == 21 && |d| == 4
    ensures var h := ((n + fields) + d) + more;
      |h| >= PACKET_HEADER && PacketHeaderLen(h) == Decode16(n, 0) && PacketDataLength(h) == Decode32(d, 0)
  {
    DecodeWithin(n + fields, d, more);
    Sequences.Regroup(n, fields, d);
    Sequences.Regroup(n, fields + d, more);
    Sequences.Empty(n);
    DecodeWithin([], n, (fields + d) + more);
  }

  lemma IsoHeaderFields(fields: seq<Byte>, dataLength: nat, startFrame: nat, count: nat,
                                           errorCount: nat, table: seq<Byte>)
    requires |fields| == 21 && |table| <= 12288 && dataLength < TWO_TO_32
    ensures var h := IsoHeader(fields, dataLength, startFrame, count, errorCount, table);
      && IsPacketHeader(h) && PacketDataLength(h) == dataLength && h[39..] == table
  {
    RoundTrip16(39 + |table|);
    RoundTrip32(dataLength);
    HeaderFields(Encode16(39 + |table|), fields, Encode32(dataLength),
                (Encode32(startFrame) + Encode32(count) + Encode32(errorCount)) + table);
  }

  /** The rest of an isochronous packet's header, where it lies. */
  lemma IsoHeaderLayout(fields: seq<Byte>, dataLength: nat, startFrame: nat, count: nat, errorCount: nat,
                        table: seq<Byte>)
    requires |fields| == 21 && startFrame < TWO_TO_32 && count < TWO_TO_32 && errorCount < TWO_TO_32
    ensures var h := IsoHeader(fields, dataLength, startFrame, count, errorCount, table);
      && h[2..23] == fields && Decode32(h, 27) == startFrame && Decode32(h, 31) == count
      && Decode32(h, 35) == errorCount
  {
    RoundTrip32(startFrame);
    RoundTrip32(count);
    RoundTrip32(errorCount);
    FourParts((Encode16(39 + |table|) + fields) + Encode32(dataLength), Encode32(startFrame), Encode32(count),
              Encode32(errorCount), table);
    var h := IsoHeader(fields, dataLength, startFrame, count, errorCount, table);
    assert h[2..23] == fields;
  }

  lemma FourParts(front: seq<Byte>, a: seq<Byte>, b: seq<Byte>, c: seq<Byte>, back: seq<Byte>)
    requires |a| == |b| == |c| == 4
    ensures var h, n := front + ((a + b + c) + back), |front|;
      Decode32(h, n) == Decode32(a, 0) && Decode32(h, n + 4) == Decode32(b, 0) && Decode32(h, n + 8) == Decode32(c, 0)
  {
    var h, n := front + ((a + b + c) + back), |front|;
    assert forall k :: 0 <= k < 4 ==> h[n + k] == a[k] && h[n + 4 + k] == b[k] && h[n + 8 + k] == c[k];
  }

  lemma Announces(timestamp: nat, header: seq<Byte>, entries: seq<Payload>, mapped: bool)
    requires IsPacketHeader(header) && PacketDataLength(header) <= |Gather(entries)|
    ensures CaptureSession.HonestEvent(CaptureSession.Store(timestamp, header, entries, mapped))
  {}

  // No automatic induction here and in StoredPacketsRecoverable: its hypotheses would
  // apply SourceOf to packets outside the buffer.

  /** A compacted transfer whose buffer is mapped, its lengths in sum overflowing or not,
      supplies at least the data length its header announces. */
  lemma {:induction false} CompactedHonest(timestamp: nat, fields: seq<Byte>, startFrame: nat, errorCount: nat,
                                           packets: seq<IsoPacket>, buffer: seq<Byte>, c: Compacted,
                                           header: seq<Byte>, mapped: bool)
    requires |fields| == 21 && |packets| <= 1024 && InBounds(packets, buffer)
    requires c == Compacted(Total(packets) % TWO_TO_32, Rewritten(packets), Sources(packets, buffer))
    requires header == IsoHeader(fields, c.dataLength, startFrame, |packets|, errorCount, Table(c.packets))
    ensures CaptureSession.HonestEvent(CaptureSession.Store(timestamp, header, c.entries, mapped))
  {
    GatheredLength(packets, buffer);
    IsoHeaderFields(fields, c.dataLength, startFrame, |packets|, errorCount, Table(c.packets));
    Announces(timestamp, header, c.entries, mapped);
  }

  lemma WordSizedRewritten(packets: seq<IsoPacket>)
    requires WordSized(packets)
    ensures WordSized(Rewritten(packets))
  {}

  lemma TableWithin(pre: seq<Byte>, table: seq<Byte>, post: seq<Byte>, at: nat)
    requires at + 4 <= |table|
    ensures Decode32(pre + table + post, |pre| + at) == Decode32(table, at)
  {
    var f := table[at..at + 4];
    assert table == table[..at] + f + table[at + 4..];
    DecodeWithin(table[..at], f, table[at + 4..]);
    assert pre + table + post == (pre + table[..at]) + f + (table[at + 4..] + post);
    DecodeWithin(pre + table[..at], f, table[at + 4..] + post);
  }

  /** A record neither truncated nor short of payload: header, packet header, payload. */
  lemma UncutRecord(snaplen: nat, timestamp: nat, header: seq<Byte>, entries: seq<Payload>) returns (front: seq<Byte>)
    requires IsPacketHeader(header)
    requires |header| + PacketDataLength(header) < TWO_TO_32 && |header| + PacketDataLength(header) <= snaplen
    requires |Gather(entries)| == PacketDataLength(header)
    ensures |front| == RECORD_HEADER
    ensures RecordBytes(snaplen, timestamp, header, entries) == front + header + Gather(entries)
  {
    var incl := InclLength(snaplen, header);
    assert incl == |header| + |Gather(entries)|;
    front := RecordHeader(Seconds(timestamp), Microseconds(timestamp), incl, OrigLength(header));
    Sequences.TakeAll(header);
    Sequences.TakeAll(Gather(entries));
  }

  lemma RecordShape(snaplen: nat, timestamp: nat, header: seq<Byte>, entries: seq<Payload>)
    requires IsPacketHeader(header)
    requires |header| + PacketDataLength(header) < TWO_TO_32 && |header| + PacketDataLength(header) <= snaplen
    requires |Gather(entries)| == PacketDataLength(header)
    ensures var r := RecordBytes(snaplen, timestamp, header, entries);
      |r| >= RECORD_HEADER && r == r[..RECORD_HEADER] + header + Gather(entries)
  {
    var front := UncutRecord(snaplen, timestamp, header, entries);
    ThreeParts(front, header, Gather(entries));
  }

  lemma ThreeParts(a: seq<Byte>, b: seq<Byte>, c: seq<Byte>)
    ensures a + b + c == (a + b + c)[..|a|] + b + c
  {
    assert (a + b + c)[..|a|] == a;
  }

  lemma FieldStored(front: seq<Byte>, header: seq<Byte>, table: seq<Byte>, g: seq<Byte>, at: nat)
    requires |front| == RECORD_HEADER && |header| >= 39 && header[39..] == table && at + 4 <= |table|
    ensures Decode32((front + header) + g, RECORD_HEADER + 39 + at) == Decode32(table, at)
  {
    assert header == header[..39] + table;
    Sequences.Regroup(front, header[..39], table);
    TableWithin(front + header[..39], table, g, at);
  }

  /** The entry for packet i in the stored record's table, decoded from its bytes. */
  function StoredEntry(r: seq<Byte>, i: nat): (IsoPacket)
    requires |r| >= RECORD_HEADER + 39 + 12 * (i + 1)
  {
    var at := RECORD_HEADER + 39 + 12 * i;
    IsoPacket(Decode32(r, at), Decode32(r, at + 4), Decode32(r, at + 8))
  }

  lemma EntryStored(front: seq<Byte>, header: seq<Byte>, table: seq<Byte>, g: seq<Byte>, i: nat)
    requires |front| == RECORD_HEADER && |header| >= 39 && header[39..] == table && 12 * i + 12 <= |table|
    ensures StoredEntry((front + header) + g, i)
         == IsoPacket(Decode32(table, 12 * i), Decode32(table, 12 * i + 4), Decode32(table, 12 * i + 8))
  {
    FieldStored(front, header, table, g, 12 * i);
    FieldStored(front, header, table, g, 12 * i + 4);
    FieldStored(front, header, table, g, 12 * i + 8);
  }

  /** From the stored bytes alone: when the record is not cut by the snapshot length,
      the table decoded from it cuts its payload into the original packets. */
  lemma {:induction false} StoredPacketsRecoverable(snaplen: nat, timestamp: nat, fields: seq<Byte>, startFrame: nat,
                                                    errorCount: nat, packets: seq<IsoPacket>, buffer: seq<Byte>,
                                                    i: nat)
    requires |fields| == 21 && |packets| <= 1024
    requires WordSized(packets) && InBounds(packets, buffer)
    requires 39 + 12 * |packets| + Total(packets) < TWO_TO_32
    requires 39 + 12 * |packets| + Total(packets) <= snaplen
    requires i < |packets|
    ensures var h := IsoHeader(fields, Total(packets), startFrame, |packets|, errorCount, Table(Rewritten(packets)));
      && IsPacketHeader(h)
      && (var r := RecordBytes(snaplen, timestamp, h, Sources(packets, buffer));
          && Framed(r) && |r| == RECORD_HEADER + |h| + Total(packets)
          && StoredEntry(r, i).status == packets[i].status
          && RecoversPacket(packets[i], SourceOf(packets[i], buffer), StoredEntry(r, i), r[RECORD_HEADER + |h|..]))
  {
    var t := Rewritten(packets);
    var h := IsoHeader(fields, Total(packets), startFrame, |packets|, errorCount, Table(t));
    IsoHeaderFields(fields, Total(packets), startFrame, |packets|, errorCount, Table(t));
    var e := Sources(packets, buffer);
    GatheredLength(packets, buffer);
    NoOverflowAt(packets, buffer, i);
    DataLengthSuffices(snaplen, h, e);
    StoredFraming(snaplen, timestamp, h, e);
    RecordShape(snaplen, timestamp, h, e);
    WordSizedRewritten(packets);
    var r := RecordBytes(snaplen, timestamp, h, e);
    TableAt(t, i);
    EntryStored(r[..RECORD_HEADER], h, Table(t), Gather(e), i);
    Sequences.DropBack(r[..RECORD_HEADER] + h, Gather(e), 0);
  }
}
