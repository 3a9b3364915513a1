/** The capture file layout (draft-ietf-opsawg-pcap, sections 4 and 5) with
    USBPcap packets inside, and the cutting of a byte stream into records. */
module Pcap {
  import opened Bytes
  import opened Sequences

  const MAGIC := 0xA1B2C3D4
  const DLT_USBPCAP := 249

  const GLOBAL_HEADER := 24     // sizeof(pcap_hdr_t)
  const RECORD_HEADER := 16     // sizeof(pcaprec_hdr_t)
  const PACKET_HEADER := 27     // sizeof(USBPCAP_BUFFER_PACKET_HEADER)
  const CONTROL_HEADER := 28    // sizeof(USBPCAP_BUFFER_CONTROL_HEADER)

  const STAGE_SETUP := 0        // USBPCAP_CONTROL_STAGE_SETUP
  const STAGE_COMPLETE := 3     // USBPCAP_CONTROL_STAGE_COMPLETE

  // ---------- headers ----------

  function GlobalHeader(snaplen: nat): (h: seq<Byte>)
    ensures |h| == GLOBAL_HEADER
  {
    Encode32(MAGIC) + Encode16(2) + Encode16(4) + Encode32(0) + Encode32(0) + Encode32(snaplen) + Encode32(DLT_USBPCAP)
  }

  function HeaderMagic(h: seq<Byte>): (n: nat)
    requires |h| >= GLOBAL_HEADER
  {
    Decode32(h, 0)
  }

  function HeaderSnaplen(h: seq<Byte>): (n: nat)
    requires |h| >= GLOBAL_HEADER
  {
    Decode32(h, 16)
  }

  function HeaderNetwork(h: seq<Byte>): (n: nat)
    requires |h| >= GLOBAL_HEADER
  {
    Decode32(h, 20)
  }

  /** The header byte by byte: magic, version 2.4, two zero fields, snapshot length,
      link type. */
  lemma GlobalHeaderBytes(a: Byte, b: Byte, c: Byte, d: Byte)
    ensures GlobalHeader(a + 0x100 * b + 0x1_0000 * c + 0x100_0000 * d) ==
            [0xD4, 0xC3, 0xB2, 0xA1, 2, 0, 4, 0] + [0, 0, 0, 0, 0, 0, 0, 0] + [a, b, c, d] + [249, 0, 0, 0]
  {
    LittleEndian(0xD4, 0xC3, 0xB2, 0xA1);
    LittleEndian(2, 0, 0, 0);
    LittleEndian(4, 0, 0, 0);
    LittleEndian(0, 0, 0, 0);
    LittleEndian(a, b, c, d);
    LittleEndian(249, 0, 0, 0);
  }

  lemma GlobalHeaderFields(snaplen: nat)
    requires snaplen < TWO_TO_32
    ensures var h := GlobalHeader(snaplen);
      HeaderMagic(h) == MAGIC && HeaderSnaplen(h) == snaplen && HeaderNetwork(h) == DLT_USBPCAP
  {
    RoundTrip32(snaplen);
    var h := GlobalHeader(snaplen);
    assert h[16..20] == Encode32(snaplen);
    assert forall k :: 0 <= k < 4 ==> h[16 + k] == h[16..20][k];
  }

  function RecordHeader(tsSec: nat, tsUsec: nat, inclLen: nat, origLen: nat): (h: seq<Byte>)
    ensures |h| == RECORD_HEADER
  {
    Encode32(tsSec) + Encode32(tsUsec) + Encode32(inclLen) + Encode32(origLen)
  }

  function InclLen(r: seq<Byte>): (n: nat)
    requires |r| >= RECORD_HEADER
    ensures n < TWO_TO_32
  {
    Decode32(r, 8)
  }

  lemma RecordHeaderFields(tsSec: nat, tsUsec: nat, inclLen: nat, origLen: nat, body: seq<Byte>)
    requires tsSec < TWO_TO_32 && tsUsec < TWO_TO_32 && inclLen < TWO_TO_32 && origLen < TWO_TO_32
    ensures var r := RecordHeader(tsSec, tsUsec, inclLen, origLen) + body;
      && Decode32(r, 0) == tsSec && Decode32(r, 4) == tsUsec
      && InclLen(r) == inclLen && Decode32(r, 12) == origLen
      && r[RECORD_HEADER..] == body
  {
    var a, b, c, d := Encode32(tsSec), Encode32(tsUsec), Encode32(inclLen), Encode32(origLen);
    var r := RecordHeader(tsSec, tsUsec, inclLen, origLen) + body;
    RoundTrip32(tsSec);
    RoundTrip32(tsUsec);
    RoundTrip32(inclLen);
    RoundTrip32(origLen);
    assert forall k :: 0 <= k < 4 ==> r[k] == a[k] && r[4 + k] == b[k] && r[8 + k] == c[k] && r[12 + k] == d[k];
  }

  // Fields of the packet header at the front of a record's body.
  function PacketHeaderLen(p: seq<Byte>): (n: nat)
    requires |p| >= PACKET_HEADER
  {
    Decode16(p, 0)
  }

  function PacketDevice(p: seq<Byte>): (n: nat)
    requires |p| >= PACKET_HEADER
  {
    Decode16(p, 19)
  }

  function PacketEndpoint(p: seq<Byte>): (n: nat)
    requires |p| >= PACKET_HEADER
  {
    p[21]
  }

  function PacketTransfer(p: seq<Byte>): (n: nat)
    requires |p| >= PACKET_HEADER
  {
    p[22]
  }

  function PacketDataLength(p: seq<Byte>): (n: nat)
    requires |p| >= PACKET_HEADER
  {
    Decode32(p, 23)
  }

  /** Where the fields of a packet header lie: length, request id (8), status (4),
      function (2), info (1), bus (2), device, endpoint, transfer, data length. */
  lemma PacketHeaderLayout(len: nat, request: seq<Byte>, device: nat, endpoint: Byte, transfer: Byte,
                           dataLength: nat, more: seq<Byte>)
    requires len < TWO_TO_16 && |request| == 17 && device < TWO_TO_16 && dataLength < TWO_TO_32
    ensures var p := Encode16(len) + request + Encode16(device) + [endpoint, transfer] + Encode32(dataLength) + more;
      && |p| == PACKET_HEADER + |more|
      && PacketHeaderLen(p) == len && PacketDevice(p) == device && PacketEndpoint(p) == endpoint
      && PacketTransfer(p) == transfer && PacketDataLength(p) == dataLength
  {
    RoundTrip16(len);
    RoundTrip16(device);
    RoundTrip32(dataLength);
    var a, b, c := Encode16(len), Encode16(device), Encode32(dataLength);
    var p := a + request + b + [endpoint, transfer] + c + more;
    assert p[0] == a[0] && p[1] == a[1] && p[19] == b[0] && p[20] == b[1];
    assert p[23] == c[0] && p[24] == c[1] && p[25] == c[2] && p[26] == c[3];
  }

  // ---------- records in a stream ----------

  /** A whole record: header, and exactly as many bytes as the header announces. */
  predicate Framed(r: seq<Byte>) {
    |r| >= RECORD_HEADER && |r| == RECORD_HEADER + InclLen(r)
  }

  predicate AllFramed(rs: seq<seq<Byte>>) {
    forall i :: 0 <= i < |rs| ==> Framed(rs[i])
  }

  /** No whole record at the front. */
  predicate Incomplete(s: seq<Byte>) {
    |s| < RECORD_HEADER || |s| < RECORD_HEADER + InclLen(s)
  }

  datatype Pieces = Pieces(records: seq<seq<Byte>>, rest: seq<Byte>)

  /** The whole records at the front of s, and what is left over. */
  function Cut(s: seq<Byte>): (c: Pieces)
    decreases |s|
  {
    if Incomplete(s) then Pieces([], s)
    else
      var n := RECORD_HEADER + InclLen(s);
      var c := Cut(s[n..]);
      Pieces([s[..n]] + c.records, c.rest)
  }

  lemma FrontRecord(s: seq<Byte>, t: seq<Byte>)
    requires !Incomplete(s)
    ensures var n := RECORD_HEADER + InclLen(s);
      Framed(s[..n]) && !Incomplete(s + t) && InclLen(s + t) == InclLen(s)
      && (s + t)[..n] == s[..n] && (s + t)[n..] == s[n..] + t
  {}

  lemma SameInclLen(r: seq<Byte>, s: seq<Byte>)
    requires |r| >= RECORD_HEADER && |s| >= RECORD_HEADER
    requires r[..RECORD_HEADER] == s[..RECORD_HEADER]
    ensures InclLen(r) == InclLen(s)
  {}

  /** A whole record in front is cut off as it is. */
  lemma CutCons(r: seq<Byte>, more: seq<Byte>)
    requires Framed(r)
    ensures Cut(r + more) == Pieces([r] + Cut(more).records, Cut(more).rest)
  {}

  lemma PrefixIncomplete(r: seq<Byte>, s: seq<Byte>)
    requires Framed(r) && s <= r && |s| < |r|
    ensures Incomplete(s)
  {}

  lemma JoinCons(r: seq<Byte>, rs: seq<seq<Byte>>)
    ensures Join([r] + rs) == r + Join(rs)
  {}

  lemma ExactStep(s: seq<Byte>, n: nat, c: Pieces)
    requires n <= |s| && Framed(s[..n]) && AllFramed(c.records) && Join(c.records) + c.rest == s[n..]
    ensures AllFramed([s[..n]] + c.records) && Join([s[..n]] + c.records) + c.rest == s
  {}

  /** Cutting loses nothing: records and leftover make up the stream, every record
      is whole, and the leftover holds no whole record. */
  lemma {:induction false} CutIsExact(s: seq<Byte>)
    ensures var c := Cut(s);
      Join(c.records) + c.rest == s && AllFramed(c.records) && Incomplete(c.rest)
    decreases |s|
  {
    if Incomplete(s) {
      assert [] + s == s;
    } else {
      var n := RECORD_HEADER + InclLen(s);
      FrontRecord(s, []);
      CutIsExact(s[n..]);
      ExactStep(s, n, Cut(s[n..]));
    }
  }

  /** Cutting is independent of chunking: cutting what is left of a together with
      b continues the cutting of a + b. */
  lemma {:induction false} CutAppend(a: seq<Byte>, b: seq<Byte>)
    ensures var c := Cut(a);
            var d := Cut(c.rest + b);
            Cut(a + b) == Pieces(c.records + d.records, d.rest)
    decreases |a|
  {
    if Incomplete(a) {
      assert [] + Cut(a + b).records == Cut(a + b).records;
    } else {
      var n := RECORD_HEADER + InclLen(a);
      FrontRecord(a, b);
      CutAppend(a[n..], b);
      var c := Cut(a[n..]);
      var d := Cut(c.rest + b);
      assert [a[..n]] + (c.records + d.records) == ([a[..n]] + c.records) + d.records;
    }
  }

  lemma CutStep(r: seq<Byte>, joined: seq<Byte>, tail: seq<Byte>, c: Pieces)
    requires Framed(r) && Cut(joined + tail) == c
    ensures Cut((r + joined) + tail) == Pieces([r] + c.records, c.rest)
  {
    CutCons(r, joined + tail);
    Regroup(r, joined, tail);
  }

  /** Cutting undoes joining. */
  lemma {:induction false} CutJoin(rs: seq<seq<Byte>>, tail: seq<Byte>)
    requires AllFramed(rs)
    ensures Cut(Join(rs) + tail) == Pieces(rs + Cut(tail).records, Cut(tail).rest)
  {
    if rs == [] {
      CutNothing(tail);
    } else {
      CutJoin(rs[1..], tail);
      CutStep(rs[0], Join(rs[1..]), tail, Cut(Join(rs[1..]) + tail));
      ConsTail(rs, Cut(tail).records);
    }
  }

  lemma CutNothing(tail: seq<Byte>)
    ensures Join([]) + tail == tail && [] + Cut(tail).records == Cut(tail).records
  {}

  /** A stream cut short: exactly the fully delivered records are found, and the
      leftover is a proper prefix of the next one. */
  lemma {:induction false} CutPrefix(rs: seq<seq<Byte>>, s: seq<Byte>) returns (k: nat)
    requires AllFramed(rs) && s <= Join(rs)
    ensures k <= |rs|
    ensures Cut(s).records == rs[..k]
    ensures if k < |rs| then Cut(s).rest < rs[k] else Cut(s).rest == []
  {
    if rs == [] {
      k := 0;
    } else if |s| < |rs[0]| {
      k := 0;
      PrefixOfConcat(rs[0], Join(rs[1..]), s);
      PrefixIncomplete(rs[0], s);
    } else {
      SuffixOfConcat(rs[0], Join(rs[1..]), s);
      var t := s[|rs[0]|..];
      var j := CutPrefix(rs[1..], t);
      CutCons(rs[0], t);
      k := j + 1;
      ConsTake(rs, j);
    }
  }

  lemma PrefixOfConcat(a: seq<Byte>, b: seq<Byte>, s: seq<Byte>)
    requires s <= a + b && |s| <= |a|
    ensures s <= a
  {}

  lemma SuffixOfConcat(a: seq<Byte>, b: seq<Byte>, s: seq<Byte>)
    requires s <= a + b && |s| >= |a|
    ensures s == a + s[|a|..] && s[|a|..] <= b
  {}
}
