/** Reading a capture file record by record (USBPcapAI/internal/pcap/reader.go), and
    what comes back of the records the driver stored. */
module CaptureReader {
  import opened Wrappers
  import opened Bytes
  import opened Pcap
  import opened PacketStore
  import Sequences

  const MAX_RECORD_SIZE := 67108864
  const SWAPPED_MAGIC := 0xD4C3B2A1

  datatype Record = Record(tsSec: nat, tsUsec: nat, inclLen: nat, origLen: nat, headerLen: nat, device: nat,
                           endpoint: nat, transfer: nat, dataLen: nat, payload: seq<Byte>, actualLen: nat)

  /** Truncated wraps the error of the read that came up short. */
  datatype ReadError = Eof | UnexpectedEof | UnsupportedMagic | UnsupportedLinkType | TooLong
                     | Truncated(cause: ReadError)

  /** errors.Is(err, io.EOF), which looks through the wrapping. */
  predicate IsEof(e: ReadError) {
    e.Eof? || (e.Truncated? && IsEof(e.cause))
  }

  /** io.ReadFull asked for n bytes of s. */
  function Filled(s: seq<Byte>, n: nat): Result<seq<Byte>, ReadError> {
    if n <= |s| then Ok(s[..n]) else Err(if s == [] then Eof else UnexpectedEof)
  }

  /** The fields of a whole record; those behind a missing or odd header stay zero. */
  function ParseRecord(r: seq<Byte>): Record
    requires Framed(r)
  {
    var p := r[RECORD_HEADER..];
    var raw := Record(Decode32(r, 0), Decode32(r, 4), InclLen(r), Decode32(r, 12), 0, 0, 0, 0, 0, [], 0);
    if |p| < PACKET_HEADER then raw
    else
      var start := PacketHeaderLen(p);
      var rec := raw.(headerLen := start, device := PacketDevice(p), endpoint := PacketEndpoint(p),
                      transfer := PacketTransfer(p), dataLen := PacketDataLength(p));
      if start < PACKET_HEADER || start > |p| then rec
      else
        var end := Min(start + rec.dataLen, |p|);
        rec.(payload := p[start..end], actualLen := end - start)
  }

  datatype Fetched = Fetched(record: Result<Record, ReadError>, rest: seq<Byte>)

  /** One call of Next with s unread. */
  function NextOf(s: seq<Byte>): (n: Fetched)
    ensures n.record.Ok? ==> |n.rest| < |s|
  {
    if |s| < RECORD_HEADER then Fetched(Err(if s == [] then Eof else UnexpectedEof), [])
    else if InclLen(s) > MAX_RECORD_SIZE then Fetched(Err(TooLong), s[RECORD_HEADER..])
    else if Incomplete(s) then Fetched(Err(Truncated(if |s| == RECORD_HEADER then Eof else UnexpectedEof)), [])
    else
      FrontRecord(s, []);
      var n := RECORD_HEADER + InclLen(s);
      Fetched(Ok(ParseRecord(s[..n])), s[n..])
  }

  /** What a loop over Next sees before it ends; failure is None at a clean end. */
  datatype Reading = Reading(records: seq<Record>, failure: Option<ReadError>)

  function ReadAll(s: seq<Byte>): Reading
    decreases |s|
  {
    var n := NextOf(s);
    match n.record
    case Err(e) => Reading([], if IsEof(e) then None else Some(e))
    case Ok(rec) => var more := ReadAll(n.rest); Reading([rec] + more.records, more.failure)
  }

  /** The check of OpenReader on a file's first bytes. */
  function HeaderError(file: seq<Byte>): Option<ReadError> {
    if |file| < GLOBAL_HEADER then Some(if file == [] then Eof else UnexpectedEof)
    else if HeaderMagic(file) != MAGIC && HeaderMagic(file) != SWAPPED_MAGIC then Some(UnsupportedMagic)
    else if HeaderNetwork(file) != DLT_USBPCAP then Some(UnsupportedLinkType)
    else None
  }

  /** Which files are taken for captures, by their bytes: the magic number in either byte
      order, and link type 249 in this one. */
  lemma HeaderAccepted(file: seq<Byte>)
    ensures HeaderError(file) == None <==>
      && |file| >= GLOBAL_HEADER
      && (file[..4] == [0xD4, 0xC3, 0xB2, 0xA1] || file[..4] == [0xA1, 0xB2, 0xC3, 0xD4])
      && file[20..24] == [249, 0, 0, 0]
    ensures |file| < GLOBAL_HEADER ==> HeaderError(file) == Some(if file == [] then Eof else UnexpectedEof)
    ensures |file| >= GLOBAL_HEADER ==>
      (HeaderError(file) == Some(UnsupportedLinkType) <==>
        && (file[..4] == [0xD4, 0xC3, 0xB2, 0xA1] || file[..4] == [0xA1, 0xB2, 0xC3, 0xD4])
        && file[20..24] != [249, 0, 0, 0])
  {
    if |file| >= GLOBAL_HEADER {
      FieldIs(file, 0, 0xD4, 0xC3, 0xB2, 0xA1);
      FieldIs(file, 0, 0xA1, 0xB2, 0xC3, 0xD4);
      FieldIs(file, 20, 249, 0, 0, 0);
    }
  }

  /** The longest record that is read holds 64 MiB. */
  lemma LongestRecord(s: seq<Byte>)
    requires |s| >= RECORD_HEADER
    ensures NextOf(s).record == Err(TooLong) <==> InclLen(s) > 64 * 1024 * 1024
    ensures NextOf(s).record.Ok? <==> InclLen(s) <= 64 * 1024 * 1024 && |s| >= RECORD_HEADER + InclLen(s)
  {}

  /** The fields of any record, its header's lengths trusted or not: payload starts where
      the header says, if that lies in the record behind the fixed fields, and is as
      long as announced or as what is left. */
  lemma ParsedFields(tsSec: nat, tsUsec: nat, origLen: nat, body: seq<Byte>)
    requires tsSec < TWO_TO_32 && tsUsec < TWO_TO_32 && origLen < TWO_TO_32 && |body| < TWO_TO_32
    ensures var r := RecordHeader(tsSec, tsUsec, |body|, origLen) + body;
      && Framed(r)
      && (var p := ParseRecord(r);
          && p.tsSec == tsSec && p.tsUsec == tsUsec && p.inclLen == |body| && p.origLen == origLen
          && p.actualLen == |p.payload|
          && (|body| < 27 ==> p.headerLen == p.device == p.endpoint == p.transfer == p.dataLen == 0 && p.payload == [])
          && (|body| >= 27 ==>
                && p.headerLen == Decode16(body, 0) && p.device == Decode16(body, 19)
                && p.endpoint == body[21] && p.transfer == body[22] && p.dataLen == Decode32(body, 23)
                && (if 27 <= p.headerLen <= |body|
                    then p.payload <= body[p.headerLen..] && |p.payload| == Min(p.dataLen, |body| - p.headerLen)
                    else p.payload == [])))
  {
    RecordHeaderFields(tsSec, tsUsec, |body|, origLen, body);
  }

  /** An open capture file and its cursor. */
  class Reader {
    const file: seq<Byte>
    var position: nat

    ghost predicate Valid() reads this { position <= |file| }

    function Unread(): seq<Byte>
      requires position <= |file|
      reads this
    {
      file[position..]
    }

    constructor (contents: seq<Byte>)
      ensures Valid() && file == contents && position == 0
    {
      file := contents;
      position := 0;
    }

    /** io.ReadFull: a short read uses up what there is. */
    method ReadFull(n: nat) returns (r: Result<seq<Byte>, ReadError>)
      requires Valid()
      modifies this
      ensures Valid() && r == Filled(old(Unread()), n)
      ensures Unread() == if r.Ok? then old(Unread())[n..] else []
    {
      ghost var s := Unread();
      if n <= |file| - position {
        assert file[position..position + n] == s[..n];
        assert file[position + n..] == s[n..];
        r := Ok(file[position..position + n]);
        position := position + n;
      } else {
        r := Err(if position == |file| then Eof else UnexpectedEof);
        position := |file|;
      }
    }

    method Next() returns (r: Result<Record, ReadError>)
      requires Valid()
      modifies this
      ensures Valid() && NextOf(old(Unread())) == Fetched(r, Unread())
    {
      ghost var s := Unread();
      var header := ReadFull(RECORD_HEADER);
      if header.Err? {
        return Err(header.error);
      }
      SameInclLen(header.value, s);
      var inclLen := InclLen(header.value);
      if inclLen > MAX_RECORD_SIZE {
        return Err(TooLong);
      }
      var body := ReadFull(inclLen);
      if body.Err? {
        return Err(Truncated(body.error));
      }
      FrontRecord(s, []);
      assert s[..RECORD_HEADER + inclLen] == header.value + body.value;
      return Ok(ParseRecord(header.value + body.value));
    }
  }

  method OpenReader(file: seq<Byte>) returns (r: Result<Reader, ReadError>)
    ensures r.Err? ==> HeaderError(file) == Some(r.error)
    ensures r.Ok? ==> HeaderError(file) == None && fresh(r.value) && r.value.Valid()
                      && r.value.Unread() == file[GLOBAL_HEADER..]
  {
    var reader := new Reader(file);
    assert reader.Unread() == file;
    var header := reader.ReadFull(GLOBAL_HEADER);
    if header.Err? {
      return Err(header.error);
    }
    var h := header.value;
    assert forall k :: 0 <= k < 24 ==> h[k] == file[k];
    if HeaderMagic(h) != MAGIC && HeaderMagic(h) != SWAPPED_MAGIC {
      return Err(UnsupportedMagic);
    }
    if HeaderNetwork(h) != DLT_USBPCAP {
      return Err(UnsupportedLinkType);
    }
    return Ok(reader);
  }

  // ---------- the loop over Next and the cutting of the stream ----------

  function ParseAll(rs: seq<seq<Byte>>): (p: seq<Record>)
    requires AllFramed(rs)
    ensures |p| == |rs|
    ensures forall k :: 0 <= k < |rs| ==> p[k] == ParseRecord(rs[k])
  {
    seq(|rs|, k requires 0 <= k < |rs| => ParseRecord(rs[k]))
  }

  function FirstTooLong(rs: seq<seq<Byte>>): (k: nat)
    requires AllFramed(rs)
    ensures k <= |rs|
    ensures k < |rs| ==> InclLen(rs[k]) > MAX_RECORD_SIZE
    ensures forall i :: 0 <= i < k ==> InclLen(rs[i]) <= MAX_RECORD_SIZE
  {
    if rs == [] || InclLen(rs[0]) > MAX_RECORD_SIZE then 0 else 1 + FirstTooLong(rs[1..])
  }

  /** How a reading ends that has come to a leftover without a whole record. */
  function EndOf(rest: seq<Byte>): Option<ReadError>
    requires Incomplete(rest)
  {
    if rest == [] then None
    else if |rest| < RECORD_HEADER then Some(UnexpectedEof)
    else if InclLen(rest) > MAX_RECORD_SIZE then Some(TooLong)
    else if |rest| == RECORD_HEADER then None
    else Some(Truncated(UnexpectedEof))
  }

  /** What a reading makes of records with a leftover behind them. */
  function ReadingOf(rs: seq<seq<Byte>>, end: Option<ReadError>): (a: Reading)
    requires AllFramed(rs)
  {
    var k := FirstTooLong(rs);
    Reading(ParseAll(rs[..k]), if k < |rs| then Some(TooLong) else end)
  }

  predicate ShortEnough(rs: seq<seq<Byte>>)
    requires AllFramed(rs)
  {
    forall k :: 0 <= k < |rs| ==> InclLen(rs[k]) <= MAX_RECORD_SIZE
  }

  lemma ParseCons(r: seq<Byte>, rs: seq<seq<Byte>>)
    requires Framed(r) && AllFramed(rs)
    ensures AllFramed([r] + rs) && ParseAll([r] + rs) == [ParseRecord(r)] + ParseAll(rs)
    ensures ShortEnough([r] + rs) <==> InclLen(r) <= MAX_RECORD_SIZE && ShortEnough(rs)
  {
    if ShortEnough([r] + rs) {
      assert InclLen(([r] + rs)[0]) <= MAX_RECORD_SIZE;
      assert forall k :: 0 <= k < |rs| ==> rs[k] == ([r] + rs)[k + 1];
    }
  }

  lemma ReadingOfCons(r: seq<Byte>, rs: seq<seq<Byte>>, end: Option<ReadError>)
    requires Framed(r) && AllFramed(rs)
    ensures AllFramed([r] + rs)
    ensures ReadingOf([r] + rs, end) ==
            if InclLen(r) > MAX_RECORD_SIZE then Reading([], Some(TooLong))
            else var more := ReadingOf(rs, end); Reading([ParseRecord(r)] + more.records, more.failure)
  {
    var k := FirstTooLong(rs);
    assert ([r] + rs)[1..] == rs;
    if InclLen(r) <= MAX_RECORD_SIZE {
      assert ([r] + rs)[..k + 1] == [r] + rs[..k];
      ParseCons(r, rs[..k]);
    }
  }

  lemma FrontRead(s: seq<Byte>)
    requires !Incomplete(s)
    ensures var n := RECORD_HEADER + InclLen(s);
      && Framed(s[..n]) && InclLen(s[..n]) == InclLen(s)
      && Cut(s) == Pieces([s[..n]] + Cut(s[n..]).records, Cut(s[n..]).rest)
      && (InclLen(s) > MAX_RECORD_SIZE ==> ReadAll(s) == Reading([], Some(TooLong)))
      && (InclLen(s) <= MAX_RECORD_SIZE ==>
            ReadAll(s) == Reading([ParseRecord(s[..n])] + ReadAll(s[n..]).records, ReadAll(s[n..]).failure))
  {}

  /** Reading a stream yields its whole records in order, up to the first that is too
      long to be read, and reports how the stream ends. */
  lemma {:induction false} ReadAllIsCut(s: seq<Byte>)
    ensures AllFramed(Cut(s).records) && Incomplete(Cut(s).rest)
    ensures ReadAll(s) == ReadingOf(Cut(s).records, EndOf(Cut(s).rest))
    decreases |s|
  {
    CutIsExact(s);
    if !Incomplete(s) {
      FrontRead(s);
      var n := RECORD_HEADER + InclLen(s);
      ReadAllIsCut(s[n..]);
      ReadingOfCons(s[..n], Cut(s[n..]).records, EndOf(Cut(s[n..]).rest));
    }
  }

  /** When a file's end counts as clean: no record is too long, and behind the whole
      records there is nothing, or a record header alone. */
  lemma CleanEndExactly(s: seq<Byte>)
    ensures AllFramed(Cut(s).records)
    ensures var c := Cut(s);
      ReadAll(s).failure == None <==>
        && ShortEnough(c.records)
        && (c.rest == [] || (|c.rest| == RECORD_HEADER && 0 < InclLen(c.rest) <= MAX_RECORD_SIZE))
  {
    ReadAllIsCut(s);
  }

  /** A file ending right after a record header loses that record without an error. */
  lemma HeaderAloneIsCleanEnd(timestamp: nat)
    ensures var s := RecordHeader(Seconds(timestamp), Microseconds(timestamp), 28, 28);
      ReadAll(s) == Reading([], None) && s != [] && ReadAll(s[..15]) == Reading([], Some(UnexpectedEof))
  {
    var s := RecordHeader(Seconds(timestamp), Microseconds(timestamp), 28, 28);
    RecordHeaderFields(Seconds(timestamp), Microseconds(timestamp), 28, 28, []);
    Sequences.Empty(s);
  }

  // ---------- records the driver stored ----------

  lemma SameFields(p: seq<Byte>, q: seq<Byte>)
    requires |p| >= PACKET_HEADER && |q| >= PACKET_HEADER && p[..PACKET_HEADER] == q[..PACKET_HEADER]
    ensures PacketHeaderLen(p) == PacketHeaderLen(q) && PacketDevice(p) == PacketDevice(q)
    ensures PacketEndpoint(p) == PacketEndpoint(q) && PacketTransfer(p) == PacketTransfer(q)
    ensures PacketDataLength(p) == PacketDataLength(q)
  {}

  /** What the reader returns for a packet stored under a snapshot length. */
  function Described(snaplen: nat, timestamp: nat, header: seq<Byte>, entries: seq<Payload>): Record
    requires IsPacketHeader(header) && SuppliesPayload(snaplen, header, entries)
  {
    var incl := InclLength(snaplen, header);
    var bare := Record(Seconds(timestamp), Microseconds(timestamp), incl, OrigLength(header), 0, 0, 0, 0, 0, [], 0);
    if incl < PACKET_HEADER then bare
    else
      var n := if incl < |header| then 0 else Min(PacketDataLength(header), incl - |header|);
      bare.(headerLen := |header|, device := PacketDevice(header), endpoint := PacketEndpoint(header),
            transfer := PacketTransfer(header), dataLen := PacketDataLength(header),
            payload := Gather(entries)[..n], actualLen := n)
  }

  /** Round trip: device, endpoint, transfer and data length as supplied, and the
      supplied payload cut to the data length and to what fits behind the header. */
  lemma RecordRoundTrip(snaplen: nat, timestamp: nat, header: seq<Byte>, entries: seq<Payload>)
    requires IsPacketHeader(header) && SuppliesPayload(snaplen, header, entries)
    ensures var r := RecordBytes(snaplen, timestamp, header, entries);
      Framed(r) && ParseRecord(r) == Described(snaplen, timestamp, header, entries)
  {
    var incl := InclLength(snaplen, header);
    var h := Min(incl, |header|);
    var g := Gather(entries);
    var p := g[..Min(|g|, incl - h)];
    var body := header[..h] + p;
    var rh := RecordHeader(Seconds(timestamp), Microseconds(timestamp), incl, OrigLength(header));
    StoredFraming(snaplen, timestamp, header, entries);
    RecordHeaderFields(Seconds(timestamp), Microseconds(timestamp), incl, OrigLength(header), body);
    Sequences.Regroup(rh, header[..h], p);
    if incl >= PACKET_HEADER {
      assert body[..PACKET_HEADER] == header[..PACKET_HEADER];
      SameFields(body, header);
      if incl >= |header| {
        var n := Min(PacketDataLength(header), incl - |header|);
        assert body[|header|..|header| + n] == g[..n];
      }
    }
  }
}
