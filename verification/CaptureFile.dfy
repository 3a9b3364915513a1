/** From the packets handed to the driver to the records the reader returns: the
    pipeline with the capture file in the middle. */
module CaptureFile {
  import opened Wrappers
  import opened Bytes
  import opened Pcap
  import opened PacketStore
  import opened CaptureSession
  import opened StreamFilter
  import opened StreamLaws
  import opened Pipeline
  import opened CaptureReader
  import Sequences

  // ---------- which packets the present ring has accepted ----------

  predicate Stores(es: seq<Event>) {
    forall k :: 0 <= k < |es| ==> es[k].Store? && HonestEvent(es[k])
  }

  function AcceptedStep(w: World, e: Event, before: seq<Event>): (after: seq<Event>)
    requires Enabled(w, e) && HonestEvent(e) && Stores(before)
    ensures Stores(after)
  {
    if w.driver.ring.NoBuffer? && Next(w, e).driver.ring.Buffer? then []
    else if Stored(w.driver, e) == [] then before
    else before + [e]
  }

  /** The stores accepted since the present ring was created, in order. */
  function Accepted(w: World, es: seq<Event>, before: seq<Event>): (after: seq<Event>)
    requires Legal(w, es) && Honest(es) && Stores(before)
    ensures Stores(after)
    decreases |es|
  {
    if es == [] then before
    else
      assert HonestEvent(es[0]);
      Accepted(Next(w, es[0]), es[1..], AcceptedStep(w, es[0], before))
  }

  /** No packet is dropped that fits: it is among the accepted exactly when there is a ring
      with room for its record. */
  lemma AcceptedWhenItFits(w: World, e: Event, before: seq<Event>)
    requires Enabled(w, e) && HonestEvent(e) && e.Store? && Stores(before)
    ensures AcceptedStep(w, e, before) ==
            if w.driver.ring.Buffer? && |w.driver.ring.data| + |RecordOf(w.driver.snaplen, e)| < w.driver.ring.size
            then before + [e] else before
  {
    StoredWhenItFits(w.driver.ring, w.driver.snaplen, e.timestamp, e.header, e.entries);
  }

  function RecordOf(snaplen: nat, e: Event): seq<Byte>
    requires e.Store? && HonestEvent(e)
  {
    RecordBytes(snaplen, e.timestamp, e.header, e.entries)
  }

  function RecordsOf(snaplen: nat, stores: seq<Event>): (rs: seq<seq<Byte>>)
    requires Stores(stores)
    ensures |rs| == |stores| && forall k :: 0 <= k < |rs| ==> rs[k] == RecordOf(snaplen, stores[k])
  {
    seq(|stores|, k requires 0 <= k < |stores| => RecordOf(snaplen, stores[k]))
  }

  predicate Tracks(w: World, accepted: seq<Event>)
    requires Stores(accepted)
  {
    w.driver.ring.Buffer? ==> w.records == RecordsOf(w.driver.snaplen, accepted)
  }

  lemma TracksStep(w: World, e: Event, before: seq<Event>)
    requires Enabled(w, e) && HonestEvent(e) && Stores(before) && Tracks(w, before)
    ensures Tracks(Next(w, e), AcceptedStep(w, e, before))
  {
    var n := Next(w, e);
    if n.driver.ring.Buffer? && w.driver.ring.Buffer? {
      SnaplenFixed(w, e);
      Sequences.Empty(w.records);
    }
  }

  /** The ring's records are those of the accepted packets, in order. */
  lemma {:induction false} RecordsAreAccepted(w: World, es: seq<Event>, before: seq<Event>)
    requires Legal(w, es) && Honest(es) && Stores(before) && Tracks(w, before)
    ensures Tracks(Run(w, es), Accepted(w, es, before))
    decreases |es|
  {
    if es != [] {
      assert HonestEvent(es[0]);
      TracksStep(w, es[0], before);
      RecordsAreAccepted(Next(w, es[0]), es[1..], AcceptedStep(w, es[0], before));
    }
  }

  // ---------- the filter, on packets instead of bytes ----------

  /** What the application filter asks of a packet, whose record may have been cut. */
  predicate Wanted(cfg: Config, snaplen: nat, header: seq<Byte>)
    requires IsPacketHeader(header)
  {
    var f, d := cfg.filter, PacketDevice(header);
    f.enabled ==>
      && InclLength(snaplen, header) >= PACKET_HEADER
      && d < 128
      && (f.vendor.Some? ==> d in cfg.devices && cfg.devices[d].vendor == f.vendor.value)
      && (f.product.Some? ==> d in cfg.devices && cfg.devices[d].product == f.product.value)
      && (f.endpoint.Some? ==> PacketEndpoint(header) == f.endpoint.value)
      && (f.transfer.Some? ==> PacketTransfer(header) == f.transfer.value)
  }

  function Expected(snaplen: nat, e: Event): Record
    requires e.Store? && HonestEvent(e)
  {
    DataLengthSuffices(snaplen, e.header, e.entries);
    Described(snaplen, e.timestamp, e.header, e.entries)
  }

  /** The packets the filter asks for, as the reader should describe them. */
  function WantedPackets(cfg: Config, snaplen: nat, stores: seq<Event>): seq<Record>
    requires Stores(stores)
  {
    if stores == [] then []
    else (if Wanted(cfg, snaplen, stores[0].header) then [Expected(snaplen, stores[0])] else [])
         + WantedPackets(cfg, snaplen, stores[1..])
  }

  lemma RecordFront(snaplen: nat, timestamp: nat, header: seq<Byte>, entries: seq<Payload>)
    requires IsPacketHeader(header) && SuppliesPayload(snaplen, header, entries)
    ensures var p := RecordBytes(snaplen, timestamp, header, entries)[RECORD_HEADER..];
      && |p| == InclLength(snaplen, header)
      && (|p| >= PACKET_HEADER ==> p[..PACKET_HEADER] == header[..PACKET_HEADER])
  {}

  lemma MatchesIsWanted(cfg: Config, snaplen: nat, e: Event)
    requires e.Store? && HonestEvent(e)
    ensures var r := RecordOf(snaplen, e);
      && Framed(r) && InclLen(r) == InclLength(snaplen, e.header)
      && (Matches(cfg, r) <==> Wanted(cfg, snaplen, e.header))
      && ParseRecord(r) == Expected(snaplen, e)
  {
    DataLengthSuffices(snaplen, e.header, e.entries);
    StoredFraming(snaplen, e.timestamp, e.header, e.entries);
    RecordRoundTrip(snaplen, e.timestamp, e.header, e.entries);
    RecordFront(snaplen, e.timestamp, e.header, e.entries);
    var p := RecordOf(snaplen, e)[RECORD_HEADER..];
    if |p| >= PACKET_HEADER {
      SameFields(p, e.header);
    }
  }

  /** Every packet's record is short enough to be read. */
  predicate Readable(snaplen: nat, stores: seq<Event>)
    requires Stores(stores)
  {
    forall k :: 0 <= k < |stores| ==> InclLength(snaplen, stores[k].header) <= MAX_RECORD_SIZE
  }

  lemma {:induction false} KeptAreWanted(cfg: Config, snaplen: nat, stores: seq<Event>)
    requires Stores(stores) && Readable(snaplen, stores)
    ensures var rs := RecordsOf(snaplen, stores);
      && AllFramed(rs) && ShortEnough(Kept(cfg, rs))
      && ParseAll(Kept(cfg, rs)) == WantedPackets(cfg, snaplen, stores)
  {
    var rs := RecordsOf(snaplen, stores);
    if stores != [] {
      KeptAreWanted(cfg, snaplen, stores[1..]);
      MatchesIsWanted(cfg, snaplen, stores[0]);
      assert rs[1..] == RecordsOf(snaplen, stores[1..]);
      assert AllFramed(rs) by {
        forall k | 0 <= k < |rs| ensures Framed(rs[k]) { MatchesIsWanted(cfg, snaplen, stores[k]); }
      }
      KeptStep(cfg, rs);
    }
  }

  lemma KeptStep(cfg: Config, rs: seq<seq<Byte>>)
    requires rs != [] && AllFramed(rs) && ShortEnough(Kept(cfg, rs[1..])) && InclLen(rs[0]) <= MAX_RECORD_SIZE
    ensures ShortEnough(Kept(cfg, rs))
    ensures ParseAll(Kept(cfg, rs)) ==
            (if Matches(cfg, rs[0]) then [ParseRecord(rs[0])] else []) + ParseAll(Kept(cfg, rs[1..]))
  {
    var more := Kept(cfg, rs[1..]);
    if Matches(cfg, rs[0]) {
      ParseCons(rs[0], more);
    } else {
      Sequences.Empty(more);
      Sequences.Empty(ParseAll(more));
    }
  }

  lemma ReadingShort(rs: seq<seq<Byte>>, end: Option<ReadError>)
    requires AllFramed(rs) && ShortEnough(rs)
    ensures ReadingOf(rs, end) == Reading(ParseAll(rs), end)
  {
    assert rs[..FirstTooLong(rs)] == rs;
  }

  lemma Both(ds: seq<seq<Byte>>, rs: seq<seq<Byte>>)
    requires AllFramed(ds) && AllFramed(rs) && ShortEnough(ds) && ShortEnough(rs)
    ensures AllFramed(ds + rs) && ShortEnough(ds + rs) && ParseAll(ds + rs) == ParseAll(ds) + ParseAll(rs)
  {}

  /** Whole records with an incomplete one behind them. */
  lemma ReadWhole(rs: seq<seq<Byte>>, rest: seq<Byte>)
    requires AllFramed(rs) && ShortEnough(rs) && Incomplete(rest)
    ensures ReadAll(Join(rs) + rest) == Reading(ParseAll(rs), EndOf(rest))
  {
    CutJoin(rs, rest);
    Sequences.Empty(rs);
    ReadAllIsCut(Join(rs) + rest);
    ReadingShort(rs, EndOf(rest));
  }

  /** Files of two lists of whole records read back, and how they end. */
  lemma FileOfRecords(ds: seq<seq<Byte>>, rs: seq<seq<Byte>>, rest: seq<Byte>)
    requires AllFramed(ds) && AllFramed(rs) && ShortEnough(ds) && ShortEnough(rs) && Incomplete(rest)
    ensures ReadAll(Join(ds) + (Join(rs) + rest)) == Reading(ParseAll(ds) + ParseAll(rs), EndOf(rest))
  {
    JoinAppend(ds, rs);
    Sequences.Regroup(Join(ds), Join(rs), rest);
    Both(ds, rs);
    ReadWhole(ds + rs, rest);
  }

  lemma FileRead(snaplen: nat, ds: seq<seq<Byte>>, rs: seq<seq<Byte>>, rest: seq<Byte>, file: seq<Byte>)
    requires snaplen < TWO_TO_32 && AllFramed(ds) && AllFramed(rs) && ShortEnough(ds) && ShortEnough(rs) &&
             Incomplete(rest)
    requires file == GlobalHeader(snaplen) + Join(ds) + (Join(rs) + rest)
    ensures HeaderError(file) == None && HeaderSnaplen(file) == snaplen
    ensures ReadAll(file[GLOBAL_HEADER..]) == Reading(ParseAll(ds) + ParseAll(rs), EndOf(rest))
  {
    var h := GlobalHeader(snaplen);
    Sequences.Regroup(h, Join(ds), Join(rs) + rest);
    Sequences.DropBack(h, Join(ds) + (Join(rs) + rest), 0);
    GlobalHeaderFields(snaplen);
    assert forall k :: 0 <= k < 24 ==> file[k] == h[k];
    FileOfRecords(ds, rs, rest);
  }

  lemma FirstAccepted(snaplen: nat, accepted: seq<Event>, k: nat)
    requires Stores(accepted) && Readable(snaplen, accepted) && k <= |accepted|
    ensures Stores(accepted[..k]) && Readable(snaplen, accepted[..k])
    ensures RecordsOf(snaplen, accepted)[..k] == RecordsOf(snaplen, accepted[..k])
  {}

  /** The worker's file opens under the session's snapshot length and reads back as the
      descriptor records followed by the wanted ones among the first k accepted
      packets, each as supplied; end says how it ends. */
  ghost predicate ReadsBack(file: seq<Byte>, snaplen: nat, ds: seq<seq<Byte>>, wanted: seq<Record>,
                            end: Option<ReadError>)
    requires AllFramed(ds)
  {
    && HeaderError(file) == None && HeaderSnaplen(file) == snaplen
    && ReadAll(file[GLOBAL_HEADER..]) == Reading(ParseAll(ds) + wanted, end)
  }

  lemma FilteredFile(cfg: Config, w: World, accepted: seq<Event>, k: nat, p: Parser, ds: seq<seq<Byte>>)
    requires StreamOk(w) && w.driver.ring.Buffer?
    requires Stores(accepted) && Tracks(w, accepted) && Readable(w.driver.snaplen, accepted)
    requires Filtered(cfg, w.driver.snaplen, w.records, w.delivered, k, p) && p.triggered
    requires AllFramed(ds) && ShortEnough(ds) && cfg.descriptors == Join(ds)
    ensures ReadsBack(p.output, w.driver.snaplen, ds, WantedPackets(cfg, w.driver.snaplen, accepted[..k]), None)
  {
    var snaplen := w.driver.snaplen;
    FirstAccepted(snaplen, accepted, k);
    KeptAreWanted(cfg, snaplen, accepted[..k]);
    Sequences.Empty(Join(Kept(cfg, w.records[..k])));
    FileRead(snaplen, ds, Kept(cfg, w.records[..k]), [], p.output);
  }

  lemma PassedFile(cfg: Config, w: World, accepted: seq<Event>, k: nat, rest: seq<Byte>, ds: seq<seq<Byte>>)
    requires StreamOk(w) && w.driver.ring.Buffer? && PassesThrough(cfg)
    requires Stores(accepted) && Tracks(w, accepted) && Readable(w.driver.snaplen, accepted)
    requires DeliveredUpTo(w, k, rest) && Incomplete(rest)
    requires AllFramed(ds) && ShortEnough(ds) && cfg.descriptors == Join(ds)
    ensures ReadsBack(GlobalHeader(w.driver.snaplen) + cfg.descriptors + (Join(w.records[..k]) + rest),
                      w.driver.snaplen, ds, WantedPackets(cfg, w.driver.snaplen, accepted[..k]), EndOf(rest))
  {
    var snaplen := w.driver.snaplen;
    FirstAccepted(snaplen, accepted, k);
    KeptAreWanted(cfg, snaplen, accepted[..k]);
    KeptAll(cfg, w.records[..k]);
    FileRead(snaplen, ds, w.records[..k], rest,
             GlobalHeader(snaplen) + cfg.descriptors + (Join(w.records[..k]) + rest));
  }

  lemma PassedEnd(cfg: Config, w: World, accepted: seq<Event>, k: nat, rest: seq<Byte>)
    requires w.driver.ring.Buffer?
    requires Stores(accepted) && Tracks(w, accepted) && Readable(w.driver.snaplen, accepted)
    requires DeliveredUpTo(w, k, rest) && Incomplete(rest)
    ensures EndOf(rest) == None <==> rest == [] || |rest| == RECORD_HEADER
  {
    if k < |w.records| {
      assert k < |accepted| && w.records[k] == RecordOf(w.driver.snaplen, accepted[k]);
      MatchesIsWanted(cfg, w.driver.snaplen, accepted[k]);
      PartEnd(rest, w.records[k]);
    }
  }

  /** How a file ends in part of a record short enough to be read. */
  lemma PartEnd(rest: seq<Byte>, r: seq<Byte>)
    requires rest <= r && |r| >= RECORD_HEADER && InclLen(r) <= MAX_RECORD_SIZE && Incomplete(rest)
    ensures EndOf(rest) == None <==> rest == [] || |rest| == RECORD_HEADER
  {
    if |rest| >= RECORD_HEADER {
      SameInclLen(rest, r);
    }
  }

  /** Packets to records. After any run of stores, reads, resizes and the rest, and
      however the reads are split, once output has begun the worker's file opens and
      reads back as the descriptor records followed by the wanted ones among the first
      k accepted packets, each as supplied. The end is clean, except where the worker
      passes bytes through and the last record delivered in part is more or less than
      a bare record header. */
  lemma StoredPacketsAreRead(es: seq<Event>, cfg: Config, chunks: seq<seq<Byte>>, ds: seq<seq<Byte>>)
    returns (k: nat, rest: seq<Byte>)
    requires Legal(Boot(), es) && Honest(es)
    requires AllFramed(ds) && ShortEnough(ds) && cfg.descriptors == Join(ds)
    requires var w := Run(Boot(), es);
      w.driver.ring.Buffer? && Join(chunks) == w.delivered && |w.delivered| >= GLOBAL_HEADER
    requires Readable(Run(Boot(), es).driver.snaplen, Accepted(Boot(), es, []))
    requires WorkerFile(cfg, chunks) != []
    ensures DeliveredUpTo(Run(Boot(), es), k, rest) && Incomplete(rest)
    ensures var snaplen, accepted := Run(Boot(), es).driver.snaplen, Accepted(Boot(), es, []);
            var end := if PassesThrough(cfg) then EndOf(rest) else None;
      && k <= |accepted|
      && ReadsBack(WorkerFile(cfg, chunks), snaplen, ds, WantedPackets(cfg, snaplen, accepted[..k]), end)
      && (end == None <==> !PassesThrough(cfg) || rest == [] || |rest| == RECORD_HEADER)
  {
    var w, accepted := Run(Boot(), es), Accepted(Boot(), es, []);
    RunFromBoot(es);
    RecordsAreAccepted(Boot(), es, []);
    if PassesThrough(cfg) {
      k := EndToEndPassThrough(es, cfg, chunks);
      rest := Leftover(w.delivered);
      CutIsExact(w.delivered[GLOBAL_HEADER..]);
      PassedFile(cfg, w, accepted, k, rest, ds);
      PassedEnd(cfg, w, accepted, k, rest);
    } else {
      k := EndToEnd(es, cfg, chunks);
      var p := FeedAll(cfg, FRESH, chunks);
      rest := p.pending;
      HeldBack(es, cfg, k, p);
      FilteredFile(cfg, w, accepted, k, p, ds);
    }
  }

  lemma HeldBack(es: seq<Event>, cfg: Config, k: nat, p: Parser)
    requires Legal(Boot(), es) && Honest(es) && Run(Boot(), es).driver.ring.Buffer?
    requires var w := Run(Boot(), es); Filtered(cfg, w.driver.snaplen, w.records, w.delivered, k, p)
    ensures DeliveredUpTo(Run(Boot(), es), k, p.pending) && Incomplete(p.pending)
  {
    RunKeepsWhole(Boot(), es);
    var w := Run(Boot(), es);
    if k < |w.records| {
      PrefixIncomplete(w.records[k], p.pending);
    }
  }

  /** From w the events lead to v, accepting the stores given on top of those before. */
  ghost predicate Leads(w: World, es: seq<Event>, v: World, before: seq<Event>, after: seq<Event>) {
    && Legal(w, es) && Honest(es) && Stores(before)
    && Run(w, es) == v && Accepted(w, es, before) == after
  }

  lemma PrependEvent(w: World, e: Event, es: seq<Event>, v: World, before: seq<Event>, after: seq<Event>)
    requires Enabled(w, e) && HonestEvent(e) && Stores(before)
    requires Leads(Next(w, e), es, v, AcceptedStep(w, e, before), after)
    ensures Leads(w, [e] + es, v, before, after)
  {
    var all := [e] + es;
    assert all[0] == e && all[1..] == es;
    assert forall k :: 0 <= k < |all| ==> all[k] == if k == 0 then e else es[k - 1];
  }

  /** An open capture handle and a ring with data in it. */
  ghost predicate Capturing(w: World, data: seq<Byte>, records: seq<seq<Byte>>, delivered: seq<Byte>) {
    && w.driver.capture == Some(1) && w.driver.snaplen == DEFAULT_SNAPLEN && w.driver.pended == []
    && w.driver.ring == Buffer(8192, data) && w.files == map[1 := Open] && w.issued == {}
    && w.records == records && w.delivered == delivered
  }

  lemma OpenedAndSetUp(w: World)
    requires w == Next(Boot(), Create(1, true))
    ensures Enabled(w, SetupBuffer(1, 8192, true))
    ensures Capturing(Next(w, SetupBuffer(1, 8192, true)), GlobalHeader(DEFAULT_SNAPLEN), [], [])
    ensures AcceptedStep(w, SetupBuffer(1, 8192, true), []) == []
  {}

  lemma StoredOne(w: World, data: seq<Byte>, e: Event)
    requires Capturing(w, data, [], []) && |data| == GLOBAL_HEADER
    requires e.Store? && HonestEvent(e) && |e.header| + PacketDataLength(e.header) <= 4000
    ensures var r := RecordOf(DEFAULT_SNAPLEN, e); |data + r| < 8192 && Capturing(Next(w, e), data + r, [r], [])
    ensures AcceptedStep(w, e, []) == [e]
  {
    StoreExactly(Buffer(8192, data), DEFAULT_SNAPLEN, e.timestamp, e.header, e.entries);
    SmallRecord(e);
    StoredNext(w, data, e, RecordOf(DEFAULT_SNAPLEN, e));
    Sequences.Empty([e]);
  }

  lemma SmallRecord(e: Event)
    requires e.Store? && HonestEvent(e) && |e.header| + PacketDataLength(e.header) <= 4000
    ensures var r := RecordOf(DEFAULT_SNAPLEN, e);
      |r| >= RECORD_HEADER && InclLen(r) <= 4000 && |r| <= RECORD_HEADER + 4000
      && InclLen(r) <= |e.header| + |Gather(e.entries)|
  {
    DataLengthSuffices(DEFAULT_SNAPLEN, e.header, e.entries);
    StoredFraming(DEFAULT_SNAPLEN, e.timestamp, e.header, e.entries);
  }

  lemma StoredNext(w: World, data: seq<Byte>, e: Event, r: seq<Byte>)
    requires Capturing(w, data, [], []) && e.Store? && Enabled(w, e)
    requires r == RecordBytes(DEFAULT_SNAPLEN, e.timestamp, e.header, e.entries)
    requires StoreInRing(Buffer(8192, data), DEFAULT_SNAPLEN, e.timestamp, e.header, e.entries)
             == (Buffer(8192, data + r), Success)
    ensures Stored(w.driver, e) == [r] && Capturing(Next(w, e), data + r, [r], [])
  {
    Sequences.Empty([r]);
    Sequences.Empty<Byte>([]);
  }

  lemma ReadAllOfIt(w: World, data: seq<Byte>, records: seq<seq<Byte>>)
    requires Capturing(w, data, records, []) && 0 < |data| < 8192
    ensures var read := Read(Irp(1, 1, 8192), true);
      && Enabled(w, read) && Next(w, read).driver.ring.Buffer? && Next(w, read).records == records
      && Next(w, read).delivered == data && Next(w, read).driver.snaplen == DEFAULT_SNAPLEN
  {
    assert data[..|data|] == data;
    DataOne(Completion(1, Success, data));
    Sequences.Empty(records);
    Sequences.Empty(data);
  }

  lemma ReadLeads(w: World, data: seq<Byte>, records: seq<seq<Byte>>, accepted: seq<Event>) returns (v: World)
    requires Capturing(w, data, records, []) && 0 < |data| < 8192 && Stores(accepted)
    ensures Leads(w, [Read(Irp(1, 1, 8192), true)], v, accepted, accepted)
    ensures v.driver.ring.Buffer? && v.records == records && v.delivered == data
  {
    var read := Read(Irp(1, 1, 8192), true);
    ReadAllOfIt(w, data, records);
    v := Next(w, read);
    assert Leads(v, [], v, accepted, accepted);
    PrependEvent(w, read, [], v, accepted, accepted);
    Sequences.Empty([read]);
  }

  lemma StoreAndRead(w: World, e: Event) returns (v: World)
    requires e.Store? && HonestEvent(e) && |e.header| + PacketDataLength(e.header) <= 4000
    requires Capturing(w, GlobalHeader(DEFAULT_SNAPLEN), [], [])
    ensures Leads(w, [e] + [Read(Irp(1, 1, 8192), true)], v, [], [e])
    ensures v.driver.ring.Buffer? && v.records == [RecordOf(DEFAULT_SNAPLEN, e)]
    ensures v.delivered == GlobalHeader(DEFAULT_SNAPLEN) + RecordOf(DEFAULT_SNAPLEN, e)
  {
    var g, r := GlobalHeader(DEFAULT_SNAPLEN), RecordOf(DEFAULT_SNAPLEN, e);
    StoredOne(w, g, e);
    v := ReadLeads(Next(w, e), g + r, [r], [e]);
    PrependEvent(w, e, [Read(Irp(1, 1, 8192), true)], v, [], [e]);
  }

  /** A run the theorem applies to: a handle is opened, a ring set up, one packet stored
      and everything read. */
  lemma OnePacketRun(e: Event) returns (es: seq<Event>)
    requires e.Store? && HonestEvent(e) && |e.header| + PacketDataLength(e.header) <= 4000
    ensures Legal(Boot(), es) && Honest(es)
    ensures var w := Run(Boot(), es);
      && w.driver.ring.Buffer? && w.records == [RecordOf(DEFAULT_SNAPLEN, e)]
      && w.delivered == GlobalHeader(DEFAULT_SNAPLEN) + RecordOf(DEFAULT_SNAPLEN, e)
    ensures Accepted(Boot(), es, []) == [e]
  {
    var create, setup := Create(1, true), SetupBuffer(1, 8192, true);
    var w1 := Next(Boot(), create);
    OpenedAndSetUp(w1);
    es := [e] + [Read(Irp(1, 1, 8192), true)];
    var v := StoreAndRead(Next(w1, setup), e);
    PrependEvent(w1, setup, es, v, [], [e]);
    PrependEvent(Boot(), create, [setup] + es, v, [], [e]);
    es := [create] + ([setup] + es);
  }
}
