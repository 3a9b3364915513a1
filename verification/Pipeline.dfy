/** From the driver's ring to the file: every run of the capture session composed
    with the worker that parses what its reads deliver. */
module Pipeline {
  import opened Bytes
  import opened Pcap
  import opened Sequences
  import opened CaptureSession
  import opened StreamFilter
  import opened StreamLaws

  /** What the worker makes of the bytes delivered so far, the first k records being
      the fully delivered ones: its output is the session's global header, the
      injected descriptors and exactly those of the k records that match the filter,
      in store order; it holds back part of record k and has counted the others. */
  ghost predicate Filtered(cfg: Config, snaplen: nat, records: seq<seq<Byte>>, delivered: seq<Byte>, k: nat,
                           p: Parser) {
    && k <= |records| && AllFramed(records[..k])
    && delivered == GlobalHeader(snaplen) + (Join(records[..k]) + p.pending)
    && (if k < |records| then p.pending < records[k] else p.pending == [])
    && (p.triggered <==> cfg.mode.Immediate? || exists i :: 0 <= i < k && Matches(cfg, records[..k][i]))
    && p.output == (if p.triggered then GlobalHeader(snaplen) + cfg.descriptors + Join(Kept(cfg, records[..k])) else [])
    && (p.dropped + |Kept(cfg, records[..k])|) % TWO_TO_32 == k % TWO_TO_32
  }

  lemma OutcomeFiltered(w: World, cfg: Config) returns (k: nat)
    requires StreamOk(w) && Whole(w) && w.driver.ring.Buffer? && |w.delivered| >= GLOBAL_HEADER && cfg.opens
    ensures Filtered(cfg, w.driver.snaplen, w.records, w.delivered, k, Outcome(cfg, w.delivered))
  {
    OutputIsFiltered(cfg, w.delivered);
    k := FilteredRecords(w, cfg, Outcome(cfg, w.delivered));
  }

  lemma FilteredRecords(w: World, cfg: Config, p: Parser) returns (k: nat)
    requires StreamOk(w) && Whole(w) && w.driver.ring.Buffer? && |w.delivered| >= GLOBAL_HEADER
    requires AllFramed(Records(w.delivered)) && IsFiltered(cfg, w.delivered, p)
    ensures Filtered(cfg, w.driver.snaplen, w.records, w.delivered, k, p)
  {
    k := DeliveredRecords(w);
    var rs := w.records[..k];
    DeliveredSplit(w, rs);
    OutputOf(cfg, w.driver.snaplen, w.delivered, p);
    AsFiltered(cfg, w.driver.snaplen, w.records, w.delivered, k, p, rs);
  }

  lemma AsFiltered(cfg: Config, snaplen: nat, records: seq<seq<Byte>>, delivered: seq<Byte>, k: nat, p: Parser,
                   rs: seq<seq<Byte>>)
    requires |delivered| >= GLOBAL_HEADER && rs == Records(delivered) && AllFramed(rs)
    requires IsFiltered(cfg, delivered, p) && k <= |records| && rs == records[..k]
    requires delivered == GlobalHeader(snaplen) + (Join(rs) + p.pending)
    requires if k < |records| then p.pending < records[k] else p.pending == []
    requires p.output == if p.triggered then GlobalHeader(snaplen) + cfg.descriptors + Join(Kept(cfg, rs)) else []
    ensures Filtered(cfg, snaplen, records, delivered, k, p)
  {}

  /** A stored header names the link type, so descriptors follow it. */
  lemma OutputOf(cfg: Config, snaplen: nat, s: seq<Byte>, p: Parser)
    requires |s| >= GLOBAL_HEADER && s[..GLOBAL_HEADER] == GlobalHeader(snaplen) && snaplen < TWO_TO_32
    requires AllFramed(Records(s)) && IsFiltered(cfg, s, p)
    ensures p.output == if p.triggered then GlobalHeader(snaplen) + cfg.descriptors + Join(Kept(cfg, Records(s)))
                        else []
  {
    GlobalHeaderFields(snaplen);
  }

  lemma DeliveredSplit(w: World, rs: seq<seq<Byte>>)
    requires |w.delivered| >= GLOBAL_HEADER && Records(w.delivered) == rs
    ensures w.delivered == w.delivered[..GLOBAL_HEADER] + (Join(rs) + Leftover(w.delivered))
  {
    CutIsExact(w.delivered[GLOBAL_HEADER..]);
    Split(w.delivered, GLOBAL_HEADER);
  }

  lemma AnyChunks(cfg: Config, chunks: seq<seq<Byte>>)
    ensures FeedAll(cfg, FRESH, chunks) == Outcome(cfg, Join(chunks))
  {
    ChunkIndependence(cfg, [], chunks);
    Empty(Join(chunks));
  }

  /** The bytes the worker writes when it reads the given chunks, by the path that
      process_data takes for its configuration. */
  function WorkerFile(cfg: Config, chunks: seq<seq<Byte>>): seq<Byte> {
    if PassesThrough(cfg) then PassAll(cfg, PassThrough([], true, []), chunks).output
    else FeedAll(cfg, FRESH, chunks).output
  }

  /** Without an output file nothing is written, on either path. */
  lemma NoFile(cfg: Config, chunks: seq<seq<Byte>>)
    requires !cfg.opens
    ensures WorkerFile(cfg, chunks) == []
  {
    if PassesThrough(cfg) {
      PassAllIsPassed(cfg, [], chunks);
      Empty(Join(chunks));
    } else {
      AnyChunks(cfg, chunks);
      if |Join(chunks)| >= GLOBAL_HEADER {
        NoOutput(cfg, Join(chunks));
      }
    }
  }

  /** End to end, where a filter is enabled or output waits for a match. After any run
      of stores, reads, resizes and the rest, however the bytes delivered so far are
      split among the worker's reads, its output is exactly the filtered stream of
      fully delivered records; in on-match mode there is none before the first match.
      Without an output file there is none at all. */
  lemma EndToEnd(es: seq<Event>, cfg: Config, chunks: seq<seq<Byte>>) returns (k: nat)
    requires Legal(Boot(), es) && Honest(es) && !PassesThrough(cfg)
    requires var w := Run(Boot(), es);
      w.driver.ring.Buffer? && Join(chunks) == w.delivered && |w.delivered| >= GLOBAL_HEADER
    ensures var w := Run(Boot(), es);
      && WorkerFile(cfg, chunks) == FeedAll(cfg, FRESH, chunks).output
      && if cfg.opens then Filtered(cfg, w.driver.snaplen, w.records, w.delivered, k, FeedAll(cfg, FRESH, chunks))
         else WorkerFile(cfg, chunks) == []
  {
    if cfg.opens {
      RunFromBoot(es);
      RunKeepsWhole(Boot(), es);
      k := OutcomeFiltered(Run(Boot(), es), cfg);
      AnyChunks(cfg, chunks);
    } else {
      k := 0;
      NoFile(cfg, chunks);
    }
  }

  /** The bytes delivered are the header, the first k records and rest, which is part
      of the next one. */
  ghost predicate DeliveredUpTo(w: World, k: nat, rest: seq<Byte>) {
    && k <= |w.records|
    && w.delivered == GlobalHeader(w.driver.snaplen) + (Join(w.records[..k]) + rest)
    && if k < |w.records| then rest < w.records[k] else rest == []
  }

  /** End to end without a filter in immediate mode, where the worker passes through
      what it reads: the header, the descriptors and every byte delivered after the
      header, the last record possibly in part; or nothing, if the file could not be
      created before it started. */
  lemma EndToEndPassThrough(es: seq<Event>, cfg: Config, chunks: seq<seq<Byte>>) returns (k: nat)
    requires Legal(Boot(), es) && Honest(es) && PassesThrough(cfg)
    requires var w := Run(Boot(), es);
      w.driver.ring.Buffer? && Join(chunks) == w.delivered && |w.delivered| >= GLOBAL_HEADER
    ensures var w := Run(Boot(), es);
      && DeliveredUpTo(w, k, Leftover(w.delivered))
      && WorkerFile(cfg, chunks) ==
         if cfg.opens
         then GlobalHeader(w.driver.snaplen) + cfg.descriptors + (Join(w.records[..k]) + Leftover(w.delivered))
         else []
  {
    var w := Run(Boot(), es);
    RunFromBoot(es);
    RunKeepsWhole(Boot(), es);
    k := DeliveredRecords(w);
    PassAllIsPassed(cfg, [], chunks);
    Empty(Join(chunks));
    GlobalHeaderFields(w.driver.snaplen);
    CutIsExact(w.delivered[GLOBAL_HEADER..]);
    Split(w.delivered, GLOBAL_HEADER);
  }

  lemma RestWithin(rs: seq<seq<Byte>>, s: seq<Byte>, limit: nat)
    requires AllFramed(rs) && s <= Join(rs)
    requires forall k :: 0 <= k < |rs| ==> |rs[k]| < limit
    requires limit > 0
    ensures |Cut(s).rest| + 2 <= limit || Cut(s).rest == []
  {
    var k := CutPrefix(rs, s);
  }

  lemma WorldBounded(w: World, cfg: Config, x: seq<Byte>, chunk: seq<Byte>)
    requires StreamOk(w) && Whole(w) && w.driver.ring.Buffer?
    requires x + chunk <= w.delivered && |chunk| <= w.largest && Outcome(cfg, x).process
    ensures Bounded(Outcome(cfg, x), chunk, w.largest)
  {
    if |x + chunk| >= GLOBAL_HEADER {
      BehindHeader(w, x + chunk);
    }
    if |x| >= GLOBAL_HEADER {
      var s := x[GLOBAL_HEADER..];
      assert (x + chunk)[GLOBAL_HEADER..] == s + chunk;
      PrefixTransitive(x, chunk, w.delivered);
      BehindHeader(w, x);
      RestOfOutcome(cfg, x);
      SaneRest(s, chunk);
    }
  }

  /** In what is delivered no length overflows, and what is left behind the whole
      records is less than a ring. */
  lemma BehindHeader(w: World, x: seq<Byte>)
    requires StreamOk(w) && Whole(w) && w.driver.ring.Buffer? && x <= w.delivered && |x| >= GLOBAL_HEADER
    ensures SaneLengths(x[GLOBAL_HEADER..]) && |Cut(x[GLOBAL_HEADER..]).rest| + 2 <= w.largest
  {
    var s := x[GLOBAL_HEADER..];
    SuffixOfConcat(GlobalHeader(w.driver.snaplen), Join(w.records), x);
    assert forall k :: 0 <= k < |w.records| ==>
           Framed(w.records[k]) && RecordOk(w.records[k], w.driver.snaplen, w.largest);
    SanePrefix(w.records, s);
    RestWithin(w.records, s, w.largest);
  }

  lemma PrefixTransitive(s: seq<Byte>, chunk: seq<Byte>, t: seq<Byte>)
    requires s + chunk <= t
    ensures s <= t
  {}

  /** The pending buffer's bound. A worker that is still parsing holds less than one
      record, so with reads no longer than the largest ring it needs less than twice
      that many bytes: no 32-bit sum or doubling overflows. And no record header it
      meets announces a length that overflows, so the loop always advances. */
  lemma PendingBounded(es: seq<Event>, cfg: Config, x: seq<Byte>, chunk: seq<Byte>)
    requires Legal(Boot(), es) && Honest(es)
    requires var w := Run(Boot(), es);
      w.driver.ring.Buffer? && x + chunk <= w.delivered && |chunk| <= w.largest
    requires Outcome(cfg, x).process
    ensures Bounded(Outcome(cfg, x), chunk, Run(Boot(), es).largest)
  {
    RunFromBoot(es);
    RunKeepsWhole(Boot(), es);
    WorldBounded(Run(Boot(), es), cfg, x, chunk);
  }

  lemma RestOfOutcome(cfg: Config, x: seq<Byte>)
    requires |x| >= GLOBAL_HEADER && Outcome(cfg, x).process
    ensures Outcome(cfg, x).pending == Cut(x[GLOBAL_HEADER..]).rest && Outcome(cfg, x).header.Some?
  {}

  lemma {:induction false} SaneRest(s: seq<Byte>, chunk: seq<Byte>)
    requires SaneLengths(s + chunk)
    ensures SaneLengths(Cut(s).rest + chunk)
    decreases |s|
  {
    if !Incomplete(s) {
      FrontRecord(s, chunk);
      SaneRest(s[RECORD_HEADER + InclLen(s)..], chunk);
    }
  }
}
