/** The worker's stream parser (USBPcapCMD/thread.c, process_data): record
    reassembly from read chunks, the application filter, descriptor injection and
    the two store modes, plus the pass-through path.

    Feed follows the code chunk by chunk. Outcome says what a whole input means,
    in terms of its records only. FeedIsOutcome shows they agree, so the way the
    input is split into chunks cannot matter. */
module StreamFilter {
  import opened Wrappers
  import opened Bytes
  import opened Pcap
  import opened Sequences

  datatype Filter = Filter(enabled: bool, vendor: Option<nat>, product: Option<nat>,
                           endpoint: Option<nat>, transfer: Option<nat>)

  datatype Device = Device(vendor: nat, product: nat)

  datatype StoreMode = Immediate | OnMatch

  /** devices holds the addresses whose metadata is present; opens says whether the
      output file can be created, by the worker or, in immediate mode, before it starts. */
  datatype Config = Config(filter: Filter, devices: map<nat, Device>, mode: StoreMode,
                           descriptors: seq<Byte>, opens: bool)

  /** app_packet_matches on a whole record. */
  predicate Matches(cfg: Config, r: seq<Byte>)
    requires |r| >= RECORD_HEADER
  {
    var f, p := cfg.filter, r[RECORD_HEADER..];
    if !f.enabled then true
    else if |p| < PACKET_HEADER then false
    else if PacketDevice(p) >= 128 then false
    else
      var d := PacketDevice(p);
      && (f.vendor.Some? ==> d in cfg.devices && cfg.devices[d].vendor == f.vendor.value)
      && (f.product.Some? ==> d in cfg.devices && cfg.devices[d].product == f.product.value)
      && (f.endpoint.Some? ==> PacketEndpoint(p) == f.endpoint.value)
      && (f.transfer.Some? ==> PacketTransfer(p) == f.transfer.value)
  }

  /** The descriptor records that follow the global header. */
  function Injected(cfg: Config, header: seq<Byte>): seq<Byte>
    requires |header| == GLOBAL_HEADER
  {
    if HeaderMagic(header) == MAGIC && HeaderNetwork(header) == DLT_USBPCAP then cfg.descriptors else []
  }

  // ---------- the code, chunk by chunk ----------

  /** Parser context and the parts of thread_data it changes. */
  datatype Parser = Parser(pending: seq<Byte>, header: Option<seq<Byte>>, wroteHeader: bool,
                           triggered: bool, dropped: nat, process: bool, output: seq<Byte>)
  {
    predicate Valid() {
      && (header.Some? ==> |header.value| == GLOBAL_HEADER)
      && (header.None? ==> !wroteHeader)
      && dropped < TWO_TO_32
    }
  }

  const FRESH := Parser([], None, false, false, 0, true, [])

  /** begin_output_stream: on success the header and descriptors are written once. */
  function Begin(cfg: Config, p: Parser): (q: Parser)
    requires p.Valid() && p.header.Some?
    ensures q.Valid() && q.pending == p.pending && q.header == p.header
  {
    if p.wroteHeader then p
    else if !cfg.opens then p.(process := false)
    else p.(output := p.output + (p.header.value + Injected(cfg, p.header.value)),
            wroteHeader := true, triggered := true)
  }

  /** The first part of the loop body: take the global header off. */
  function TakeHeader(cfg: Config, p: Parser): (q: Parser)
    requires p.Valid()
    ensures q.Valid()
    ensures |q.pending| <= |p.pending|
    ensures q.header == p.header || |q.pending| < |p.pending|
  {
    if p.header.None? && |p.pending| >= GLOBAL_HEADER then
      var q := p.(header := Some(p.pending[..GLOBAL_HEADER]), pending := p.pending[GLOBAL_HEADER..]);
      if cfg.mode.Immediate? then Begin(cfg, q) else q
    else p
  }

  /** What happens to a whole record at the front of pending. The parser may stop
      before it, when the output cannot be opened. */
  function TakeRecord(cfg: Config, p: Parser): (q: Parser)
    requires p.Valid() && p.header.Some? && p.process && !Incomplete(p.pending)
    ensures q.Valid() && q.header.Some?
    ensures q.process ==> |q.pending| < |p.pending|
  {
    var n := RECORD_HEADER + InclLen(p.pending);
    var r := p.pending[..n];
    if Matches(cfg, r) then
      var q := if cfg.mode.OnMatch? && !p.triggered then Begin(cfg, p) else p;
      if !q.process then q
      else if cfg.mode.Immediate? || q.triggered then
        var u := if cfg.mode.Immediate? then Begin(cfg, q) else q;
        if !u.process then u
        else u.(output := u.output + r, pending := p.pending[n..])
      else q.(pending := p.pending[n..])
    else p.(dropped := (p.dropped + 1) % TWO_TO_32, pending := p.pending[n..])
  }

  /** The loop of process_data. */
  function Loop(cfg: Config, p: Parser): (q: Parser)
    requires p.Valid()
    ensures q.Valid()
    decreases |p.pending|
  {
    if !p.process then p
    else
      var h := TakeHeader(cfg, p);
      if !h.process || h.header.None? || Incomplete(h.pending) then h
      else
        var q := TakeRecord(cfg, h);
        if !q.process then q else Loop(cfg, q)
  }

  /** One call of process_data on the parsing path. */
  function Feed(cfg: Config, p: Parser, chunk: seq<Byte>): (q: Parser)
    requires p.Valid()
    ensures q.Valid()
  {
    Loop(cfg, p.(pending := p.pending + chunk))
  }

  // ---------- what a whole input means ----------

  /** The matching records, in order. */
  function Kept(cfg: Config, rs: seq<seq<Byte>>): (k: seq<seq<Byte>>)
    requires AllFramed(rs)
    ensures AllFramed(k) && |k| <= |rs|
  {
    if rs == [] then []
    else (if Matches(cfg, rs[0]) then [rs[0]] else []) + Kept(cfg, rs[1..])
  }

  function FirstMatch(cfg: Config, rs: seq<seq<Byte>>): (k: nat)
    requires AllFramed(rs)
    ensures k <= |rs|
    ensures k < |rs| ==> Matches(cfg, rs[k])
    ensures forall i :: 0 <= i < k ==> !Matches(cfg, rs[i])
  {
    if rs == [] || Matches(cfg, rs[0]) then 0 else 1 + FirstMatch(cfg, rs[1..])
  }

  /** The bytes of the records from the first match on. */
  function FromFirst(cfg: Config, rs: seq<seq<Byte>>): (b: seq<Byte>)
    requires AllFramed(rs)
  {
    if rs == [] then [] else if Matches(cfg, rs[0]) then Join(rs) else FromFirst(cfg, rs[1..])
  }

  /** What matters of a run of records: how many, how many kept, their bytes, where
      the first match is and the bytes from there on. */
  datatype Summary = Summary(count: nat, keptCount: nat, all: seq<Byte>, kept: seq<Byte>, first: nat,
                             fromFirst: seq<Byte>)
  {
    ghost predicate Valid() {
      keptCount <= count && first <= count && (first == count ==> keptCount == 0 && kept == [] && fromFirst == [])
    }
  }

  function Summarize(cfg: Config, rs: seq<seq<Byte>>): (m: Summary)
    requires AllFramed(rs)
  {
    Summary(|rs|, |Kept(cfg, rs)|, Join(rs), Join(Kept(cfg, rs)), FirstMatch(cfg, rs), FromFirst(cfg, rs))
  }

  /** p after passing records once its output has begun: the matching ones are
      written, the others counted. */
  function Written(p: Parser, m: Summary, rest: seq<Byte>): (q: Parser)
    requires m.Valid()
  {
    p.(pending := rest, output := p.output + m.kept, dropped := (p.dropped + (m.count - m.keptCount)) % TWO_TO_32)
  }

  /** p after passing records while it waits for its first match: all are dropped up
      to the match; there it starts, or stops if the output cannot be opened. */
  function Waited(cfg: Config, p: Parser, m: Summary, rest: seq<Byte>): (q: Parser)
    requires m.Valid() && p.Valid() && p.header.Some?
  {
    if m.first == m.count then p.(pending := rest, dropped := (p.dropped + m.count) % TWO_TO_32)
    else if !cfg.opens then
      p.(pending := m.fromFirst + rest, dropped := (p.dropped + m.first) % TWO_TO_32, process := false)
    else Written(Begin(cfg, p), m, rest)
  }

  /** The parser state a whole input stands for. */
  function Outcome(cfg: Config, s: seq<Byte>): (p: Parser)
    ensures p.Valid()
  {
    if |s| < GLOBAL_HEADER then FRESH.(pending := s)
    else
      CutIsExact(s[GLOBAL_HEADER..]);
      var c := Cut(s[GLOBAL_HEADER..]);
      SummaryValid(cfg, c.records);
      var m := Summarize(cfg, c.records);
      var p := FRESH.(header := Some(s[..GLOBAL_HEADER]), pending := s[GLOBAL_HEADER..]);
      if cfg.mode.OnMatch? then Waited(cfg, p, m, c.rest)
      else if cfg.opens then Written(Begin(cfg, p), m, c.rest)
      else p.(process := false)
  }

  // ---------- they agree ----------

  lemma {:induction false} KeptAppend(cfg: Config, a: seq<seq<Byte>>, b: seq<seq<Byte>>)
    requires AllFramed(a) && AllFramed(b)
    ensures AllFramed(a + b) && Kept(cfg, a + b) == Kept(cfg, a) + Kept(cfg, b)
  {
    if a == [] {
      Empty(b);
      Empty(Kept(cfg, b));
    } else {
      KeptAppend(cfg, a[1..], b);
      AppendTail(a, b);
      Regroup(if Matches(cfg, a[0]) then [a[0]] else [], Kept(cfg, a[1..]), Kept(cfg, b));
    }
  }

  lemma {:induction false} FirstMatchAppend(cfg: Config, a: seq<seq<Byte>>, b: seq<seq<Byte>>)
    requires AllFramed(a) && AllFramed(b)
    ensures AllFramed(a + b)
    ensures FirstMatch(cfg, a + b) == if FirstMatch(cfg, a) < |a| then FirstMatch(cfg, a) else |a| + FirstMatch(cfg, b)
  {
    if a == [] {
      Empty(b);
    } else {
      AppendTail(a, b);
      FirstMatchAppend(cfg, a[1..], b);
    }
  }

  lemma {:induction false} KeptNothing(cfg: Config, rs: seq<seq<Byte>>)
    requires AllFramed(rs)
    ensures FirstMatch(cfg, rs) == |rs| ==> Kept(cfg, rs) == [] && FromFirst(cfg, rs) == []
  {
    if rs != [] && !Matches(cfg, rs[0]) {
      KeptNothing(cfg, rs[1..]);
    }
  }

  lemma {:induction false} FromFirstAppend(cfg: Config, a: seq<seq<Byte>>, b: seq<seq<Byte>>)
    requires AllFramed(a) && AllFramed(b)
    ensures AllFramed(a + b)
    ensures FromFirst(cfg, a + b) == if FirstMatch(cfg, a) < |a| then FromFirst(cfg, a) + Join(b) else FromFirst(cfg, b)
  {
    if a == [] {
      Empty(b);
    } else {
      AppendTail(a, b);
      if Matches(cfg, a[0]) {
        JoinAppend(a, b);
      } else {
        FromFirstAppend(cfg, a[1..], b);
      }
    }
  }

  lemma SummaryValid(cfg: Config, rs: seq<seq<Byte>>)
    requires AllFramed(rs)
    ensures Summarize(cfg, rs).Valid()
  {
    KeptNothing(cfg, rs);
  }

  /** A whole record in front of pending is taken off as such. */
  lemma FrontOf(r: seq<Byte>, more: seq<Byte>)
    requires Framed(r)
    ensures !Incomplete(r + more) && RECORD_HEADER + InclLen(r + more) == |r|
    ensures (r + more)[..|r|] == r && (r + more)[|r|..] == more
  {}

  lemma ModStep(a: nat, b: nat)
    ensures (a % TWO_TO_32 + b) % TWO_TO_32 == (a + b) % TWO_TO_32
  {}

  lemma LoopStops(cfg: Config, p: Parser)
    requires p.Valid() && p.header.Some? && Incomplete(p.pending)
    ensures Loop(cfg, p) == p
  {}

  lemma LoopTakes(cfg: Config, p: Parser, r: seq<Byte>, more: seq<Byte>)
    requires p.Valid() && p.header.Some? && p.process && Framed(r) && p.pending == r + more
    ensures !Incomplete(p.pending)
    ensures var q := TakeRecord(cfg, p); Loop(cfg, p) == if q.process then Loop(cfg, q) else q
    ensures !Matches(cfg, r) ==> TakeRecord(cfg, p) == p.(dropped := (p.dropped + 1) % TWO_TO_32, pending := more)
    ensures Matches(cfg, r) && p.wroteHeader && p.triggered ==>
              TakeRecord(cfg, p) == p.(output := p.output + r, pending := more)
    ensures Matches(cfg, r) && cfg.mode.OnMatch? && !p.triggered && !p.wroteHeader ==>
              TakeRecord(cfg, p) ==
              if cfg.opens then Begin(cfg, p).(output := Begin(cfg, p).output + r, pending := more)
                                    else p.(process := false)
  {
    FrontOf(r, more);
  }

  /** m summarizes a run whose first record is r and whose others t summarizes. */
  ghost predicate Cons(m: Summary, t: Summary, r: seq<Byte>, matched: bool) {
    && m.Valid() && t.Valid()
    && m.count == t.count + 1
    && (if matched
        then m.keptCount == t.keptCount + 1 && m.kept == r + t.kept && m.first == 0 && m.fromFirst == r + t.all
        else m.keptCount == t.keptCount && m.kept == t.kept && m.first == t.first + 1 && m.fromFirst == t.fromFirst)
  }

  lemma SummaryCons(cfg: Config, rs: seq<seq<Byte>>)
    requires AllFramed(rs) && rs != []
    ensures Cons(Summarize(cfg, rs), Summarize(cfg, rs[1..]), rs[0], Matches(cfg, rs[0]))
  {
    SummaryValid(cfg, rs);
    SummaryValid(cfg, rs[1..]);
    var k := Kept(cfg, rs[1..]);
    if Matches(cfg, rs[0]) {
      JoinCons(rs[0], k);
    } else {
      Empty(k);
    }
  }

  lemma WrittenMatch(p: Parser, m: Summary, t: Summary, r: seq<Byte>, rest: seq<Byte>, pending: seq<Byte>)
    requires Cons(m, t, r, true)
    ensures Written(p.(output := p.output + r, pending := pending), t, rest) == Written(p, m, rest)
  {}

  lemma WrittenMiss(p: Parser, m: Summary, t: Summary, r: seq<Byte>, rest: seq<Byte>, pending: seq<Byte>)
    requires Cons(m, t, r, false)
    ensures Written(p.(dropped := (p.dropped + 1) % TWO_TO_32, pending := pending), t, rest) == Written(p, m, rest)
  {
    ModStep(p.dropped + 1, t.count - t.keptCount);
  }

  lemma WaitedMiss(cfg: Config, p: Parser, m: Summary, t: Summary, r: seq<Byte>, rest: seq<Byte>, pending: seq<Byte>)
    requires p.Valid() && p.header.Some? && !p.wroteHeader
    requires Cons(m, t, r, false)
    ensures Waited(cfg, p.(dropped := (p.dropped + 1) % TWO_TO_32, pending := pending), t, rest) ==
            Waited(cfg, p, m, rest)
  {
    ModStep(p.dropped + 1, t.count);
    ModStep(p.dropped + 1, t.first);
    ModStep(p.dropped + 1, t.count - t.keptCount);
  }

  lemma {:induction false} LoopStarted(cfg: Config, p: Parser, rs: seq<seq<Byte>>, rest: seq<Byte>)
    requires p.Valid() && p.header.Some? && p.process && p.wroteHeader && p.triggered
    requires AllFramed(rs) && Incomplete(rest) && p.pending == Join(rs) + rest
    ensures Summarize(cfg, rs).Valid() && Loop(cfg, p) == Written(p, Summarize(cfg, rs), rest)
    decreases |rs|
  {
    SummaryValid(cfg, rs);
    if rs == [] {
      Empty(rest);
      Empty(p.output);
      LoopStops(cfg, p);
    } else {
      var more := Join(rs[1..]) + rest;
      Regroup(rs[0], Join(rs[1..]), rest);
      LoopTakes(cfg, p, rs[0], more);
      LoopStarted(cfg, TakeRecord(cfg, p), rs[1..], rest);
      SummaryCons(cfg, rs);
      if Matches(cfg, rs[0]) {
        WrittenMatch(p, Summarize(cfg, rs), Summarize(cfg, rs[1..]), rs[0], rest, more);
      } else {
        WrittenMiss(p, Summarize(cfg, rs), Summarize(cfg, rs[1..]), rs[0], rest, more);
      }
    }
  }

  lemma {:induction false} LoopWaiting(cfg: Config, p: Parser, rs: seq<seq<Byte>>, rest: seq<Byte>)
    requires p.Valid() && p.header.Some? && p.process && !p.wroteHeader && !p.triggered
    requires cfg.mode.OnMatch?
    requires AllFramed(rs) && Incomplete(rest) && p.pending == Join(rs) + rest
    ensures Summarize(cfg, rs).Valid() && Loop(cfg, p) == Waited(cfg, p, Summarize(cfg, rs), rest)
    decreases |rs|
  {
    SummaryValid(cfg, rs);
    if rs == [] {
      Empty(rest);
      LoopStops(cfg, p);
    } else {
      var more := Join(rs[1..]) + rest;
      Regroup(rs[0], Join(rs[1..]), rest);
      LoopTakes(cfg, p, rs[0], more);
      SummaryCons(cfg, rs);
      if !Matches(cfg, rs[0]) {
        LoopWaiting(cfg, TakeRecord(cfg, p), rs[1..], rest);
        WaitedMiss(cfg, p, Summarize(cfg, rs), Summarize(cfg, rs[1..]), rs[0], rest, more);
      } else {
        LoopBegins(cfg, p, rs, rest, more);
      }
    }
  }

  /** The first match: the parser starts or stops. */
  lemma LoopBegins(cfg: Config, p: Parser, rs: seq<seq<Byte>>, rest: seq<Byte>, more: seq<Byte>)
    requires p.Valid() && p.header.Some? && p.process && !p.wroteHeader && !p.triggered
    requires cfg.mode.OnMatch?
    requires rs != [] && AllFramed(rs) && Incomplete(rest) && more == Join(rs[1..]) + rest
    requires p.pending == rs[0] + more && Matches(cfg, rs[0])
    ensures Summarize(cfg, rs).Valid() && Loop(cfg, p) == Waited(cfg, p, Summarize(cfg, rs), rest)
  {
    LoopTakes(cfg, p, rs[0], more);
    SummaryCons(cfg, rs);
    if cfg.opens {
      LoopStarted(cfg, TakeRecord(cfg, p), rs[1..], rest);
      WrittenMatch(Begin(cfg, p), Summarize(cfg, rs), Summarize(cfg, rs[1..]), rs[0], rest, more);
    } else {
      Regroup(rs[0], Join(rs[1..]), rest);
    }
  }

  /** The parser, given a whole input at once, does what the input means. */
  lemma FeedOnce(cfg: Config, s: seq<Byte>)
    ensures Loop(cfg, FRESH.(pending := s)) == Outcome(cfg, s)
  {
    var p := FRESH.(pending := s);
    if |s| >= GLOBAL_HEADER {
      CutIsExact(s[GLOBAL_HEADER..]);
      var q := FRESH.(header := Some(s[..GLOBAL_HEADER]), pending := s[GLOBAL_HEADER..]);
      var c := Cut(s[GLOBAL_HEADER..]);
      HeaderThenLoop(cfg, p);
      if cfg.mode.OnMatch? {
        assert TakeHeader(cfg, p) == q;
        LoopWaiting(cfg, q, c.records, c.rest);
      } else {
        assert TakeHeader(cfg, p) == Begin(cfg, q);
        if cfg.opens {
          LoopStarted(cfg, Begin(cfg, q), c.records, c.rest);
        }
      }
    }
  }

  lemma HeaderThenLoop(cfg: Config, p: Parser)
    requires p.Valid() && p.process && p.header.None? && |p.pending| >= GLOBAL_HEADER
    ensures Loop(cfg, p) == Loop(cfg, TakeHeader(cfg, p))
  {}

  /** Appending more input after the header: the records and leftover to go on with. */
  lemma MoreInput(s: seq<Byte>, y: seq<Byte>)
    requires |s| >= GLOBAL_HEADER
    ensures var c := Cut(s[GLOBAL_HEADER..]);
            var d := Cut(c.rest + y);
      && (s + y)[..GLOBAL_HEADER] == s[..GLOBAL_HEADER]
      && (s + y)[GLOBAL_HEADER..] == s[GLOBAL_HEADER..] + y
      && Cut((s + y)[GLOBAL_HEADER..]) == Pieces(c.records + d.records, d.rest)
      && AllFramed(c.records) && AllFramed(d.records) && Incomplete(d.rest)
      && c.rest + y == Join(d.records) + d.rest
  {
    assert (s + y)[GLOBAL_HEADER..] == s[GLOBAL_HEADER..] + y;
    CutAppend(s[GLOBAL_HEADER..], y);
    CutIsExact(s[GLOBAL_HEADER..]);
    CutIsExact(Cut(s[GLOBAL_HEADER..]).rest + y);
  }

  /** Summary of records made of two runs. */
  function Plus(a: Summary, b: Summary): Summary {
    Summary(a.count + b.count, a.keptCount + b.keptCount, a.all + b.all, a.kept + b.kept,
            if a.first < a.count then a.first else a.count + b.first,
            if a.first < a.count then a.fromFirst + b.all else b.fromFirst)
  }

  lemma SummaryParts(cfg: Config, a: seq<seq<Byte>>, b: seq<seq<Byte>>, ab: seq<seq<Byte>>)
    requires AllFramed(a) && AllFramed(b) && AllFramed(ab) && |ab| == |a| + |b|
    requires |Kept(cfg, ab)| == |Kept(cfg, a)| + |Kept(cfg, b)|
    requires Join(Kept(cfg, ab)) == Join(Kept(cfg, a)) + Join(Kept(cfg, b))
    requires FirstMatch(cfg, ab) == if FirstMatch(cfg, a) < |a| then FirstMatch(cfg, a) else |a| + FirstMatch(cfg, b)
    requires FromFirst(cfg, ab) == if FirstMatch(cfg, a) < |a| then FromFirst(cfg, a) + Join(b) else FromFirst(cfg, b)
    requires Join(ab) == Join(a) + Join(b)
    ensures Summarize(cfg, ab) == Plus(Summarize(cfg, a), Summarize(cfg, b))
  {}

  lemma SummaryAppend(cfg: Config, a: seq<seq<Byte>>, b: seq<seq<Byte>>)
    requires AllFramed(a) && AllFramed(b)
    ensures AllFramed(a + b) && Summarize(cfg, a + b) == Plus(Summarize(cfg, a), Summarize(cfg, b))
  {
    KeptAppend(cfg, a, b);
    FirstMatchAppend(cfg, a, b);
    FromFirstAppend(cfg, a, b);
    JoinAppend(a, b);
    JoinAppend(Kept(cfg, a), Kept(cfg, b));
    SummaryParts(cfg, a, b, a + b);
  }

  lemma WrittenAppend(p: Parser, a: Summary, r: seq<Byte>, b: Summary, rest: seq<Byte>, pending: seq<Byte>)
    requires a.Valid() && b.Valid() && Plus(a, b).Valid()
    ensures Written(Written(p, a, r).(pending := pending), b, rest) == Written(p, Plus(a, b), rest)
  {}

  /** Still waiting after a: nothing was kept, so b goes on counting from there. */
  lemma WaitedStill(cfg: Config, p: Parser, a: Summary, b: Summary, rest: seq<Byte>, pending: seq<Byte>)
    requires p.Valid() && p.header.Some? && !p.wroteHeader
    requires a.Valid() && b.Valid() && Plus(a, b).Valid() && a.first == a.count
    ensures Waited(cfg, p, Plus(a, b), rest)
         == Waited(cfg, p.(pending := pending, dropped := (p.dropped + a.count) % TWO_TO_32), b, rest)
  {
    ModStep(p.dropped + a.count, b.count);
    ModStep(p.dropped + a.count, b.first);
    ModStep(p.dropped + a.count, b.count - b.keptCount);
    Empty(b.kept);
  }

  /** Stopped in front of a match: later input is only kept. */
  lemma WaitedStopped(cfg: Config, p: Parser, a: Summary, r: seq<Byte>, b: Summary, rest: seq<Byte>, y: seq<Byte>)
    requires p.Valid() && p.header.Some? && !cfg.opens
    requires a.Valid() && b.Valid() && Plus(a, b).Valid() && r + y == b.all + rest && a.first < a.count
    ensures var q := Waited(cfg, p, a, r);
            Waited(cfg, p, Plus(a, b), rest) == q.(pending := q.pending + y)
  {
    Regroup(a.fromFirst, b.all, rest);
    Regroup(a.fromFirst, r, y);
  }

  /** Chunk independence: what the parser has done with x and then y is what it
      does with x + y. With FeedOnce, any way of splitting an input gives the same
      output, dropped count, trigger flag and leftover. */
  lemma FeedIsOutcome(cfg: Config, x: seq<Byte>, y: seq<Byte>)
    ensures Feed(cfg, Outcome(cfg, x), y) == Outcome(cfg, x + y)
  {
    if |x| < GLOBAL_HEADER {
      FeedOnce(cfg, x + y);
    } else {
      FeedRunning(cfg, x, y);
    }
  }

  lemma FeedRunning(cfg: Config, x: seq<Byte>, y: seq<Byte>)
    requires |x| >= GLOBAL_HEADER
    ensures Feed(cfg, Outcome(cfg, x), y) == Outcome(cfg, x + y)
  {
    MoreInput(x, y);
    var p := FRESH.(header := Some(x[..GLOBAL_HEADER]), pending := x[GLOBAL_HEADER..]);
    var c := Cut(x[GLOBAL_HEADER..]);
    var d := Cut(c.rest + y);
    SummaryValid(cfg, c.records);
    SummaryValid(cfg, d.records);
    SummaryValid(cfg, c.records + d.records);
    SummaryAppend(cfg, c.records, d.records);
    if cfg.mode.OnMatch? {
      FeedOnMatch(cfg, p, Summarize(cfg, c.records), c.rest, d.records, d.rest, y, x[GLOBAL_HEADER..] + y);
    } else if cfg.opens {
      FeedImmediate(cfg, p, Summarize(cfg, c.records), c.rest, d.records, d.rest, y, x[GLOBAL_HEADER..] + y);
    }
  }

  lemma FeedImmediate(cfg: Config, p: Parser, a: Summary, r: seq<Byte>, bs: seq<seq<Byte>>,
                      rest: seq<Byte>, y: seq<Byte>, pending: seq<Byte>)
    requires p.Valid() && p.header.Some? && p.process && !p.wroteHeader && cfg.opens
    requires AllFramed(bs) && Incomplete(rest) && r + y == Join(bs) + rest
    requires a.Valid() && Summarize(cfg, bs).Valid() && Plus(a, Summarize(cfg, bs)).Valid()
    ensures Feed(cfg, Written(Begin(cfg, p), a, r), y)
         == Written(Begin(cfg, p.(pending := pending)), Plus(a, Summarize(cfg, bs)), rest)
  {
    FeedStarted(cfg, Begin(cfg, p), a, r, bs, rest, y);
    BeginIgnoresPending(cfg, p, Plus(a, Summarize(cfg, bs)), rest, pending);
  }

  lemma BeginIgnoresPending(cfg: Config, p: Parser, m: Summary, rest: seq<Byte>, pending: seq<Byte>)
    requires p.Valid() && p.header.Some? && m.Valid()
    ensures Written(Begin(cfg, p.(pending := pending)), m, rest) == Written(Begin(cfg, p), m, rest)
  {}

  /** Going on from b, whose output has begun. */
  lemma FeedStarted(cfg: Config, b: Parser, a: Summary, r: seq<Byte>, bs: seq<seq<Byte>>, rest: seq<Byte>, y: seq<Byte>)
    requires b.Valid() && b.header.Some? && b.process && b.wroteHeader && b.triggered
    requires AllFramed(bs) && Incomplete(rest) && r + y == Join(bs) + rest
    requires a.Valid() && Summarize(cfg, bs).Valid() && Plus(a, Summarize(cfg, bs)).Valid()
    ensures Feed(cfg, Written(b, a, r), y) == Written(b, Plus(a, Summarize(cfg, bs)), rest)
  {
    var q := Written(b, a, r).(pending := r + y);
    LoopStarted(cfg, q, bs, rest);
    WrittenAppend(b, a, r, Summarize(cfg, bs), rest, r + y);
  }

  lemma StillWaiting(cfg: Config, p: Parser, a: Summary, r: seq<Byte>, y: seq<Byte>)
    requires p.Valid() && p.header.Some? && a.Valid() && a.first == a.count
    ensures var q := Waited(cfg, p, a, r);
            q.(pending := q.pending + y) == p.(pending := r + y, dropped := (p.dropped + a.count) % TWO_TO_32)
  {}

  lemma FeedStill(cfg: Config, p: Parser, a: Summary, r: seq<Byte>, bs: seq<seq<Byte>>, rest: seq<Byte>, y: seq<Byte>)
    requires p.Valid() && p.header.Some? && p.process && !p.wroteHeader && !p.triggered && cfg.mode.OnMatch?
    requires AllFramed(bs) && Incomplete(rest) && r + y == Join(bs) + rest
    requires a.Valid() && Summarize(cfg, bs).Valid() && Plus(a, Summarize(cfg, bs)).Valid()
    requires a.first == a.count
    ensures Feed(cfg, Waited(cfg, p, a, r), y) == Waited(cfg, p, Plus(a, Summarize(cfg, bs)), rest)
  {
    var u := p.(pending := r + y, dropped := (p.dropped + a.count) % TWO_TO_32);
    StillWaiting(cfg, p, a, r, y);
    LoopWaiting(cfg, u, bs, rest);
    WaitedStill(cfg, p, a, Summarize(cfg, bs), rest, r + y);
  }

  lemma FeedTriggered(cfg: Config, p: Parser, a: Summary, r: seq<Byte>, bs: seq<seq<Byte>>, rest: seq<Byte>,
                      y: seq<Byte>)
    requires p.Valid() && p.header.Some? && p.process && !p.wroteHeader && cfg.opens
    requires AllFramed(bs) && Incomplete(rest) && r + y == Join(bs) + rest
    requires a.Valid() && Summarize(cfg, bs).Valid() && Plus(a, Summarize(cfg, bs)).Valid()
    requires a.first < a.count
    ensures Feed(cfg, Waited(cfg, p, a, r), y) == Waited(cfg, p, Plus(a, Summarize(cfg, bs)), rest)
  {
    FeedStarted(cfg, Begin(cfg, p), a, r, bs, rest, y);
  }

  lemma WaitedIgnoresPending(cfg: Config, p: Parser, m: Summary, rest: seq<Byte>, pending: seq<Byte>)
    requires p.Valid() && p.header.Some? && m.Valid()
    ensures Waited(cfg, p.(pending := pending), m, rest) == Waited(cfg, p, m, rest)
  {}

  lemma FeedOnMatch(cfg: Config, p: Parser, a: Summary, r: seq<Byte>, bs: seq<seq<Byte>>,
                    rest: seq<Byte>, y: seq<Byte>, pending: seq<Byte>)
    requires p.Valid() && p.header.Some? && p.process && !p.wroteHeader && !p.triggered && cfg.mode.OnMatch?
    requires AllFramed(bs) && Incomplete(rest) && r + y == Join(bs) + rest
    requires a.Valid() && Summarize(cfg, bs).Valid() && Plus(a, Summarize(cfg, bs)).Valid()
    ensures Feed(cfg, Waited(cfg, p, a, r), y)
         == Waited(cfg, p.(pending := pending), Plus(a, Summarize(cfg, bs)), rest)
  {
    WaitedIgnoresPending(cfg, p, Plus(a, Summarize(cfg, bs)), rest, pending);
    if a.first == a.count {
      FeedStill(cfg, p, a, r, bs, rest, y);
    } else if cfg.opens {
      FeedTriggered(cfg, p, a, r, bs, rest, y);
    } else {
      WaitedStopped(cfg, p, a, r, Summarize(cfg, bs), rest, y);
    }
  }

  function FeedAll(cfg: Config, p: Parser, chunks: seq<seq<Byte>>): (q: Parser)
    requires p.Valid()
    ensures q.Valid()
    decreases |chunks|
  {
    if chunks == [] then p else FeedAll(cfg, Feed(cfg, p, chunks[0]), chunks[1..])
  }

  /** The whole run of a worker, however its input was read. */
  lemma {:induction false} ChunkIndependence(cfg: Config, x: seq<Byte>, chunks: seq<seq<Byte>>)
    ensures FeedAll(cfg, Outcome(cfg, x), chunks) == Outcome(cfg, x + Join(chunks))
    decreases |chunks|
  {
    if chunks == [] {
      Empty(x);
    } else {
      FeedIsOutcome(cfg, x, chunks[0]);
      ChunkIndependence(cfg, x + chunks[0], chunks[1..]);
      Regroup(x, chunks[0], Join(chunks[1..]));
    }
  }
}
