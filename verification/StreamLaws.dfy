/** What the stream parser's outcome is worth: conservation of records, the trigger,
    the written file, and the pass-through path of process_data against the parser. */
module StreamLaws {
  import opened Wrappers
  import opened Bytes
  import opened Pcap
  import opened Sequences
  import opened StreamFilter

  function Records(s: seq<Byte>): seq<seq<Byte>>
    requires |s| >= GLOBAL_HEADER
  {
    Cut(s[GLOBAL_HEADER..]).records
  }

  function Leftover(s: seq<Byte>): seq<Byte>
    requires |s| >= GLOBAL_HEADER
  {
    Cut(s[GLOBAL_HEADER..]).rest
  }

  lemma RecordsFramed(s: seq<Byte>)
    requires |s| >= GLOBAL_HEADER
    ensures AllFramed(Records(s)) && Incomplete(Leftover(s))
  {
    CutIsExact(s[GLOBAL_HEADER..]);
  }

  lemma {:induction false} FirstMatchExists(cfg: Config, rs: seq<seq<Byte>>)
    requires AllFramed(rs)
    ensures FirstMatch(cfg, rs) < |rs| <==> exists i :: 0 <= i < |rs| && Matches(cfg, rs[i])
    ensures FirstMatch(cfg, rs) < |rs| <==> Kept(cfg, rs) != []
  {
    if rs != [] && !Matches(cfg, rs[0]) {
      FirstMatchExists(cfg, rs[1..]);
      if exists i :: 0 <= i < |rs| && Matches(cfg, rs[i]) {
        var i :| 0 <= i < |rs| && Matches(cfg, rs[i]);
        assert rs[1..][i - 1] == rs[i];
      }
      if exists i :: 0 <= i < |rs[1..]| && Matches(cfg, rs[1..][i]) {
        var i :| 0 <= i < |rs[1..]| && Matches(cfg, rs[1..][i]);
        assert rs[i + 1] == rs[1..][i];
      }
    }
  }

  /** What the parser has made of the input s: the filtered file, the records counted,
      and the incomplete record held back. */
  ghost predicate IsFiltered(cfg: Config, s: seq<Byte>, p: Parser)
    requires |s| >= GLOBAL_HEADER && AllFramed(Records(s))
  {
    var rs := Records(s);
    && p.process && p.pending == Leftover(s)
    && (p.triggered <==> cfg.mode.Immediate? || exists i :: 0 <= i < |rs| && Matches(cfg, rs[i]))
    && p.output == (if p.triggered then s[..GLOBAL_HEADER] + Injected(cfg, s[..GLOBAL_HEADER]) + Join(Kept(cfg, rs))
                    else [])
    && (p.dropped + |Kept(cfg, rs)|) % TWO_TO_32 == |rs| % TWO_TO_32
  }

  /** When the output can be opened: in immediate mode always, in on-match mode from
      the first match on, the file is the global header, the injected descriptors
      and exactly the matching records in order; otherwise there is no output. Records
      consumed equal records written plus records dropped, modulo the counter's width,
      and what is held back is the incomplete record. */
  lemma OutputIsFiltered(cfg: Config, s: seq<Byte>)
    requires |s| >= GLOBAL_HEADER && cfg.opens
    ensures AllFramed(Records(s))
    ensures IsFiltered(cfg, s, Outcome(cfg, s))
  {
    OutcomeOutput(cfg, s);
    FirstMatchExists(cfg, Records(s));
    DroppedAndKept(|Records(s)|, |Kept(cfg, Records(s))|, Outcome(cfg, s).dropped);
  }

  lemma DroppedAndKept(n: nat, kept: nat, dropped: nat)
    requires kept <= n && dropped == (n - kept) % TWO_TO_32
    ensures (dropped + kept) % TWO_TO_32 == n % TWO_TO_32
  {
    ModStep(n - kept, kept);
  }

  lemma OutcomeWritten(cfg: Config, s: seq<Byte>)
    requires |s| >= GLOBAL_HEADER && cfg.opens && AllFramed(Records(s))
    requires cfg.mode.Immediate? || FirstMatch(cfg, Records(s)) < |Records(s)|
    ensures var p, rs, h := Outcome(cfg, s), Records(s), s[..GLOBAL_HEADER];
      && p.process && p.pending == Leftover(s) && p.triggered
      && p.output == (h + Injected(cfg, h)) + Join(Kept(cfg, rs))
      && p.dropped == (|rs| - |Kept(cfg, rs)|) % TWO_TO_32
  {
    SummaryValid(cfg, Records(s));
    var h := s[..GLOBAL_HEADER];
    var q := FRESH.(header := Some(h), pending := s[GLOBAL_HEADER..]);
    assert Outcome(cfg, s) == Written(Begin(cfg, q), Summarize(cfg, Records(s)), Leftover(s));
    Empty(h + Injected(cfg, h));
  }

  lemma OutcomeWaiting(cfg: Config, s: seq<Byte>)
    requires |s| >= GLOBAL_HEADER && AllFramed(Records(s))
    requires cfg.mode.OnMatch? && FirstMatch(cfg, Records(s)) == |Records(s)|
    ensures var p := Outcome(cfg, s);
      && p.process && p.pending == Leftover(s) && !p.triggered && p.output == []
      && p.dropped == |Records(s)| % TWO_TO_32
  {
    SummaryValid(cfg, Records(s));
  }

  lemma OutcomeOutput(cfg: Config, s: seq<Byte>)
    requires |s| >= GLOBAL_HEADER && cfg.opens
    ensures AllFramed(Records(s))
    ensures var p, rs := Outcome(cfg, s), Records(s);
      && p.process && p.pending == Leftover(s)
      && (p.triggered <==> cfg.mode.Immediate? || FirstMatch(cfg, rs) < |rs|)
      && p.output == (if p.triggered then s[..GLOBAL_HEADER] + Injected(cfg, s[..GLOBAL_HEADER]) + Join(Kept(cfg, rs))
                      else [])
      && p.dropped == (|rs| - |Kept(cfg, rs)|) % TWO_TO_32
  {
    RecordsFramed(s);
    if cfg.mode.Immediate? || FirstMatch(cfg, Records(s)) < |Records(s)| {
      OutcomeWritten(cfg, s);
    } else {
      OutcomeWaiting(cfg, s);
      KeptNothing(cfg, Records(s));
    }
  }

  /** A run whose output cannot be opened writes nothing and loses nothing it has not
      dropped: it stops in front of the first record it would have written. */
  lemma NoOutput(cfg: Config, s: seq<Byte>)
    requires |s| >= GLOBAL_HEADER && !cfg.opens
    ensures AllFramed(Records(s))
    ensures var p, rs := Outcome(cfg, s), Records(s);
      && p.output == [] && !p.triggered
      && (p.process <==> cfg.mode.OnMatch? && FirstMatch(cfg, rs) == |rs|)
      && (!p.process && cfg.mode.OnMatch? ==> p.pending == FromFirst(cfg, rs) + Leftover(s))
      && (!p.process && cfg.mode.Immediate? ==> p.pending == s[GLOBAL_HEADER..] && p.dropped == 0)
  {
    RecordsFramed(s);
    SummaryValid(cfg, Records(s));
  }

  /** The file written holds whole records only. */
  lemma OutputIsWhole(cfg: Config, s: seq<Byte>)
    requires |s| >= GLOBAL_HEADER && cfg.opens && Outcome(cfg, s).triggered
    ensures AllFramed(Records(s))
    ensures var body := Injected(cfg, s[..GLOBAL_HEADER]) + Join(Kept(cfg, Records(s)));
      && Outcome(cfg, s).output == s[..GLOBAL_HEADER] + body
      && (forall ds :: AllFramed(ds) && Injected(cfg, s[..GLOBAL_HEADER]) == Join(ds) ==>
            Cut(body) == Pieces(ds + Kept(cfg, Records(s)), []))
  {
    RecordsFramed(s);
    OutputIsFiltered(cfg, s);
    var kept := Kept(cfg, Records(s));
    var injected := Injected(cfg, s[..GLOBAL_HEADER]);
    Regroup(s[..GLOBAL_HEADER], injected, Join(kept));
    forall ds | AllFramed(ds) && injected == Join(ds)
      ensures Cut(injected + Join(kept)) == Pieces(ds + kept, [])
    {
      CutJoin(ds, Join(kept));
      CutJoin(kept, []);
      Empty(Join(kept));
      Empty(kept);
    }
  }

  /** Descriptors follow a header in this byte order and of link type 249, and no other. */
  lemma InjectedExactly(cfg: Config, header: seq<Byte>)
    requires |header| == GLOBAL_HEADER
    ensures Injected(cfg, header) ==
            if header[..4] == [0xD4, 0xC3, 0xB2, 0xA1] && header[20..24] == [249, 0, 0, 0] then cfg.descriptors else []
  {
    FieldIs(header, 0, 0xD4, 0xC3, 0xB2, 0xA1);
    FieldIs(header, 20, 249, 0, 0, 0);
  }

  // ---------- the pass-through path ----------

  /** When process_data takes it. */
  predicate PassesThrough(cfg: Config) {
    !cfg.filter.enabled && cfg.mode.Immediate?
  }

  /** buf collects the global header before anything is written. */
  datatype PassThrough = PassThrough(buf: seq<Byte>, process: bool, output: seq<Byte>)

  /** write_data on that path, whose output was to be opened beforehand: without it the
      write fails and the worker stops. */
  function Put(cfg: Config, f: PassThrough, data: seq<Byte>): (g: PassThrough)
    ensures g.buf == f.buf
  {
    if cfg.opens then f.(output := f.output + data) else f.(process := false)
  }

  /** process_data on that path. */
  function Pass(cfg: Config, f: PassThrough, chunk: seq<Byte>): (g: PassThrough)
    requires |f.buf| <= GLOBAL_HEADER
    ensures |g.buf| <= GLOBAL_HEADER
  {
    if |f.buf| < GLOBAL_HEADER then
      var n := Min(GLOBAL_HEADER - |f.buf|, |chunk|);
      var g := Collected(cfg, f, chunk[..n]);
      if n == |chunk| then g else Put(cfg, g, chunk[n..])
    else Put(cfg, f, chunk)
  }

  /** More bytes of the global header; a complete one is written out. */
  function Collected(cfg: Config, f: PassThrough, bytes: seq<Byte>): (g: PassThrough)
    requires |f.buf| + |bytes| <= GLOBAL_HEADER
    ensures g.buf == f.buf + bytes
  {
    var buf := f.buf + bytes;
    if |buf| < GLOBAL_HEADER then f.(buf := buf) else Put(cfg, f.(buf := buf), buf + Injected(cfg, buf))
  }

  /** What passing a whole input through means. */
  function Passed(cfg: Config, s: seq<Byte>): (f: PassThrough)
    ensures |f.buf| <= GLOBAL_HEADER
  {
    if |s| < GLOBAL_HEADER then PassThrough(s, true, [])
    else if !cfg.opens then PassThrough(s[..GLOBAL_HEADER], false, [])
    else PassThrough(s[..GLOBAL_HEADER], true,
                     s[..GLOBAL_HEADER] + Injected(cfg, s[..GLOBAL_HEADER]) + s[GLOBAL_HEADER..])
  }

  lemma PassIsPassed(cfg: Config, x: seq<Byte>, y: seq<Byte>)
    ensures Pass(cfg, Passed(cfg, x), y) == Passed(cfg, x + y)
  {
    if |x| >= GLOBAL_HEADER {
      var s := x + y;
      assert s[..GLOBAL_HEADER] == x[..GLOBAL_HEADER];
      assert s[GLOBAL_HEADER..] == x[GLOBAL_HEADER..] + y;
      Regroup(x[..GLOBAL_HEADER] + Injected(cfg, x[..GLOBAL_HEADER]), x[GLOBAL_HEADER..], y);
    } else if |x| + |y| < GLOBAL_HEADER {
      assert y[..|y|] == y;
    } else {
      PassCompletes(cfg, x, y, GLOBAL_HEADER - |x|);
    }
  }

  /** The chunk that completes the global header. */
  lemma PassCompletes(cfg: Config, x: seq<Byte>, y: seq<Byte>, n: nat)
    requires |x| + n == GLOBAL_HEADER && 0 < n <= |y|
    ensures Pass(cfg, PassThrough(x, true, []), y) == Passed(cfg, x + y)
  {
    var s := x + y;
    var h := x + y[..n];
    assert s[..GLOBAL_HEADER] == h && s[GLOBAL_HEADER..] == y[n..];
    Empty(h + Injected(cfg, h));
  }

  /** The worker's loop on that path, which a failed write ends. */
  function PassAll(cfg: Config, f: PassThrough, chunks: seq<seq<Byte>>): (g: PassThrough)
    requires |f.buf| <= GLOBAL_HEADER
    ensures |g.buf| <= GLOBAL_HEADER
    decreases |chunks|
  {
    if chunks == [] || !f.process then f else PassAll(cfg, Pass(cfg, f, chunks[0]), chunks[1..])
  }

  /** The pass-through path is independent of the split of its input, too. */
  lemma {:induction false} PassAllIsPassed(cfg: Config, x: seq<Byte>, chunks: seq<seq<Byte>>)
    ensures PassAll(cfg, Passed(cfg, x), chunks) == Passed(cfg, x + Join(chunks))
    decreases |chunks|
  {
    if chunks == [] {
      Empty(x);
    } else if !Passed(cfg, x).process {
      PassIsPassed(cfg, x, Join(chunks));
    } else {
      PassIsPassed(cfg, x, chunks[0]);
      PassAllIsPassed(cfg, x + chunks[0], chunks[1..]);
      Regroup(x, chunks[0], Join(chunks[1..]));
    }
  }

  /** All records match: nothing is filtered out. */
  lemma {:induction false} KeptAll(cfg: Config, rs: seq<seq<Byte>>)
    requires AllFramed(rs)
    ensures (forall i :: 0 <= i < |rs| ==> Matches(cfg, rs[i])) ==> Kept(cfg, rs) == rs
    ensures !(forall i :: 0 <= i < |rs| ==> Matches(cfg, rs[i])) ==> |Join(Kept(cfg, rs))| < |Join(rs)|
    ensures |Join(Kept(cfg, rs))| <= |Join(rs)|
  {
    if rs != [] {
      KeptAll(cfg, rs[1..]);
      assert Framed(rs[0]);
      assert rs == [rs[0]] + rs[1..];
      JoinCons(rs[0], Kept(cfg, rs[1..]));
      Empty(Kept(cfg, rs[1..]));
      if forall i :: 0 <= i < |rs| ==> Matches(cfg, rs[i]) {
        assert forall i :: 0 <= i < |rs[1..]| ==> rs[1..][i] == rs[i + 1];
      } else if Matches(cfg, rs[0]) {
        var i :| 0 <= i < |rs| && !Matches(cfg, rs[i]);
        assert rs[1..][i - 1] == rs[i];
      }
    }
  }

  /** The pass-through path writes what the immediate-mode parser writes followed by
      the bytes it still holds, exactly when every record satisfies the filter. */
  lemma PassThroughRefinesParser(cfg: Config, s: seq<Byte>)
    requires |s| >= GLOBAL_HEADER && cfg.opens && cfg.mode.Immediate?
    ensures AllFramed(Records(s))
    ensures var p := Outcome(cfg, s);
      Passed(cfg, s).output == p.output + p.pending <==>
        forall i :: 0 <= i < |Records(s)| ==> Matches(cfg, Records(s)[i])
  {
    RecordsFramed(s);
    OutputIsFiltered(cfg, s);
    CutIsExact(s[GLOBAL_HEADER..]);
    KeptAll(cfg, Records(s));
    var h := s[..GLOBAL_HEADER] + Injected(cfg, s[..GLOBAL_HEADER]);
    Regroup(h, Join(Kept(cfg, Records(s))), Leftover(s));
    if !(forall i :: 0 <= i < |Records(s)| ==> Matches(cfg, Records(s)[i])) {
      assert |h + (Join(Kept(cfg, Records(s))) + Leftover(s))| < |h + s[GLOBAL_HEADER..]|;
    }
  }

  /** The path is taken only without a filter, so the two always agree where it is used. */
  lemma PassThroughAgrees(cfg: Config, s: seq<Byte>)
    requires |s| >= GLOBAL_HEADER && cfg.opens && PassesThrough(cfg)
    ensures Passed(cfg, s).output == Outcome(cfg, s).output + Outcome(cfg, s).pending
  {
    RecordsFramed(s);
    PassThroughRefinesParser(cfg, s);
  }

  // ---------- record lengths ----------

  /** No record header met in s announces a length that overflows 32 bits when the
      16 bytes of the header are added. */
  predicate SaneLengths(s: seq<Byte>)
    decreases |s|
  {
    |s| < RECORD_HEADER
    || (RECORD_HEADER + InclLen(s) < TWO_TO_32
        && (!Incomplete(s) ==> SaneLengths(s[RECORD_HEADER + InclLen(s)..])))
  }

  lemma {:induction false} SanePrefix(rs: seq<seq<Byte>>, s: seq<Byte>)
    requires AllFramed(rs) && s <= Join(rs)
    requires forall k :: 0 <= k < |rs| ==> |rs[k]| < TWO_TO_32
    ensures SaneLengths(s)
    decreases |rs|
  {
    if rs != [] && |s| >= RECORD_HEADER {
      var r := rs[0];
      assert Framed(r);
      if |s| < |r| {
        PrefixOfConcat(r, Join(rs[1..]), s);
        SameInclLen(r, s);
      } else {
        SuffixOfConcat(r, Join(rs[1..]), s);
        FrontOf(r, s[|r|..]);
        SanePrefix(rs[1..], s[|r|..]);
      }
    }
  }

  /** What the worker's 32-bit arithmetic relies on before a chunk, largest being the
      largest ring the chunk can come from. */
  ghost predicate Bounded(p: Parser, chunk: seq<Byte>, largest: nat) {
    && |p.pending| + |chunk| + 2 <= 2 * largest <= 0x1000_0000
    && Sane(p.(pending := p.pending + chunk))
  }

  /** The stream bytes behind the global header announce no overflowing length. */
  ghost predicate Sane(p: Parser) {
    SaneLengths(if p.header.Some? then p.pending
                else if |p.pending| >= GLOBAL_HEADER then p.pending[GLOBAL_HEADER..] else [])
  }
}
