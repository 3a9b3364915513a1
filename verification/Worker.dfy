/** process_data as it is written (USBPcapCMD/thread.c): a pending buffer grown by
    doubling and shifted in place, flags updated in a loop, an append-only output. */
module Worker {
  import opened Wrappers
  import opened Bytes
  import opened Pcap
  import opened StreamFilter
  import opened StreamLaws
  import Sequences

  const HALF := 0x8000_0000   // no DWORD overflow below this

  class Worker {
    const cfg: Config
    // packet_parser_context
    var pending: array<Byte>
    var pendingLen: nat
    var capacity: nat
    var pcapHeader: Option<seq<Byte>>
    var wrotePcapHeader: bool
    // thread_data
    var triggered: bool
    var dropped: nat
    var process: bool
    var output: seq<Byte>
    // inject_descriptors: the header collected by the pass-through path
    const buf: array<Byte>
    var bufWritten: nat

    constructor (cfg: Config)
      ensures this.cfg == cfg && Valid() && process && fresh(pending) && fresh(buf)
      ensures Model() == Outcome(cfg, []) && PassModel() == Passed(cfg, [])
    {
      this.cfg := cfg;
      pending, pendingLen, capacity := new Byte[0], 0, 0;
      pcapHeader, wrotePcapHeader := None, false;
      triggered, dropped, process, output := false, 0, true, [];
      buf, bufWritten := new Byte[GLOBAL_HEADER], 0;
      new;
      assert pending[..pendingLen] == [] && buf[..bufWritten] == [];
    }

    ghost predicate Valid()
      reads this
    {
      && pendingLen <= pending.Length
      && (process ==> capacity == pending.Length)
      && buf.Length == GLOBAL_HEADER && bufWritten <= GLOBAL_HEADER
      && pending != buf
      && (pcapHeader.Some? ==> |pcapHeader.value| == GLOBAL_HEADER)
      && (pcapHeader.None? ==> !wrotePcapHeader)
      && dropped < TWO_TO_32
    }

    ghost function Model(): (p: Parser)
      requires Valid()
      reads this, pending
      ensures p.Valid()
    {
      Parser(pending[..pendingLen], pcapHeader, wrotePcapHeader, triggered, dropped, process, output)
    }

    ghost function PassModel(): (f: PassThrough)
      requires Valid()
      reads this, buf
      ensures |f.buf| <= GLOBAL_HEADER
    {
      PassThrough(buf[..bufWritten], process, output)
    }

    /** ensure_pending_capacity; memory says whether realloc succeeds. Below half the
        DWORD range neither the sum nor the doubling overflows, and the buffer stays
        smaller than twice what was ever needed. */
    method EnsurePendingCapacity(additional: nat, memory: bool) returns (ok: bool)
      requires Valid() && process && pendingLen + additional <= HALF
      modifies this`pending, this`capacity
      ensures ok == (memory || pendingLen + additional <= old(capacity))
      ensures pendingLen <= pending.Length && pending != buf
      ensures pending[..pendingLen] == old(pending[..pendingLen])
      ensures ok ==> capacity == pending.Length >= pendingLen + additional
      ensures capacity < TWO_TO_32 || capacity == old(capacity)
      ensures capacity == old(capacity) || capacity == pendingLen + additional ||
              capacity < 2 * (pendingLen + additional)
      ensures pending == old(pending) || fresh(pending)
    {
      var required := pendingLen + additional;
      if required <= capacity {
        return true;
      }
      if capacity == 0 {
        capacity := required;
      } else {
        while capacity < required
          invariant 0 < capacity && pending == old(pending)
          invariant capacity == old(capacity) || capacity < 2 * required
          decreases required - capacity
        {
          capacity := capacity * 2;
        }
      }
      if !memory {
        return false;
      }
      var tmp := new Byte[capacity];
      forall i | 0 <= i < pendingLen {
        tmp[i] := pending[i];
      }
      pending := tmp;
      return true;
    }

    /** memcpy of the chunk behind the pending bytes. */
    method AppendPending(chunk: seq<Byte>)
      requires Valid() && pendingLen + |chunk| <= pending.Length
      modifies this`pendingLen, pending
      ensures Valid() && Model() == old(Model()).(pending := old(Model()).pending + chunk)
    {
      forall i | 0 <= i < |chunk| {
        pending[pendingLen + i] := chunk[i];
      }
      pendingLen := pendingLen + |chunk|;
    }

    /** memmove of the bytes behind the first n to the front. */
    method ShiftPending(n: nat)
      requires Valid() && n <= pendingLen
      modifies this`pendingLen, pending
      ensures Valid() && Model() == old(Model()).(pending := old(Model()).pending[n..])
    {
      forall i | 0 <= i < pendingLen - n {
        pending[i] := pending[n + i];
      }
      pendingLen := pendingLen - n;
    }

    /** begin_output_stream. */
    method BeginOutput() returns (ok: bool)
      requires Valid() && process && pcapHeader.Some?
      modifies this`wrotePcapHeader, this`triggered, this`process, this`output
      ensures Valid() && Model() == Begin(cfg, old(Model())) && ok == process
      ensures process ==> capacity == pending.Length
    {
      if wrotePcapHeader {
        return true;
      }
      if !cfg.opens {
        process := false;
        return false;
      }
      var h := pcapHeader.value;
      ghost var before := output;
      output := output + h;
      if HeaderMagic(h) == MAGIC && HeaderNetwork(h) == DLT_USBPCAP && |cfg.descriptors| > 0 {
        output := output + cfg.descriptors;
        Sequences.Regroup(before, h, cfg.descriptors);
      } else {
        Sequences.Empty(h);
      }
      wrotePcapHeader, triggered := true, true;
      return true;
    }

    method TakeGlobalHeader()
      requires Valid() && process
      modifies this`pendingLen, this`pcapHeader, this`wrotePcapHeader, this`triggered, this`process, this`output,
               pending
      ensures Valid() && Model() == TakeHeader(cfg, old(Model()))
    {
      if pcapHeader == None && pendingLen >= GLOBAL_HEADER {
        assert pending[..pendingLen][..GLOBAL_HEADER] == pending[..GLOBAL_HEADER];
        pcapHeader := Some(pending[..GLOBAL_HEADER]);
        ShiftPending(GLOBAL_HEADER);
        if cfg.mode.Immediate? {
          var ok := BeginOutput();
        }
      }
    }

    /** A record that matches: the output begins, if it is time, and takes the record; or
        the worker stops in front of it. */
    method WriteMatch(record: seq<Byte>) returns (ok: bool)
      requires Valid() && process && pcapHeader.Some? && !Incomplete(Model().pending)
      requires record == Model().pending[..RECORD_HEADER + InclLen(Model().pending)] && Matches(cfg, record)
      modifies this`wrotePcapHeader, this`triggered, this`process, this`output
      ensures Valid() && ok == process
      ensures var taken := TakeRecord(cfg, old(Model()));
        Model() == if ok then taken.(pending := old(Model()).pending) else taken
    {
      if cfg.mode.OnMatch? && !triggered {
        ok := BeginOutput();
        if !ok {
          return false;
        }
      }
      if cfg.mode.Immediate? || triggered {
        if cfg.mode.Immediate? && !wrotePcapHeader {
          ok := BeginOutput();
          if !ok {
            return false;
          }
        }
        output := output + record;
      }
      return true;
    }

    /** The rest of the loop body, for a whole record of totalLength bytes. */
    method TakePendingRecord(totalLength: nat)
      requires Valid() && process && pcapHeader.Some?
      requires !Incomplete(Model().pending) && totalLength == RECORD_HEADER + InclLen(Model().pending)
      modifies this`pendingLen, this`wrotePcapHeader, this`triggered, this`dropped, this`process, this`output, pending
      ensures Valid() && Model() == TakeRecord(cfg, old(Model()))
    {
      var record := pending[..totalLength];
      assert record == Model().pending[..totalLength];
      if Matches(cfg, record) {
        var ok := WriteMatch(record);
        if !ok {
          return;
        }
      } else {
        dropped := (dropped + 1) % TWO_TO_32;
      }
      ShiftPending(totalLength);
    }

    lemma SaneTakeHeader(p: Parser)
      requires p.Valid() && Sane(p)
      ensures Sane(TakeHeader(cfg, p))
    {}

    lemma SaneTakeRecord(p: Parser)
      requires p.Valid() && p.header.Some? && p.process && !Incomplete(p.pending) && Sane(p)
      ensures Sane(TakeRecord(cfg, p)) && RECORD_HEADER + InclLen(p.pending) < TWO_TO_32
    {}

    lemma LoopTurn(p: Parser)
      requires p.Valid() && p.process
      ensures var h := TakeHeader(cfg, p);
              Loop(cfg, p) == if !h.process || h.header.None? || Incomplete(h.pending) then h
                              else if TakeRecord(cfg, h).process then Loop(cfg, TakeRecord(cfg, h))
                              else TakeRecord(cfg, h)
    {}

    /** One turn of the loop; true when the loop goes on. */
    method ParseOnce() returns (more: bool)
      requires Valid() && process && Sane(Model())
      modifies this`pendingLen, this`pcapHeader, this`wrotePcapHeader, this`triggered, this`dropped, this`process,
               this`output, pending
      ensures Valid() && Loop(cfg, old(Model())) == (if more then Loop(cfg, Model()) else Model())
      ensures more ==> process && Sane(Model()) && pendingLen < old(pendingLen)
    {
      SaneTakeHeader(Model());
      LoopTurn(Model());
      TakeGlobalHeader();
      if !process || pcapHeader == None || pendingLen < RECORD_HEADER {
        return false;
      }
      ghost var h := Model();
      var inclLen := InclLen(pending[..pendingLen]);
      var totalLength := (RECORD_HEADER + inclLen) % TWO_TO_32;
      assert totalLength == RECORD_HEADER + inclLen;
      if pendingLen < totalLength {
        return false;
      }
      SaneTakeRecord(h);
      TakePendingRecord(totalLength);
      return process;
    }

    /** The parsing path, for one chunk read from the driver. */
    method ParseChunk(chunk: seq<Byte>, memory: bool)
      requires Valid() && process && pendingLen + |chunk| <= HALF
      requires Sane(Model().(pending := Model().pending + chunk))
      modifies this, pending
      ensures bufWritten == old(bufWritten)
      ensures Valid() && (pending == old(pending) || fresh(pending))
      ensures Model() == if memory || old(pendingLen + |chunk| <= capacity) then Feed(cfg, old(Model()), chunk)
                         else old(Model()).(process := false)
    {
      var ok := EnsurePendingCapacity(|chunk|, memory);
      if !ok {
        process := false;
        return;
      }
      AppendPending(chunk);
      var more := true;
      while more
        invariant Valid() && bufWritten == old(bufWritten)
        invariant pending == old(pending) || fresh(pending)
        invariant more ==> process && Sane(Model())
        invariant Feed(cfg, old(Model()), chunk) == (if more then Loop(cfg, Model()) else Model())
        decreases more, pendingLen
      {
        more := ParseOnce();
      }
    }

    /** write_data when the output may not have been opened. */
    method WriteData(bytes: seq<Byte>)
      requires Valid()
      modifies this`process, this`output
      ensures Valid() && PassModel() == Put(cfg, old(PassModel()), bytes)
    {
      if cfg.opens {
        output := output + bytes;
      } else {
        process := false;
      }
    }

    /** Adds bytes to the collected header; a complete header is written out. */
    method CollectHeader(bytes: seq<Byte>)
      requires Valid() && bufWritten + |bytes| <= GLOBAL_HEADER
      modifies this`bufWritten, this`process, this`output, buf
      ensures Valid() && PassModel() == Collected(cfg, old(PassModel()), bytes)
    {
      forall i | 0 <= i < |bytes| {
        buf[bufWritten + i] := bytes[i];
      }
      bufWritten := bufWritten + |bytes|;
      assert buf[..bufWritten] == old(buf[..bufWritten]) + bytes;
      if bufWritten == GLOBAL_HEADER {
        var h := buf[..bufWritten];
        ghost var before := output;
        WriteData(h);
        if HeaderMagic(h) == MAGIC && HeaderNetwork(h) == DLT_USBPCAP && |cfg.descriptors| > 0 {
          WriteData(cfg.descriptors);
          Sequences.Regroup(before, h, cfg.descriptors);
        } else {
          Sequences.Empty(h);
        }
      }
    }

    /** The pass-through path. */
    method PassChunk(chunk: seq<Byte>)
      requires Valid()
      modifies this`bufWritten, this`process, this`output, buf
      ensures Valid() && PassModel() == Pass(cfg, old(PassModel()), chunk)
    {
      var rest := chunk;
      if bufWritten < GLOBAL_HEADER {
        var toWrite := GLOBAL_HEADER - bufWritten;
        if toWrite > |chunk| {
          toWrite := |chunk|;
        }
        CollectHeader(chunk[..toWrite]);
        rest := chunk[toWrite..];
        if |rest| == 0 {
          return;
        }
      }
      WriteData(rest);
    }

    /** process_data. */
    method ProcessData(chunk: seq<Byte>, memory: bool)
      requires Valid() && process
      requires PassesThrough(cfg) ||
               (pendingLen + |chunk| <= HALF && Sane(Model().(pending := Model().pending + chunk)))
      modifies this, pending, buf
      ensures Valid() && (pending == old(pending) || fresh(pending))
      ensures if PassesThrough(cfg) then PassModel() == Pass(cfg, old(PassModel()), chunk)
              else Model() == if memory || old(pendingLen + |chunk| <= capacity) then Feed(cfg, old(Model()), chunk)
                              else old(Model()).(process := false)
    {
      if PassesThrough(cfg) {
        PassChunk(chunk);
      } else {
        ParseChunk(chunk, memory);
      }
    }

    /** The loop of read_thread: one call for each chunk read, while process is set;
        memory says for each chunk whether realloc would succeed. */
    method ReadLoop(chunks: seq<seq<Byte>>, memory: seq<bool>, ghost largest: nat) returns (taken: nat)
      requires Valid() && process && Model() == Outcome(cfg, []) && PassModel() == Passed(cfg, [])
      requires |memory| == |chunks| && (PassesThrough(cfg) || AllBounded(cfg, chunks, largest))
      modifies this, pending, buf
      ensures Valid() && taken <= |chunks| && (taken < |chunks| ==> !process)
      ensures PassesThrough(cfg) ==> PassModel() == Passed(cfg, Join(chunks))
      ensures !PassesThrough(cfg) ==> HandedOver(cfg, chunks, memory, taken, Model())
    {
      taken := 0;
      while taken < |chunks| && process
        invariant Valid() && taken <= |chunks| && (pending == old(pending) || fresh(pending))
        invariant if PassesThrough(cfg) then PassModel() == Passed(cfg, Join(chunks[..taken]))
                  else HandedOver(cfg, chunks, memory, taken, Model())
      {
        NextChunk(cfg, chunks, taken);
        ProcessData(chunks[taken], memory[taken]);
        taken := taken + 1;
      }
      if taken == |chunks| {
        Sequences.TakeAll(chunks);
      } else if PassesThrough(cfg) {
        StaysStopped(cfg, chunks, taken);
      }
    }
  }

  /** What comes after a failed write makes no difference. */
  lemma StaysStopped(cfg: Config, chunks: seq<seq<Byte>>, k: nat)
    requires k <= |chunks| && !Passed(cfg, Join(chunks[..k])).process
    ensures Passed(cfg, Join(chunks)) == Passed(cfg, Join(chunks[..k]))
  {
    Sequences.Split(chunks, k);
    JoinAppend(chunks[..k], chunks[k..]);
    PassIsPassed(cfg, Join(chunks[..k]), Join(chunks[k..]));
  }

  /** Before each chunk the bounds hold, unless the worker has stopped. */
  ghost predicate AllBounded(cfg: Config, chunks: seq<seq<Byte>>, largest: nat) {
    forall k :: 0 <= k < |chunks| && Outcome(cfg, Join(chunks[..k])).process ==>
      Bounded(Outcome(cfg, Join(chunks[..k])), chunks[k], largest)
  }

  /** What the parsing worker has made of the first taken chunks; want of memory may have
      stopped it in front of the last of them. */
  ghost predicate HandedOver(cfg: Config, chunks: seq<seq<Byte>>, memory: seq<bool>, taken: nat, p: Parser) {
    && taken <= |chunks| == |memory|
    && (p == Outcome(cfg, Join(chunks[..taken]))
        || (taken > 0 && !memory[taken - 1] && p == Outcome(cfg, Join(chunks[..taken - 1])).(process := false)))
  }

  lemma NextChunk(cfg: Config, chunks: seq<seq<Byte>>, k: nat)
    requires k < |chunks|
    ensures Join(chunks[..k + 1]) == Join(chunks[..k]) + chunks[k]
    ensures Feed(cfg, Outcome(cfg, Join(chunks[..k])), chunks[k]) == Outcome(cfg, Join(chunks[..k + 1]))
    ensures Pass(cfg, Passed(cfg, Join(chunks[..k])), chunks[k]) == Passed(cfg, Join(chunks[..k + 1]))
  {
    Sequences.SnocTake(chunks, k);
    JoinOne(chunks[..k], chunks[k]);
    FeedIsOutcome(cfg, Join(chunks[..k]), chunks[k]);
    PassIsPassed(cfg, Join(chunks[..k]), chunks[k]);
  }
}
