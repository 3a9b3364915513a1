/** The worker on the bytes a capture session delivers: its buffer bounds hold before
    every read, and what it writes is the file the end-to-end theorems speak of. */
module WorkerRun {
  import opened Bytes
  import opened Pcap
  import opened CaptureSession
  import opened StreamFilter
  import opened StreamLaws
  import opened Pipeline
  import Sequences
  import Worker

  lemma JoinFront(chunks: seq<seq<Byte>>, k: nat)
    requires k < |chunks|
    ensures Join(chunks[..k]) + chunks[k] <= Join(chunks)
  {
    Sequences.SnocTake(chunks, k);
    JoinOne(chunks[..k], chunks[k]);
    Sequences.Split(chunks, k + 1);
    JoinAppend(chunks[..k + 1], chunks[k + 1..]);
  }

  /** No read of a session, at most as long as its largest ring, breaks the bounds that
      the worker's buffer arithmetic relies on. */
  lemma RunIsBounded(es: seq<Event>, cfg: Config, chunks: seq<seq<Byte>>)
    requires Legal(Boot(), es) && Honest(es)
    requires var w := Run(Boot(), es);
      && w.driver.ring.Buffer? && Join(chunks) == w.delivered
      && forall k :: 0 <= k < |chunks| ==> |chunks[k]| <= w.largest
    ensures Worker.AllBounded(cfg, chunks, Run(Boot(), es).largest)
  {
    forall k | 0 <= k < |chunks| && Outcome(cfg, Join(chunks[..k])).process
      ensures Bounded(Outcome(cfg, Join(chunks[..k])), chunks[k], Run(Boot(), es).largest)
    {
      JoinFront(chunks, k);
      PendingBounded(es, cfg, Join(chunks[..k]), chunks[k]);
    }
  }

  /** A worker whose output opens does not stop by itself. */
  lemma KeepsGoing(cfg: Config, s: seq<Byte>)
    requires cfg.opens
    ensures Outcome(cfg, s).process
  {
    if |s| >= GLOBAL_HEADER {
      OutputIsFiltered(cfg, s);
    }
  }

  /** A worker started afresh and given what a session has delivered writes WorkerFile,
      whether or not its output opens, without its 32-bit arithmetic ever wrapping
      around; on the parsing path it ends at chunk k when the buffer cannot grow for it. */
  method WriteCapture(ghost es: seq<Event>, cfg: Config, chunks: seq<seq<Byte>>, memory: seq<bool>)
    returns (file: seq<Byte>, ghost k: nat)
    requires Legal(Boot(), es) && Honest(es) && |memory| == |chunks|
    requires var w := Run(Boot(), es);
      && w.driver.ring.Buffer? && Join(chunks) == w.delivered
      && forall i :: 0 <= i < |chunks| ==> |chunks[i]| <= w.largest
    ensures k <= |chunks| && file == WorkerFile(cfg, chunks[..k])
    ensures k < |chunks| ==> !PassesThrough(cfg) && cfg.opens && !memory[k]
  {
    RunIsBounded(es, cfg, chunks);
    var worker := new Worker.Worker(cfg);
    var taken := worker.ReadLoop(chunks, memory, Run(Boot(), es).largest);
    file := worker.output;
    k := |chunks|;
    Sequences.TakeAll(chunks);
    if PassesThrough(cfg) {
      PassAllIsPassed(cfg, [], chunks);
      Sequences.Empty(Join(chunks));
    } else if cfg.opens {
      k := Stopped(cfg, chunks, memory, taken, worker.Model());
    } else {
      NoFile(cfg, chunks);
      Nothing(cfg, chunks, memory, taken, worker.Model());
    }
  }

  lemma Stopped(cfg: Config, chunks: seq<seq<Byte>>, memory: seq<bool>, taken: nat, p: Parser) returns (k: nat)
    requires !PassesThrough(cfg) && cfg.opens && taken <= |chunks| == |memory| && (taken < |chunks| ==> !p.process)
    requires Worker.HandedOver(cfg, chunks, memory, taken, p)
    ensures k <= |chunks| && p.output == WorkerFile(cfg, chunks[..k])
    ensures k < |chunks| ==> !memory[k]
  {
    KeepsGoing(cfg, Join(chunks[..taken]));
    k := if p.process then taken else taken - 1;
    AnyChunks(cfg, chunks[..k]);
  }

  lemma Nothing(cfg: Config, chunks: seq<seq<Byte>>, memory: seq<bool>, taken: nat, p: Parser)
    requires !PassesThrough(cfg) && !cfg.opens && Worker.HandedOver(cfg, chunks, memory, taken, p)
    ensures p.output == []
  {
    AnyChunks(cfg, chunks[..taken]);
    NoFile(cfg, chunks[..taken]);
    if taken > 0 {
      AnyChunks(cfg, chunks[..taken - 1]);
      NoFile(cfg, chunks[..taken - 1]);
    }
  }
}
