/** The control device as the driver has it: a mutable capture handle, filter and
    queue of pended reads around the in-place ring. Each method carries out one
    event of CaptureSession. */
module ControlDevice {
  import opened Wrappers
  import opened Bytes
  import opened PacketStore
  import opened CaptureSession
  import RingBuffer
  import Sequences

  /** The requests of file in queue order come out one by one (USBPcapQueue.c). */
  lemma {:induction false} OfFileAt(irps: seq<Irp>, file: File, k: nat)
    requires k < |irps| && irps[k].file == file
    requires forall i :: 0 <= i < k ==> irps[i].file != file
    ensures OfFile(irps, file, true) == [irps[k]] + OfFile(irps[..k] + irps[k + 1..], file, true)
    ensures OfFile(irps, file, false) == OfFile(irps[..k] + irps[k + 1..], file, false)
  {
    var rest := irps[..k] + irps[k + 1..];
    if k == 0 {
      assert rest == irps[1..];
    } else {
      OfFileAt(irps[1..], file, k - 1);
      assert rest[1..] == irps[1..][..k - 1] + irps[1..][k..];
      assert rest[0] == irps[0];
    }
  }

  lemma {:induction false} OfFileNone(irps: seq<Irp>, file: File)
    requires forall i :: 0 <= i < |irps| ==> irps[i].file != file
    ensures OfFile(irps, file, true) == [] && OfFile(irps, file, false) == irps
  {
    if irps != [] {
      OfFileNone(irps[1..], file);
      assert irps == [irps[0]] + irps[1..];
    }
  }

  lemma CancellationsAppend(a: seq<Irp>, x: Irp, b: seq<Irp>)
    ensures Cancellations(a + ([x] + b)) == (Cancellations(a) + [Completion(x.id, Cancelled, [])]) + Cancellations(b)
    ensures Cancellations([]) == []
  {}

  /** d is the driver after i events of the run from w, cs the completions on the way. */
  ghost predicate Reaches(w: World, es: seq<Event>, i: nat, d: Driver, cs: seq<Completion>)
    requires Legal(w, es)
  {
    i <= |es| && exists now: World ::
      && Legal(now, es[i..]) && Run(now, es[i..]) == Run(w, es)
      && d == now.driver && now.completed == w.completed + cs
  }

  lemma FirstEnabled(w: World, es: seq<Event>)
    requires es != [] && Legal(w, es)
    ensures es[0].Store? ==> IsPacketHeader(es[0].header)
    ensures es[0].SetSnaplen? ==> es[0].bytes < TWO_TO_32
  {}

  lemma EventOk(w: World, es: seq<Event>, i: nat, d: Driver, cs: seq<Completion>)
    requires Legal(w, es) && i < |es| && Reaches(w, es, i, d, cs)
    ensures es[i].Store? ==> IsPacketHeader(es[i].header)
    ensures es[i].SetSnaplen? ==> es[i].bytes < TWO_TO_32
  {
    var now: World :| Legal(now, es[i..]) && d == now.driver;
    FirstEnabled(now, es[i..]);
  }

  lemma ReachesNext(w: World, es: seq<Event>, i: nat, d: Driver, cs: seq<Completion>, r: Reply)
    requires Legal(w, es) && i < |es| && Reaches(w, es, i, d, cs)
    requires (es[i].Store? ==> IsPacketHeader(es[i].header)) && r == Step(d, es[i])
    ensures Reaches(w, es, i + 1, r.driver, cs + r.completions)
  {
    var now: World :| Legal(now, es[i..]) && Run(now, es[i..]) == Run(w, es)
      && d == now.driver && now.completed == w.completed + cs;
    Sequences.Regroup(w.completed, cs, r.completions);
    assert es[i..][1..] == es[i + 1..];
    assert Legal(Next(now, es[i]), es[i + 1..]);
  }

  class ControlDevice {
    const ring: RingBuffer.RootHubData
    var capture: Option<File>
    var filter: seq<Byte>
    var pended: seq<Irp>

    constructor ()
      ensures Valid() && fresh(ring) && Model() == PoweredUp()
    {
      ring := new RingBuffer.RootHubData();
      capture, filter, pended := None, NO_FILTER, [];
    }

    ghost predicate Valid()
      reads this, ring
    {
      ring.Valid()
    }

    ghost function Model(): Driver
      requires Valid()
      reads this, ring, ring.buffer
    {
      Driver(capture, ring.Fifo(), ring.snaplen, filter, pended)
    }

    method HandleCreate(file: File, wantsRead: bool) returns (status: Status)
      requires Valid()
      modifies this`capture
      ensures Valid() && Reply(Model(), status, []) == Step(old(Model()), Create(file, wantsRead))
    {
      status := Success;
      if wantsRead {
        var previous := capture;
        if previous == None {
          capture := Some(file);
        } else {
          status := AccessDenied;
        }
      }
    }

    /** DkCsqPeekNextIrp: the first pended request of the file. */
    method PeekNextIrp(file: File) returns (k: Option<nat>)
      ensures k.Some? ==> k.value < |pended| && pended[k.value].file == file
                          && forall i :: 0 <= i < k.value ==> pended[i].file != file
      ensures k.None? ==> forall i :: 0 <= i < |pended| ==> pended[i].file != file
    {
      var i := 0;
      while i < |pended|
        invariant i <= |pended| && forall j :: 0 <= j < i ==> pended[j].file != file
      {
        if pended[i].file == file {
          return Some(i);
        }
        i := i + 1;
      }
      return None;
    }

    method CleanUpQueue(file: File) returns (cs: seq<Completion>)
      modifies this`pended
      ensures pended == OfFile(old(pended), file, false)
      ensures cs == Cancellations(OfFile(old(pended), file, true))
    {
      cs := [];
      ghost var done: seq<Irp> := [];
      CancellationsAppend([], Irp(0, 0, 0), []);
      while true
        invariant OfFile(pended, file, false) == OfFile(old(pended), file, false)
        invariant OfFile(old(pended), file, true) == done + OfFile(pended, file, true)
        invariant cs == Cancellations(done)
        decreases |pended|
      {
        var next := PeekNextIrp(file);
        if next.None? {
          OfFileNone(pended, file);
          return;
        }
        var k := next.value;
        var irp := pended[k];
        OfFileAt(pended, file, k);
        CancellationsAppend(done, irp, []);
        Sequences.Regroup(done, [irp], OfFile(pended[..k] + pended[k + 1..], file, true));
        pended := pended[..k] + pended[k + 1..];
        cs := cs + [Completion(irp.id, Cancelled, [])];
        done := done + [irp];
      }
    }

    method HandleCleanupQueue(file: File) returns (cs: seq<Completion>)
      requires Valid()
      modifies this`pended
      ensures Valid() && Reply(Model(), Success, cs) == Step(old(Model()), CleanupQueue(file))
    {
      cs := [];
      if capture == Some(file) {
        cs := CleanUpQueue(file);
      }
    }

    method HandleCleanupBuffer(file: File)
      requires Valid()
      modifies this`filter, ring`buffer, ring`readOffset, ring`writeOffset
      ensures Valid() && (ring.buffer == old(ring.buffer) || ring.buffer == null)
      ensures Reply(Model(), Success, []) == Step(old(Model()), CleanupBuffer(file))
    {
      if capture == Some(file) {
        filter := NO_FILTER;
        ring.RemoveBuffer();
      }
    }

    method HandleClose(file: File)
      requires Valid()
      modifies this`capture
      ensures Valid() && Reply(Model(), Success, []) == Step(old(Model()), Close(file))
    {
      if capture == Some(file) {
        capture := None;
      }
    }

    method HandleSetupBuffer(file: File, bytes: nat, memory: bool) returns (status: Status)
      requires Valid()
      modifies ring`buffer, ring`bufferSize, ring`readOffset, ring`writeOffset
      ensures Valid() && (ring.buffer == old(ring.buffer) || fresh(ring.buffer))
      ensures Reply(Model(), status, []) == Step(old(Model()), SetupBuffer(file, bytes, memory))
    {
      if capture != Some(file) {
        return AccessDenied;
      }
      status := ring.SetUp(bytes, memory);
    }

    method HandleSetSnaplen(file: File, bytes: nat) returns (status: Status)
      requires Valid() && bytes < TWO_TO_32
      modifies ring`snaplen
      ensures Valid() && Reply(Model(), status, []) == Step(old(Model()), SetSnaplen(file, bytes))
    {
      if capture != Some(file) {
        return AccessDenied;
      }
      status := ring.SetSnaplen(bytes);
    }

    method HandleStartFiltering(file: File, addresses: seq<Byte>) returns (status: Status)
      requires Valid()
      modifies this`filter
      ensures Valid() && Reply(Model(), status, []) == Step(old(Model()), StartFiltering(file, addresses))
    {
      if capture != Some(file) {
        return AccessDenied;
      }
      filter := addresses;
      return Success;
    }

    method HandleStopFiltering(file: File) returns (status: Status)
      requires Valid()
      modifies this`filter
      ensures Valid() && Reply(Model(), status, []) == Step(old(Model()), StopFiltering(file))
    {
      if capture != Some(file) {
        return AccessDenied;
      }
      filter := NO_FILTER;
      return Success;
    }

    /** DkReadWrite and USBPcapBufferHandleReadIrp; the request's buffer is mapped
        memory of irp.length bytes. */
    method HandleRead(irp: Irp, mapped: bool) returns (status: Status, cs: seq<Completion>)
      requires Valid()
      modifies this`pended, ring`readOffset
      ensures Valid() && Reply(Model(), status, cs) == Step(old(Model()), Read(irp, mapped))
    {
      if capture != Some(irp.file) {
        return AccessDenied, [Completion(irp.id, AccessDenied, [])];
      }
      if irp.length == 0 {
        return Success, [Completion(irp.id, Success, [])];
      }
      if ring.buffer == null {
        return Unsuccessful, [Completion(irp.id, Unsuccessful, [])];
      }
      if !mapped {
        return InsufficientResources, [Completion(irp.id, InsufficientResources, [])];
      }
      var memory := new Byte[irp.length];
      ghost var data := ring.Contents();
      var bytesRead := ring.Read(memory, irp.length);
      assert memory[..bytesRead] == memory[..][..bytesRead] == data[..bytesRead];
      assert bytesRead == 0 ==> data[bytesRead..] == data;
      if bytesRead == 0 {
        pended := pended + [irp];
        return Pending, [];
      }
      status, cs := Success, [Completion(irp.id, Success, memory[..bytesRead])];
    }

    method CompletePendedRead(mapped: bool) returns (cs: seq<Completion>)
      requires Valid() && ring.buffer != null
      modifies this`pended, ring`readOffset
      ensures Valid() && Reply(Model(), Success, cs) == CompletePended(old(Model()), mapped)
    {
      if pended == [] {
        return [];
      }
      var irp := pended[0];
      pended := pended[1..];
      if !mapped {
        return [Completion(irp.id, InsufficientResources, [])];
      }
      var memory := new Byte[irp.length];
      var bytes := 0;
      ghost var data := ring.Contents();
      if irp.length != 0 {
        bytes := ring.Read(memory, irp.length);
      }
      assert memory[..bytes] == memory[..][..bytes] == data[..bytes];
      assert bytes == 0 ==> data[bytes..] == data;
      cs := [Completion(irp.id, Success, memory[..bytes])];
    }

    method HandleCancelRead(id: nat) returns (cs: seq<Completion>)
      requires Valid()
      modifies this`pended
      ensures Valid() && Reply(Model(), Success, cs) == Step(old(Model()), CancelRead(id))
    {
      cs := [];
      var at := PositionOf(pended, id);
      if at.Some? {
        pended := pended[..at.value] + pended[at.value + 1..];
        cs := [Completion(id, Cancelled, [])];
      }
    }

    /** USBPcapBufferWriteTimestampedPayload. */
    method WritePayload(timestamp: nat, header: seq<Byte>, entries: seq<Payload>, mapped: bool)
      returns (status: Status, cs: seq<Completion>)
      requires Valid() && IsPacketHeader(header)
      modifies this`pended, ring`readOffset, ring`writeOffset, ring.buffer
      ensures Valid() && Reply(Model(), status, cs) == Step(old(Model()), Store(timestamp, header, entries, mapped))
    {
      cs := [];
      status := ring.StorePacket(timestamp, header, entries);
      if status == Success {
        cs := CompletePendedRead(mapped);
      }
    }

    /** Carries out one event. */
    method Dispatch(e: Event) returns (status: Status, cs: seq<Completion>)
      requires Valid() && (e.Store? ==> IsPacketHeader(e.header)) && (e.SetSnaplen? ==> e.bytes < TWO_TO_32)
      modifies this, ring, ring.buffer
      ensures Valid() && (ring.buffer == old(ring.buffer) || ring.buffer == null || fresh(ring.buffer))
      ensures Reply(Model(), status, cs) == Step(old(Model()), e)
    {
      status, cs := Success, [];
      match e {
        case Create(file, wantsRead) => status := HandleCreate(file, wantsRead);
        case CleanupQueue(file) => cs := HandleCleanupQueue(file);
        case CleanupBuffer(file) => HandleCleanupBuffer(file);
        case Close(file) => HandleClose(file);
        case SetupBuffer(file, bytes, memory) => status := HandleSetupBuffer(file, bytes, memory);
        case SetSnaplen(file, bytes) => status := HandleSetSnaplen(file, bytes);
        case StartFiltering(file, addresses) => status := HandleStartFiltering(file, addresses);
        case StopFiltering(file) => status := HandleStopFiltering(file);
        case Read(irp, mapped) => status, cs := HandleRead(irp, mapped);
        case CancelRead(id) => cs := HandleCancelRead(id);
        case Store(timestamp, header, entries, mapped) =>
          status, cs := WritePayload(timestamp, header, entries, mapped);
      }
    }

    /** Carries out a whole run, in the world w the device is in, and returns its
        completions. */
    method DispatchAll(es: seq<Event>, ghost w: World) returns (cs: seq<Completion>)
      requires Valid() && Model() == w.driver && Legal(w, es)
      modifies this, ring, ring.buffer
      ensures Valid() && Model() == Run(w, es).driver
      ensures w.completed + cs == Run(w, es).completed
    {
      cs := [];
      var i := 0;
      Sequences.Empty(w.completed);
      while i < |es|
        invariant i <= |es| && Valid()
        invariant ring.buffer == old(ring.buffer) || ring.buffer == null || fresh(ring.buffer)
        invariant Reaches(w, es, i, Model(), cs)
      {
        EventOk(w, es, i, Model(), cs);
        ghost var before := Model();
        var status, more := Dispatch(es[i]);
        ReachesNext(w, es, i, before, cs, Reply(Model(), status, more));
        cs := cs + more;
        i := i + 1;
      }
    }
  }
}
