/** The control device of USBPcapDriver as a state machine: the exclusive capture
    handle (USBPcapGenReq.c), the control codes (USBPcapDeviceControl.c), the
    pended reads (USBPcapQueue.c) and the packets stored meanwhile
    (USBPcapBuffer.c). Each event is one dispatch or one critical section.

    World adds to the driver's own state what the I/O manager guarantees (the life
    of a file object, fresh request ids) and the history the theorems speak of. */
module CaptureSession {
  import opened Wrappers
  import opened Bytes
  import opened Pcap
  import opened PacketStore
  import Sequences

  type File = nat

  /** A read request. */
  datatype Irp = Irp(id: nat, file: File, length: nat)

  datatype Completion = Completion(id: nat, status: Status, data: seq<Byte>)

  /** pended is the cancel-safe queue, oldest first; filter the bytes of the address filter. */
  datatype Driver = Driver(capture: Option<File>, ring: Ring, snaplen: nat, filter: seq<Byte>, pended: seq<Irp>)

  const NO_FILTER: seq<Byte> := [0, 0, 0, 0, 0, 0, 0, 0, 0, 0, 0, 0, 0, 0, 0, 0, 0]   // sizeof(USBPCAP_ADDRESS_FILTER)

  function PoweredUp(): Driver {
    Driver(None, NoBuffer, DEFAULT_SNAPLEN, NO_FILTER, [])
  }

  /** mapped says whether the request's buffer could be mapped, memory whether an
      allocation succeeds. */
  datatype Event =
    | Create(file: File, wantsRead: bool)
    | CleanupQueue(file: File)
    | CleanupBuffer(file: File)
    | Close(file: File)
    | SetupBuffer(file: File, bytes: nat, memory: bool)
    | SetSnaplen(file: File, bytes: nat)
    | StartFiltering(file: File, filter: seq<Byte>)
    | StopFiltering(file: File)
    | Read(irp: Irp, mapped: bool)
    | CancelRead(id: nat)
    | Store(timestamp: nat, header: seq<Byte>, entries: seq<Payload>, mapped: bool)

  datatype Reply = Reply(driver: Driver, status: Status, completions: seq<Completion>)

  function Cancellations(irps: seq<Irp>): (cs: seq<Completion>)
    ensures |cs| == |irps|
    ensures forall k :: 0 <= k < |irps| ==> cs[k] == Completion(irps[k].id, Cancelled, [])
  {
    seq(|irps|, k requires 0 <= k < |irps| => Completion(irps[k].id, Cancelled, []))
  }

  /** The requests of a file, or those of other files, in queue order. */
  function OfFile(irps: seq<Irp>, file: File, own: bool): (r: seq<Irp>)
  {
    if irps == [] then []
    else (if (irps[0].file == file) == own then [irps[0]] else []) + OfFile(irps[1..], file, own)
  }

  function PositionOf(irps: seq<Irp>, id: nat): (r: Option<nat>)
    ensures r.Some? ==> r.value < |irps| && irps[r.value].id == id
    ensures r.None? ==> forall k :: 0 <= k < |irps| ==> irps[k].id != id
  {
    if irps == [] then None
    else if irps[0].id == id then Some(0)
    else match PositionOf(irps[1..], id)
         case None => None
         case Some(k) => Some(k + 1)
  }

  /** A read that finds data takes it; one that finds none is queued. */
  function ReadStep(d: Driver, irp: Irp, mapped: bool): Reply {
    if d.capture != Some(irp.file) then Reply(d, AccessDenied, [Completion(irp.id, AccessDenied, [])])
    else if irp.length == 0 then Reply(d, Success, [Completion(irp.id, Success, [])])
    else if d.ring.NoBuffer? then Reply(d, Unsuccessful, [Completion(irp.id, Unsuccessful, [])])
    else if !mapped then Reply(d, InsufficientResources, [Completion(irp.id, InsufficientResources, [])])
    else
      var n := Min(|d.ring.data|, irp.length);
      if n == 0 then Reply(d.(pended := d.pended + [irp]), Pending, [])
      else Reply(d.(ring := d.ring.(data := d.ring.data[n..])), Success,
                 [Completion(irp.id, Success, d.ring.data[..n])])
  }

  /** After a successful store the oldest pended read, and only that one, is completed. */
  function CompletePended(d: Driver, mapped: bool): Reply
    requires d.ring.Buffer?
  {
    if d.pended == [] then Reply(d, Success, [])
    else
      var irp := d.pended[0];
      var rest := d.(pended := d.pended[1..]);
      if !mapped then Reply(rest, Success, [Completion(irp.id, InsufficientResources, [])])
      else
        var n := Min(|d.ring.data|, irp.length);
        Reply(rest.(ring := d.ring.(data := d.ring.data[n..])), Success,
              [Completion(irp.id, Success, d.ring.data[..n])])
  }

  function StoreStep(d: Driver, timestamp: nat, header: seq<Byte>, entries: seq<Payload>, mapped: bool): Reply
    requires IsPacketHeader(header)
  {
    var r := StoreInRing(d.ring, d.snaplen, timestamp, header, entries);
    if r.1 == Success then CompletePended(d.(ring := r.0), mapped) else Reply(d, r.1, [])
  }

  /** What the driver does on an event. */
  function Step(d: Driver, e: Event): Reply
    requires e.Store? ==> IsPacketHeader(e.header)
  {
    match e
    case Create(file, wantsRead) =>
      if !wantsRead then Reply(d, Success, [])
      else if d.capture.Some? then Reply(d, AccessDenied, [])
      else Reply(d.(capture := Some(file)), Success, [])
    case CleanupQueue(file) =>
      if d.capture != Some(file) then Reply(d, Success, [])
      else Reply(d.(pended := OfFile(d.pended, file, false)), Success, Cancellations(OfFile(d.pended, file, true)))
    case CleanupBuffer(file) =>
      if d.capture != Some(file) then Reply(d, Success, [])
      else Reply(d.(filter := NO_FILTER, ring := NoBuffer), Success, [])
    case Close(file) =>
      Reply(if d.capture == Some(file) then d.(capture := None) else d, Success, [])
    case SetupBuffer(file, bytes, memory) =>
      if d.capture != Some(file) then Reply(d, AccessDenied, [])
      else
        var r := SetUpRing(d.ring, d.snaplen, bytes, memory);
        Reply(d.(ring := r.0), r.1, [])
    case SetSnaplen(file, bytes) =>
      if d.capture != Some(file) then Reply(d, AccessDenied, [])
      else if bytes == 0 then Reply(d, InvalidParameter, [])
      else if d.ring.Buffer? then Reply(d, Unsuccessful, [])
      else Reply(d.(snaplen := bytes), Success, [])
    case StartFiltering(file, filter) =>
      if d.capture != Some(file) then Reply(d, AccessDenied, [])
      else Reply(d.(filter := filter), Success, [])
    case StopFiltering(file) =>
      if d.capture != Some(file) then Reply(d, AccessDenied, [])
      else Reply(d.(filter := NO_FILTER), Success, [])
    case Read(irp, mapped) => ReadStep(d, irp, mapped)
    case CancelRead(id) =>
      (match PositionOf(d.pended, id)
       case None => Reply(d, Success, [])
       case Some(k) => Reply(d.(pended := d.pended[..k] + d.pended[k + 1..]), Success, [Completion(id, Cancelled, [])]))
    case Store(timestamp, header, entries, mapped) => StoreStep(d, timestamp, header, entries, mapped)
  }

  // ---------- the world around the driver ----------

  datatype Stage = Open | Draining | Released

  /** written and delivered are the bytes put into and taken out of the present
      ring since it was created, records the records among written, largest the
      largest size the ring has had since. */
  datatype World = World(driver: Driver, files: map<File, Stage>, issued: set<nat>, completed: seq<Completion>,
                         written: seq<Byte>, records: seq<seq<Byte>>, delivered: seq<Byte>, largest: nat)

  function Boot(): World {
    World(PoweredUp(), map[], {}, [], [], [], [], 0)
  }

  function FileOf(e: Event): Option<File> {
    match e
    case Create(f, _) => Some(f)
    case CleanupQueue(f) => Some(f)
    case CleanupBuffer(f) => Some(f)
    case Close(f) => Some(f)
    case SetupBuffer(f, _, _) => Some(f)
    case SetSnaplen(f, _) => Some(f)
    case StartFiltering(f, _) => Some(f)
    case StopFiltering(f) => Some(f)
    case Read(irp, _) => Some(irp.file)
    case _ => None
  }

  /** What the I/O manager guarantees: requests reach an open handle only, cleanup
      runs once before close, request ids are fresh; and 32-bit arguments. */
  predicate Enabled(w: World, e: Event) {
    match e
    case Create(f, _) => f !in w.files
    case CleanupQueue(f) => f in w.files && w.files[f].Open?
    case CleanupBuffer(f) => f in w.files && w.files[f].Draining?
    case Close(f) => f in w.files && w.files[f].Released?
    case Read(irp, _) => irp.file in w.files && w.files[irp.file].Open? && irp.id !in w.issued
    case SetSnaplen(f, bytes) => f in w.files && w.files[f].Open? && bytes < TWO_TO_32
    case CancelRead(_) => true
    case Store(_, header, _, _) => IsPacketHeader(header)
    case _ => FileOf(e).value in w.files && w.files[FileOf(e).value].Open?
  }

  function FilesAfter(files: map<File, Stage>, e: Event, status: Status): map<File, Stage> {
    match e
    case Create(f, _) => if status == Success then files[f := Open] else files
    case CleanupQueue(f) => files[f := Draining]
    case CleanupBuffer(f) => files[f := Released]
    case Close(f) => map g | g in files && g != f :: files[g]
    case _ => files
  }

  /** The data of the successful completions, in order. */
  function Data(cs: seq<Completion>): seq<Byte> {
    if cs == [] then [] else (if cs[0].status == Success then cs[0].data else []) + Data(cs[1..])
  }

  /** The record an event puts into the ring, if any. */
  function Stored(d: Driver, e: Event): (r: seq<seq<Byte>>)
    requires e.Store? ==> IsPacketHeader(e.header)
  {
    if e.Store? && StoreInRing(d.ring, d.snaplen, e.timestamp, e.header, e.entries).1 == Success
    then [RecordBytes(d.snaplen, e.timestamp, e.header, e.entries)] else []
  }

  function Largest(n: nat, ring: Ring): nat {
    if ring.Buffer? && ring.size > n then ring.size else n
  }

  function Next(w: World, e: Event): World
    requires Enabled(w, e)
  {
    var r := Step(w.driver, e);
    var stored := Stored(w.driver, e);
    var created := w.driver.ring.NoBuffer? && r.driver.ring.Buffer?;
    World(r.driver,
          FilesAfter(w.files, e, r.status),
          if e.Read? then w.issued + {e.irp.id} else w.issued,
          w.completed + r.completions,
          if created then r.driver.ring.data else w.written + Join(stored),
          if created then [] else w.records + stored,
          if created then [] else w.delivered + Data(r.completions),
          if created then r.driver.ring.size else Largest(w.largest, r.driver.ring))
  }

  ghost predicate Legal(w: World, es: seq<Event>)
    decreases |es|
  {
    es == [] || (Enabled(w, es[0]) && Legal(Next(w, es[0]), es[1..]))
  }

  function Run(w: World, es: seq<Event>): World
    requires Legal(w, es)
    decreases |es|
  {
    if es == [] then w else Run(Next(w, es[0]), es[1..])
  }

  // ---------- invariants ----------

  /** A ring and pended reads exist only while a capture handle is open. */
  predicate SessionOk(w: World) {
    var d := w.driver;
    && (d.capture.Some? ==> d.capture.value in w.files)
    && (d.ring.Buffer? ==> d.capture.Some? && !w.files[d.capture.value].Released?)
    && (d.pended != [] ==> d.ring.Buffer? && w.files[d.capture.value].Open?)
    && (forall k :: 0 <= k < |d.pended| ==> d.capture == Some(d.pended[k].file))
  }

  predicate DistinctReads(p: seq<Irp>, c: seq<Completion>) {
    && (forall i, j :: 0 <= i < j < |p| ==> p[i].id != p[j].id)
    && (forall i, j :: 0 <= i < j < |c| ==> c[i].id != c[j].id)
    && (forall i, j :: 0 <= i < |p| && 0 <= j < |c| ==> p[i].id != c[j].id)
  }

  ghost function PendedIds(p: seq<Irp>): set<nat> {
    set k | 0 <= k < |p| :: p[k].id
  }

  ghost function CompletedIds(c: seq<Completion>): set<nat> {
    set k | 0 <= k < |c| :: c[k].id
  }

  /** Every read issued is completed once or still pended, never both. */
  ghost predicate Accounted(p: seq<Irp>, c: seq<Completion>, issued: set<nat>) {
    DistinctReads(p, c) && PendedIds(p) + CompletedIds(c) == issued
  }

  ghost predicate ReadsOk(w: World) {
    Accounted(w.driver.pended, w.completed, w.issued)
  }

  /** The ring is a byte queue carrying one capture stream: the global header, then
      records no longer than its snaplen announces; nothing is lost or repeated. */
  predicate StreamOk(w: World) {
    && 0 < w.driver.snaplen < TWO_TO_32
    && (w.driver.ring.Buffer? ==> RingOk(w.driver.ring, w.driver.snaplen, w.written, w.records, w.delivered, w.largest))
  }

  /** A record as stored: no longer than snaplen and small enough for the ring. */
  predicate RecordOk(r: seq<Byte>, snaplen: nat, largest: nat) {
    |r| >= RECORD_HEADER && InclLen(r) <= snaplen && RECORD_HEADER + InclLen(r) < largest
  }

  predicate RingOk(ring: Ring, snaplen: nat, written: seq<Byte>, records: seq<seq<Byte>>, delivered: seq<Byte>,
                   largest: nat)
    requires ring.Buffer?
  {
    && 4096 <= ring.size <= largest <= 134217728
    && |ring.data| < ring.size
    && written == delivered + ring.data
    && written == GlobalHeader(snaplen) + Join(records)
    && forall k :: 0 <= k < |records| ==> RecordOk(records[k], snaplen, largest)
  }

  ghost predicate Inv(w: World) {
    SessionOk(w) && ReadsOk(w) && StreamOk(w)
  }

  lemma {:induction false} OfFileAll(irps: seq<Irp>, file: File)
    requires forall k :: 0 <= k < |irps| ==> irps[k].file == file
    ensures OfFile(irps, file, true) == irps && OfFile(irps, file, false) == []
  {
    if irps != [] {
      OfFileAll(irps[1..], file);
      assert irps == [irps[0]] + irps[1..];
    }
  }

  lemma SessionHandles(w: World, e: Event)
    requires Enabled(w, e) && SessionOk(w)
    requires e.Create? || e.CleanupQueue? || e.CleanupBuffer? || e.Close?
    ensures SessionOk(Next(w, e))
  {
    if e.CleanupQueue? && w.driver.capture == Some(e.file) {
      OfFileAll(w.driver.pended, e.file);
    }
  }

  lemma SessionControls(w: World, e: Event)
    requires Enabled(w, e) && SessionOk(w)
    requires e.SetupBuffer? || e.SetSnaplen? || e.StartFiltering? || e.StopFiltering?
    ensures SessionOk(Next(w, e))
  {}

  lemma SessionRead(w: World, e: Event)
    requires Enabled(w, e) && SessionOk(w)
    requires e.Read?
    ensures SessionOk(Next(w, e))
  {}

  lemma SessionStore(w: World, e: Event)
    requires Enabled(w, e) && SessionOk(w)
    requires e.Store?
    ensures SessionOk(Next(w, e))
  {}

  lemma SessionCancel(w: World, e: Event)
    requires Enabled(w, e) && SessionOk(w)
    requires e.CancelRead?
    ensures SessionOk(Next(w, e))
  {}

  lemma SessionStep(w: World, e: Event)
    requires Enabled(w, e) && SessionOk(w)
    ensures SessionOk(Next(w, e))
  {
    if e.Read? {
      SessionRead(w, e);
    } else if e.Store? {
      SessionStore(w, e);
    } else if e.CancelRead? {
      SessionCancel(w, e);
    } else if e.SetupBuffer? || e.SetSnaplen? || e.StartFiltering? || e.StopFiltering? {
      SessionControls(w, e);
    } else {
      SessionHandles(w, e);
    }
  }

  lemma IdsAppend(c: seq<Completion>, d: seq<Completion>)
    ensures CompletedIds(c + d) == CompletedIds(c) + CompletedIds(d)
  {
    var e := c + d;
    forall id | id in CompletedIds(c) + CompletedIds(d) ensures id in CompletedIds(e) {
      if id in CompletedIds(c) {
        var k :| 0 <= k < |c| && c[k].id == id;
        assert e[k].id == id;
      } else {
        var k :| 0 <= k < |d| && d[k].id == id;
        assert e[|c| + k].id == id;
      }
    }
  }

  lemma IdsRemove(p: seq<Irp>, k: nat)
    requires k < |p|
    ensures PendedIds(p[..k] + p[k + 1..]) + {p[k].id} == PendedIds(p)
  {
    var q := p[..k] + p[k + 1..];
    forall id | id in PendedIds(p) ensures id in PendedIds(q) + {p[k].id} {
      var i :| 0 <= i < |p| && p[i].id == id;
      if i < k { assert q[i].id == id; }
      if i > k { assert q[i - 1].id == id; }
    }
  }

  lemma IdsAdd(p: seq<Irp>, irp: Irp)
    ensures PendedIds(p + [irp]) == PendedIds(p) + {irp.id}
  {
    var q := p + [irp];
    assert q[|p|].id == irp.id;
    forall id | id in PendedIds(p) ensures id in PendedIds(q) {
      var i :| 0 <= i < |p| && p[i].id == id;
      assert q[i].id == id;
    }
  }

  lemma IdsCancelled(p: seq<Irp>)
    ensures CompletedIds(Cancellations(p)) == PendedIds(p)
  {}

  /** Read number k of the queue is completed. */
  lemma CompleteOne(p: seq<Irp>, c: seq<Completion>, issued: set<nat>, k: nat, x: Completion)
    requires Accounted(p, c, issued) && k < |p| && x.id == p[k].id
    ensures Accounted(p[..k] + p[k + 1..], c + [x], issued)
  {
    IdsRemove(p, k);
    IdsAppend(c, [x]);
    assert CompletedIds([x]) == {x.id} by { assert [x][0].id == x.id; }
  }

  lemma CompleteFirst(p: seq<Irp>, c: seq<Completion>, issued: set<nat>, x: Completion)
    requires Accounted(p, c, issued) && p != [] && x.id == p[0].id
    ensures Accounted(p[1..], c + [x], issued)
  {
    CompleteOne(p, c, issued, 0, x);
    assert p[..0] + p[1..] == p[1..];
  }

  /** A fresh read is completed at once. */
  lemma CompleteNew(p: seq<Irp>, c: seq<Completion>, issued: set<nat>, x: Completion)
    requires Accounted(p, c, issued) && x.id !in issued
    ensures Accounted(p, c + [x], issued + {x.id})
  {
    IdsAppend(c, [x]);
    assert CompletedIds([x]) == {x.id} by { assert [x][0].id == x.id; }
    forall k | 0 <= k < |p| ensures p[k].id != x.id { assert p[k].id in PendedIds(p); }
    forall k | 0 <= k < |c| ensures c[k].id != x.id { assert c[k].id in CompletedIds(c); }
  }

  lemma PendNew(p: seq<Irp>, c: seq<Completion>, issued: set<nat>, irp: Irp)
    requires Accounted(p, c, issued) && irp.id !in issued
    ensures Accounted(p + [irp], c, issued + {irp.id})
  {
    IdsAdd(p, irp);
    forall k | 0 <= k < |p| ensures p[k].id != irp.id { assert p[k].id in PendedIds(p); }
    forall k | 0 <= k < |c| ensures c[k].id != irp.id { assert c[k].id in CompletedIds(c); }
  }

  lemma CancelAll(p: seq<Irp>, c: seq<Completion>, issued: set<nat>)
    requires Accounted(p, c, issued)
    ensures Accounted([], c + Cancellations(p), issued)
  {
    IdsAppend(c, Cancellations(p));
    IdsCancelled(p);
  }

  /** Events other than these complete no read and pend none. */
  lemma NoReads(w: World, e: Event)
    requires Enabled(w, e)
    requires !e.CleanupQueue? && !e.Read? && !e.CancelRead? && !e.Store?
    ensures var n := Next(w, e);
            n.driver.pended == w.driver.pended && n.completed == w.completed && n.issued == w.issued
  {
    Sequences.Empty(w.completed);
  }

  lemma ReadsRead(w: World, e: Event)
    requires Enabled(w, e) && ReadsOk(w)
    requires e.Read?
    ensures ReadsOk(Next(w, e))
  {
    var p, c, issued := w.driver.pended, w.completed, w.issued;
    var r := ReadStep(w.driver, e.irp, e.mapped);
    Sequences.Empty(c);
    if r.status == Pending { PendNew(p, c, issued, e.irp); } else { CompleteNew(p, c, issued, r.completions[0]); }
  }

  lemma ReadsStore(w: World, e: Event)
    requires Enabled(w, e) && ReadsOk(w)
    requires e.Store?
    ensures ReadsOk(Next(w, e))
  {
    var p, c := w.driver.pended, w.completed;
    var r := Step(w.driver, e);
    assert if r.completions == [] then r.driver.pended == p
           else p != [] && r.driver.pended == p[1..] && r.completions == [r.completions[0]]
                && r.completions[0].id == p[0].id;
    Sequences.Empty(c);
    if r.completions != [] {
      CompleteFirst(p, c, w.issued, r.completions[0]);
    }
  }

  lemma ReadsCancel(w: World, e: Event)
    requires Enabled(w, e) && ReadsOk(w)
    requires e.CancelRead?
    ensures ReadsOk(Next(w, e))
  {
    var at := PositionOf(w.driver.pended, e.id);
    Sequences.Empty(w.completed);
    if at.Some? {
      CompleteOne(w.driver.pended, w.completed, w.issued, at.value, Completion(e.id, Cancelled, []));
    }
  }

  lemma ReadsCleanup(w: World, e: Event)
    requires Enabled(w, e) && SessionOk(w) && ReadsOk(w)
    requires e.CleanupQueue?
    ensures ReadsOk(Next(w, e))
  {
    Sequences.Empty(w.completed);
    if w.driver.capture == Some(e.file) {
      OfFileAll(w.driver.pended, e.file);
      CancelAll(w.driver.pended, w.completed, w.issued);
    }
  }

  lemma ReadsStep(w: World, e: Event)
    requires Enabled(w, e) && SessionOk(w) && ReadsOk(w)
    ensures ReadsOk(Next(w, e))
  {
    if e.CleanupQueue? {
      ReadsCleanup(w, e);
    } else if e.Read? {
      ReadsRead(w, e);
    } else if e.Store? {
      ReadsStore(w, e);
    } else if e.CancelRead? {
      ReadsCancel(w, e);
    } else {
      NoReads(w, e);
    }
  }

  lemma DataOne(c: Completion)
    ensures Data([c]) == if c.status == Success then c.data else []
  {}

  lemma {:induction false} DataCancelled(p: seq<Irp>)
    ensures Data(Cancellations(p)) == []
  {
    if p != [] {
      assert Cancellations(p)[1..] == Cancellations(p[1..]);
      DataCancelled(p[1..]);
    }
  }

  /** Bytes taken out of the ring move from its data to what was delivered. */
  lemma RingTake(ring: Ring, snaplen: nat, written: seq<Byte>, records: seq<seq<Byte>>, delivered: seq<Byte>,
                 largest: nat, n: nat)
    requires ring.Buffer? && RingOk(ring, snaplen, written, records, delivered, largest) && n <= |ring.data|
    ensures RingOk(ring.(data := ring.data[n..]), snaplen, written, records, delivered + ring.data[..n], largest)
  {}

  lemma RingPut(ring: Ring, snaplen: nat, written: seq<Byte>, records: seq<seq<Byte>>, delivered: seq<Byte>,
                largest: nat, r: seq<Byte>)
    requires ring.Buffer? && RingOk(ring, snaplen, written, records, delivered, largest)
    requires |ring.data| + |r| < ring.size && RecordOk(r, snaplen, largest)
    ensures RingOk(ring.(data := ring.data + r), snaplen, written + Join([r]), records + [r], delivered, largest)
  {
    JoinOne(records, r);
    assert Join([r]) == r by { JoinOne([], r); Sequences.Empty([r]); Sequences.Empty(r); }
    Sequences.Regroup(delivered, ring.data, r);
    Sequences.Regroup(GlobalHeader(snaplen), Join(records), r);
  }

  lemma RingCreate(size: nat, snaplen: nat)
    requires 4096 <= size <= 134217728
    ensures RingOk(Buffer(size, GlobalHeader(snaplen)), snaplen, GlobalHeader(snaplen), [], [], size)
  {
    Sequences.Empty(GlobalHeader(snaplen));
  }

  lemma NothingMoves(w: World, e: Event)
    requires Enabled(w, e)
    requires Stored(w.driver, e) == [] && Data(Step(w.driver, e).completions) == []
    requires !(w.driver.ring.NoBuffer? && Step(w.driver, e).driver.ring.Buffer?)
    ensures var n := Next(w, e); n.written == w.written && n.records == w.records && n.delivered == w.delivered
  {
    Sequences.Empty(w.written);
    Sequences.Empty(w.records);
    Sequences.Empty(w.delivered);
  }

  lemma StreamStore(w: World, e: Event)
    requires e.Store? && Enabled(w, e) && StreamOk(w)
    ensures StreamOk(Next(w, e))
  {
    var d := w.driver;
    var r := Step(d, e);
    if r.status != Success {
      NothingMoves(w, e);
    } else {
      var x := RecordBytes(d.snaplen, e.timestamp, e.header, e.entries);
      StoredFraming(d.snaplen, e.timestamp, e.header, e.entries);
      RingPut(d.ring, d.snaplen, w.written, w.records, w.delivered, w.largest, x);
      var ring := d.ring.(data := d.ring.data + x);
      if r.completions == [] {
        Sequences.Empty(w.delivered);
      } else {
        DataOne(r.completions[0]);
        if e.mapped {
          RingTake(ring, d.snaplen, w.written + Join([x]), w.records + [x], w.delivered, w.largest,
                   Min(|ring.data|, d.pended[0].length));
        } else {
          Sequences.Empty(w.delivered);
        }
      }
    }
  }

  lemma StreamRead(w: World, e: Event)
    requires e.Read? && Enabled(w, e) && StreamOk(w)
    ensures StreamOk(Next(w, e))
  {
    var d := w.driver;
    var r := Step(d, e);
    if r.completions != [] { DataOne(r.completions[0]); }
    if r.status == Success && e.irp.length > 0 {
      RingTake(d.ring, d.snaplen, w.written, w.records, w.delivered, w.largest, Min(|d.ring.data|, e.irp.length));
      Sequences.Empty(w.written);
      Sequences.Empty(w.records);
    } else {
      NothingMoves(w, e);
    }
  }

  lemma StreamSetup(w: World, e: Event)
    requires e.SetupBuffer? && Enabled(w, e) && StreamOk(w)
    ensures StreamOk(Next(w, e))
  {
    if w.driver.ring.NoBuffer? {
      if Step(w.driver, e).status == Success { RingCreate(e.bytes, w.driver.snaplen); }
    } else {
      NothingMoves(w, e);
    }
  }

  lemma StreamStep(w: World, e: Event)
    requires Enabled(w, e) && StreamOk(w)
    ensures StreamOk(Next(w, e))
  {
    match e {
      case Store(_, _, _, _) => StreamStore(w, e);
      case SetupBuffer(_, _, _) => StreamSetup(w, e);
      case Read(_, _) => StreamRead(w, e);
      case CleanupQueue(file) =>
        DataCancelled(OfFile(w.driver.pended, file, true));
        NothingMoves(w, e);
      case CancelRead(id) =>
        if PositionOf(w.driver.pended, id).Some? { DataOne(Completion(id, Cancelled, [])); }
        NothingMoves(w, e);
      case _ => NothingMoves(w, e);
    }
  }

  /** Every run from power-up keeps the session, the reads and the stream in order. */
  lemma {:induction false} RunKeepsInv(w: World, es: seq<Event>)
    requires Legal(w, es) && Inv(w)
    ensures Inv(Run(w, es))
    decreases |es|
  {
    if es != [] {
      SessionStep(w, es[0]);
      ReadsStep(w, es[0]);
      StreamStep(w, es[0]);
      RunKeepsInv(Next(w, es[0]), es[1..]);
    }
  }

  lemma RunFromBoot(es: seq<Event>)
    requires Legal(Boot(), es)
    ensures Inv(Run(Boot(), es))
  {
    RunKeepsInv(Boot(), es);
  }

  // ---------- the capture handle ----------

  /** The capture handle changes hands by being taken while free and by being closed by
      its owner, and not otherwise; closing finds neither a ring nor a pended read. */
  lemma CaptureHandle(w: World, e: Event)
    requires Enabled(w, e) && SessionOk(w)
    ensures var c, c' := w.driver.capture, Next(w, e).driver.capture;
      && (c != c' ==> (c.None? && e == Create(c'.value, true)) || (c'.None? && e == Close(c.value)))
      && (e.Create? && e.wantsRead && c.None? ==> c' == Some(e.file))
      && (c.Some? && e == Close(c.value) ==> c'.None?)
      && (e.Create? && e.wantsRead ==> (Step(w.driver, e).status == Success <==> c.None?))
      && (c.Some? && e == Close(c.value) ==> w.driver.ring.NoBuffer? && w.driver.pended == [])
      && (FileOf(e).Some? && FileOf(e) != c && !e.Create? ==> Step(w.driver, e).driver == w.driver)
  {}

  /** The snapshot length, and with it the header a ring starts with, cannot change
      while the ring exists; a new ring starts a new stream. */
  lemma SnaplenFixed(w: World, e: Event)
    requires Enabled(w, e) && w.driver.ring.Buffer? && Next(w, e).driver.ring.Buffer?
    ensures Next(w, e).driver.snaplen == w.driver.snaplen
    ensures w.written <= Next(w, e).written && w.records <= Next(w, e).records && w.delivered <= Next(w, e).delivered
  {}

  // ---------- wake-ups ----------

  /** The reader issues a read only when it has none outstanding. */
  ghost predicate OneReader(w: World, es: seq<Event>)
    requires Legal(w, es)
    decreases |es|
  {
    es == [] || ((es[0].Read? ==> w.driver.pended == []) && OneReader(Next(w, es[0]), es[1..]))
  }

  predicate Awake(d: Driver) {
    d.pended == [] || (|d.pended| == 1 && d.ring.Buffer? && d.ring.data == [])
  }

  lemma AwakeStep(w: World, e: Event)
    requires Enabled(w, e) && SessionOk(w) && Awake(w.driver)
    requires e.Read? ==> w.driver.pended == []
    ensures Awake(Next(w, e).driver)
  {
    if e.CleanupQueue? && w.driver.capture == Some(e.file) {
      OfFileAll(w.driver.pended, e.file);
    }
  }

  /** With one read outstanding at a time, no reachable state leaves it waiting
      while the ring holds data. */
  lemma {:induction false} RunStaysAwake(w: World, es: seq<Event>)
    requires Legal(w, es) && OneReader(w, es) && SessionOk(w) && Awake(w.driver)
    ensures Awake(Run(w, es).driver)
    decreases |es|
  {
    if es != [] {
      AwakeStep(w, es[0]);
      SessionStep(w, es[0]);
      RunStaysAwake(Next(w, es[0]), es[1..]);
    }
  }

  /** A read waits beside data. */
  predicate Starves(d: Driver) {
    d.pended != [] && d.ring.Buffer? && d.ring.data != []
  }

  /** The store after which one does: there is a second read, and the first fails or is
      too short to take the whole record. */
  predicate LeavesWaiting(d: Driver, e: Event)
    requires e.Store? ==> IsPacketHeader(e.header)
  {
    && e.Store? && Step(d, e).status == Success && |d.pended| > 1
    && (!e.mapped || d.pended[0].length < |RecordBytes(d.snaplen, e.timestamp, e.header, e.entries)|)
  }

  /** No other event leaves a read waiting. */
  lemma StarvesNext(w: World, e: Event)
    requires Enabled(w, e) && SessionOk(w) && !Starves(w.driver)
    ensures Starves(Next(w, e).driver) <==> LeavesWaiting(w.driver, e)
  {
    if e.Store? && w.driver.pended != [] && Step(w.driver, e).status == Success {
      StarvesExactly(w.driver, e.timestamp, e.header, e.entries, e.mapped);
    } else if e.CleanupQueue? && w.driver.capture == Some(e.file) {
      OfFileAll(w.driver.pended, e.file);
    }
  }

  ghost predicate NeverStarves(w: World, es: seq<Event>)
    requires Legal(w, es)
    decreases |es|
  {
    !Starves(w.driver) && (es == [] || NeverStarves(Next(w, es[0]), es[1..]))
  }

  ghost predicate NeverLeavesWaiting(w: World, es: seq<Event>)
    requires Legal(w, es)
    decreases |es|
  {
    es == [] || (!LeavesWaiting(w.driver, es[0]) && NeverLeavesWaiting(Next(w, es[0]), es[1..]))
  }

  /** Without the premise of one reader: a run leaves no read waiting beside data exactly
      when none of its stores does so by that condition. */
  lemma {:induction false} RunStarvesExactly(w: World, es: seq<Event>)
    requires Legal(w, es) && SessionOk(w) && !Starves(w.driver)
    ensures NeverStarves(w, es) <==> NeverLeavesWaiting(w, es)
    decreases |es|
  {
    if es != [] {
      StarvesNext(w, es[0]);
      SessionStep(w, es[0]);
      if !LeavesWaiting(w.driver, es[0]) {
        RunStarvesExactly(Next(w, es[0]), es[1..]);
      }
    }
  }

  /** A packet is stored while reads wait on an empty ring: a read is left waiting beside
      data exactly when there is a second one and the first fails or is too short. */
  lemma StarvesExactly(d: Driver, timestamp: nat, header: seq<Byte>, entries: seq<Payload>, mapped: bool)
    requires IsPacketHeader(header) && d.ring.Buffer? && d.ring.data == [] && d.pended != []
    requires Step(d, Store(timestamp, header, entries, mapped)).status == Success
    ensures var after := Step(d, Store(timestamp, header, entries, mapped)).driver;
      after.pended != [] && after.ring.data != [] <==>
        |d.pended| > 1 && (!mapped || d.pended[0].length < |RecordBytes(d.snaplen, timestamp, header, entries)|)
  {
    StoredFraming(d.snaplen, timestamp, header, entries);
    Sequences.Empty(RecordBytes(d.snaplen, timestamp, header, entries));
  }

  lemma RunCons(w: World, e: Event, es: seq<Event>)
    requires Enabled(w, e) && Legal(Next(w, e), es)
    ensures Legal(w, [e] + es) && Run(w, [e] + es) == Run(Next(w, e), es)
  {
    assert ([e] + es)[1..] == es;
  }

  /** A capture handle is open, its ring holds data and its reads wait. */
  ghost predicate Waits(w: World, data: seq<Byte>, pended: seq<Irp>, issued: set<nat>) {
    && w.driver == Driver(Some(1), Buffer(8192, data), DEFAULT_SNAPLEN, NO_FILTER, pended)
    && w.files == map[1 := Open] && w.issued == issued
  }

  lemma SetUpWaits()
    ensures var w := Next(Boot(), Create(1, true));
      && Enabled(Boot(), Create(1, true)) && Enabled(w, SetupBuffer(1, 8192, true))
      && Waits(Next(w, SetupBuffer(1, 8192, true)), GlobalHeader(DEFAULT_SNAPLEN), [], {})
  {}

  lemma DrainWaits(w: World)
    requires Waits(w, GlobalHeader(DEFAULT_SNAPLEN), [], {})
    ensures var read := Read(Irp(1, 1, GLOBAL_HEADER), true);
      Enabled(w, read) && Waits(Next(w, read), [], [], {1})
  {}

  lemma PendWaits(w: World, pended: seq<Irp>, issued: set<nat>, irp: Irp)
    requires Waits(w, [], pended, issued) && irp.id !in issued && irp.file == 1 && irp.length > 0
    ensures Enabled(w, Read(irp, true)) && Waits(Next(w, Read(irp, true)), [], pended + [irp], issued + {irp.id})
  {}

  /** Such a state is reached from power-up with any packet that is accepted: two reads
      of one byte wait, the packet is stored, and the second read keeps waiting. */
  lemma TwoReadersStarve(e: Event) returns (es: seq<Event>)
    requires e.Store? && e.mapped && IsPacketHeader(e.header) && PassesCheck(DEFAULT_SNAPLEN, e.header, e.entries)
    requires InclLength(DEFAULT_SNAPLEN, e.header) <= 8000
    ensures Legal(Boot(), es)
    ensures var d := Run(Boot(), es).driver; d.pended == [Irp(3, 1, 1)] && d.ring.Buffer? && d.ring.data != []
  {
    var create, setup, drain := Create(1, true), SetupBuffer(1, 8192, true), Read(Irp(1, 1, GLOBAL_HEADER), true);
    var first, second := Read(Irp(2, 1, 1), true), Read(Irp(3, 1, 1), true);
    var w1 := Next(Boot(), create);
    SetUpWaits();
    var w2 := Next(w1, setup);
    DrainWaits(w2);
    var w3 := Next(w2, drain);
    PendWaits(w3, [], {1}, first.irp);
    var w4 := Next(w3, first);
    PendWaits(w4, [] + [first.irp], {1} + {2}, second.irp);
    var w5 := Next(w4, second);
    LeftWaiting(w5, e);
    RunCons(w5, e, []);
    RunCons(w4, second, [e] + []);
    RunCons(w3, first, [second] + ([e] + []));
    RunCons(w2, drain, [first] + ([second] + ([e] + [])));
    RunCons(w1, setup, [drain] + ([first] + ([second] + ([e] + []))));
    es := [create] + ([setup] + ([drain] + ([first] + ([second] + ([e] + [])))));
    RunCons(Boot(), create, [setup] + ([drain] + ([first] + ([second] + ([e] + [])))));
  }

  lemma LeftWaiting(w: World, e: Event)
    requires Waits(w, [], [Irp(2, 1, 1), Irp(3, 1, 1)], w.issued)
    requires e.Store? && e.mapped && IsPacketHeader(e.header) && PassesCheck(DEFAULT_SNAPLEN, e.header, e.entries)
    requires InclLength(DEFAULT_SNAPLEN, e.header) <= 8000
    ensures Enabled(w, e)
    ensures var d := Next(w, e).driver; d.pended == [Irp(3, 1, 1)] && d.ring.Buffer? && d.ring.data != []
  {
    var d := w.driver;
    StoredFraming(d.snaplen, e.timestamp, e.header, e.entries);
    assert d.pended[1..] == [Irp(3, 1, 1)];
    StarvesExactly(d, e.timestamp, e.header, e.entries, e.mapped);
  }

  // ---------- whole records ----------

  /** Producers hand over at least the payload their headers announce. */
  predicate Honest(es: seq<Event>) {
    forall k :: 0 <= k < |es| ==> HonestEvent(es[k])
  }

  predicate HonestEvent(e: Event) {
    e.Store? ==> IsPacketHeader(e.header) && |Gather(e.entries)| >= PacketDataLength(e.header)
  }

  predicate Whole(w: World) {
    w.driver.ring.Buffer? ==> AllFramed(w.records)
  }

  lemma WholeStep(w: World, e: Event)
    requires Enabled(w, e) && HonestEvent(e) && Whole(w)
    ensures Whole(Next(w, e))
  {
    if e.Store? {
      StoredFraming(w.driver.snaplen, e.timestamp, e.header, e.entries);
      DataLengthSuffices(w.driver.snaplen, e.header, e.entries);
    }
  }

  lemma {:induction false} RunKeepsWhole(w: World, es: seq<Event>)
    requires Legal(w, es) && Honest(es) && Whole(w)
    ensures Whole(Run(w, es))
    decreases |es|
  {
    if es != [] {
      assert HonestEvent(es[0]);
      WholeStep(w, es[0]);
      RunKeepsWhole(Next(w, es[0]), es[1..]);
    }
  }

  /** What the reader has got so far is the global header and exactly the fully
      delivered records, in store order, then part of the next one. */
  lemma DeliveredRecords(w: World) returns (k: nat)
    requires StreamOk(w) && Whole(w) && w.driver.ring.Buffer?
    requires |w.delivered| >= GLOBAL_HEADER
    ensures w.delivered[..GLOBAL_HEADER] == GlobalHeader(w.driver.snaplen)
    ensures k <= |w.records| && Cut(w.delivered[GLOBAL_HEADER..]).records == w.records[..k]
    ensures if k < |w.records| then Cut(w.delivered[GLOBAL_HEADER..]).rest < w.records[k]
            else Cut(w.delivered[GLOBAL_HEADER..]).rest == []
  {
    var h := GlobalHeader(w.driver.snaplen);
    SuffixOfConcat(h, Join(w.records), w.delivered);
    k := CutPrefix(w.records, w.delivered[GLOBAL_HEADER..]);
  }
}
