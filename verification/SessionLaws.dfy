/** What each request to the control device does, said of the bytes and requests it
    moves, and for how long a filter is in force. */
module SessionLaws {
  import opened Wrappers
  import opened Bytes
  import opened Pcap
  import opened PacketStore
  import opened CaptureSession
  import Sequences

  /** Requests of a handle that does not own the capture are refused. */
  lemma OnlyTheOwner(w: World, e: Event)
    requires Enabled(w, e) && FileOf(e).Some? && FileOf(e) != w.driver.capture
    requires e.SetupBuffer? || e.SetSnaplen? || e.StartFiltering? || e.StopFiltering? || e.Read?
    ensures var r := Step(w.driver, e);
      && r.status == AccessDenied && r.driver == w.driver
      && r.completions == if e.Read? then [Completion(e.irp.id, AccessDenied, [])] else []
  {}

  /** The snapshot length is set by its owner while there is no ring, and by nothing else. */
  lemma SnaplenRule(w: World, e: Event)
    requires Enabled(w, e)
    ensures Step(w.driver, e).driver.snaplen ==
            if e.SetSnaplen? && Some(e.file) == w.driver.capture && e.bytes > 0 && w.driver.ring.NoBuffer?
            then e.bytes else w.driver.snaplen
    ensures e.SetSnaplen? && Some(e.file) == w.driver.capture ==>
      Step(w.driver, e).status == if e.bytes == 0 then InvalidParameter
                                  else if w.driver.ring.Buffer? then Unsuccessful else Success
  {}

  // ---------- reads ----------

  /** data is taken off the front of before, and after is what stays; as much as fits
      into a request of length bytes. */
  ghost predicate Takes(before: seq<Byte>, length: nat, data: seq<Byte>, after: seq<Byte>) {
    data + after == before && |data| <= length && (|data| == length || after == [])
  }

  lemma FrontTaken(before: seq<Byte>, length: nat)
    ensures var n := Min(|before|, length); Takes(before, length, before[..n], before[n..])
  {}

  /** What becomes of a read of the owner. */
  lemma ReadExactly(w: World, irp: Irp, mapped: bool)
    requires Enabled(w, Read(irp, mapped)) && w.driver.capture == Some(irp.file)
    ensures var d, r := w.driver, Step(w.driver, Read(irp, mapped));
      && r.driver == d.(ring := r.driver.ring, pended := r.driver.pended)
      && (if irp.length == 0 then
            r.status == Success && r.completions == [Completion(irp.id, Success, [])] && r.driver == d
          else if d.ring.NoBuffer? || !mapped then
            && r.driver == d && r.completions == [Completion(irp.id, r.status, [])]
            && r.status == if d.ring.NoBuffer? then Unsuccessful else InsufficientResources
          else if d.ring.data == [] then
            r.status == Pending && r.completions == [] && r.driver == d.(pended := d.pended + [irp])
          else
            && r.status == Success && r.driver.pended == d.pended && |r.completions| == 1
            && r.completions[0].id == irp.id && r.completions[0].status == Success && r.completions[0].data != []
            && r.driver.ring == Buffer(d.ring.size, r.driver.ring.data)
            && Takes(d.ring.data, irp.length, r.completions[0].data, r.driver.ring.data))
  {
    if w.driver.ring.Buffer? {
      FrontTaken(w.driver.ring.data, irp.length);
    }
  }

  /** What a packet that is stored does for the reads that wait: the oldest one is given
      what fits of the unread bytes, or fails if its memory cannot be mapped. */
  lemma StoreWakesOldest(w: World, e: Event)
    requires Enabled(w, e) && e.Store? && Step(w.driver, e).status == Success
    ensures w.driver.ring.Buffer?
    ensures var d, r := w.driver, Step(w.driver, e);
            var data := d.ring.data + RecordBytes(d.snaplen, e.timestamp, e.header, e.entries);
      && r.driver == d.(ring := Buffer(d.ring.size, r.driver.ring.data), pended := r.driver.pended)
      && (if d.pended == [] then r.completions == [] && r.driver.pended == [] && r.driver.ring.data == data
          else
            && r.driver.pended == d.pended[1..] && |r.completions| == 1 && r.completions[0].id == d.pended[0].id
            && (if e.mapped
                then r.completions[0].status == Success
                     && Takes(data, d.pended[0].length, r.completions[0].data, r.driver.ring.data)
                else r.completions[0] == Completion(d.pended[0].id, InsufficientResources, [])
                     && r.driver.ring.data == data))
  {
    var d := w.driver;
    StoreExactly(d.ring, d.snaplen, e.timestamp, e.header, e.entries);
    if d.pended != [] {
      FrontTaken(d.ring.data + RecordBytes(d.snaplen, e.timestamp, e.header, e.entries), d.pended[0].length);
    }
  }

  /** A packet that is not stored changes nothing. */
  lemma RefusedStore(w: World, e: Event)
    requires Enabled(w, e) && e.Store? && Step(w.driver, e).status != Success
    ensures Step(w.driver, e).driver == w.driver && Step(w.driver, e).completions == []
  {}

  /** A cancelled read that waits leaves the queue, alone and without data; another is
      left alone. */
  lemma CancelExactly(w: World, id: nat)
    requires Accounted(w.driver.pended, w.completed, w.issued)
    ensures var d, r := w.driver, Step(w.driver, CancelRead(id));
      && (forall k :: 0 <= k < |d.pended| && d.pended[k].id == id ==>
            && r.completions == [Completion(id, Cancelled, [])]
            && r.driver == d.(pended := d.pended[..k] + d.pended[k + 1..]))
      && ((forall k :: 0 <= k < |d.pended| ==> d.pended[k].id != id) ==> r == Reply(d, Success, []))
  {}

  /** Cleaning up the owner's handle cancels all reads, oldest first, and then clears the
      filter and removes the ring. Another handle's cleanup does nothing. */
  lemma CleanupExactly(w: World, file: File)
    requires SessionOk(w)
    ensures var d, q, b := w.driver, Step(w.driver, CleanupQueue(file)), Step(w.driver, CleanupBuffer(file));
      if d.capture == Some(file) then
        && q.driver == d.(pended := []) && |q.completions| == |d.pended|
        && (forall k :: 0 <= k < |d.pended| ==> q.completions[k] == Completion(d.pended[k].id, Cancelled, []))
        && b.driver == d.(filter := NO_FILTER, ring := NoBuffer)
      else q.driver == d && q.completions == [] && b.driver == d
  {
    if w.driver.capture == Some(file) {
      OfFileAll(w.driver.pended, file);
    }
  }

  // ---------- the filter ----------

  /** A request of the owner that sets or clears the filter. */
  predicate SetsFilter(d: Driver, e: Event) {
    (e.StartFiltering? || e.StopFiltering? || e.CleanupBuffer?) && FileOf(e) == d.capture
  }

  ghost predicate FilterLeftAlone(w: World, es: seq<Event>)
    requires Legal(w, es)
    decreases |es|
  {
    es == [] || (!SetsFilter(w.driver, es[0]) && FilterLeftAlone(Next(w, es[0]), es[1..]))
  }

  lemma FilterStep(w: World, e: Event)
    requires Enabled(w, e) && !SetsFilter(w.driver, e)
    ensures Next(w, e).driver.filter == w.driver.filter
  {}

  lemma {:induction false} FilterStays(w: World, es: seq<Event>)
    requires Legal(w, es) && FilterLeftAlone(w, es)
    ensures Run(w, es).driver.filter == w.driver.filter
    decreases |es|
  {
    if es != [] {
      FilterStep(w, es[0]);
      FilterStays(Next(w, es[0]), es[1..]);
    }
  }

  /** A filter the owner has set is in force until the owner sets or clears it again,
      whatever else happens. */
  lemma FilterInForce(w: World, e: Event, es: seq<Event>)
    requires Enabled(w, e) && SetsFilter(w.driver, e)
    requires Legal(Next(w, e), es) && FilterLeftAlone(Next(w, e), es)
    ensures Run(Next(w, e), es).driver.filter == if e.StartFiltering? then e.filter else seq(17, _ => 0)
  {
    FilterStays(Next(w, e), es);
  }
}
