/** The statistics of a capture file (USBPcapAI/internal/pcap/analyze.go). */
module Analysis {
  import opened Wrappers
  import opened Bytes
  import opened Pcap
  import opened CaptureReader
  import opened Tally

  /** An endpoint of a device; the source prints the endpoint in two hex digits. */
  datatype Key = Key(endpoint: nat, device: nat)

  datatype Accum = Accum(key: Key, direction: string, transType: string,
                         packets: nat, totalBytes: nat, minDataLen: nat, maxDataLen: nat)

  datatype EndpointStat = EndpointStat(endpoint: nat, direction: string, transferType: string, packetCount: nat,
                                       totalBytes: nat, minDataLen: nat, maxDataLen: nat, avgDataLen: nat)

  datatype PayloadStats = PayloadStats(totalPayloadBytes: nat, dataLenBuckets: map<string, nat>,
                                       firstBytePattern: map<nat, nat>)

  datatype AnalyzeResult = AnalyzeResult(packetCount: nat, durationMs: nat, endpoints: seq<EndpointStat>,
                                         payloadStats: Option<PayloadStats>, dataLenStats: map<nat, nat>)

  function TransferTypeName(t: nat): string {
    if t == 0 then "isochronous" else if t == 1 then "interrupt" else if t == 2 then "control"
    else if t == 3 then "bulk" else if t == 0xFE then "irp_info" else "unknown"
  }

  function DataLenBucket(length: nat): string {
    if length <= 8 then "1-8" else if length <= 64 then "9-64" else if length <= 256 then "65-256"
    else if length <= 512 then "257-512" else if length <= 1024 then "513-1024"
    else if length <= 2048 then "1025-2048" else if length <= 4096 then "2049-4096" else "4097+"
  }

  function KeyOf(rec: Record): Key {
    Key(rec.endpoint, rec.device)
  }

  function TsMillis(rec: Record): nat {
    rec.tsSec * 1000 + rec.tsUsec / 1000
  }

  predicate Counts(rec: Record, deviceAddr: Option<nat>) {
    rec.headerLen != 0 && (deviceAddr.Some? ==> rec.device == deviceAddr.value)
  }

  // ---------- one endpoint ----------

  function NewAccum(rec: Record): Accum {
    Accum(KeyOf(rec), if rec.endpoint >= 0x80 then "IN" else "OUT", TransferTypeName(rec.transfer), 0, 0, 0, 0)
  }

  function Add(acc: Accum, rec: Record): Accum {
    acc.(packets := acc.packets + 1,
         totalBytes := acc.totalBytes + rec.actualLen,
         minDataLen := if acc.minDataLen == 0 || rec.actualLen < acc.minDataLen then rec.actualLen else acc.minDataLen,
         maxDataLen := if rec.actualLen > acc.maxDataLen then rec.actualLen else acc.maxDataLen)
  }

  function AccumOf(rs: seq<Record>): Accum {
    if rs == [] then Accum(Key(0, 0), "", "", 0, 0, 0, 0)
    else
      var n := |rs| - 1;
      Add(if n == 0 then NewAccum(rs[0]) else AccumOf(rs[..n]), rs[n])
  }

  /** Where the records after the last empty one begin. */
  function AfterLastEmpty(rs: seq<Record>): (n: nat)
    ensures n <= |rs|
  {
    if rs == [] then 0
    else if rs[|rs| - 1].actualLen == 0 then |rs|
    else AfterLastEmpty(rs[..|rs| - 1])
  }

  predicate IsLeast(m: nat, rs: seq<Record>) {
    (forall i :: 0 <= i < |rs| ==> m <= rs[i].actualLen) && (exists i :: 0 <= i < |rs| && rs[i].actualLen == m)
  }

  predicate IsGreatest(m: nat, rs: seq<Record>) {
    (forall i :: 0 <= i < |rs| ==> rs[i].actualLen <= m) && (exists i :: 0 <= i < |rs| && rs[i].actualLen == m)
  }

  /** The least length of the tail, or zero for an empty one. */
  predicate LeastOf(m: nat, tail: seq<Record>) {
    if tail == [] then m == 0 else m > 0 && IsLeast(m, tail)
  }

  lemma LeastStep(tail: seq<Record>, rec: Record, m: nat)
    requires LeastOf(m, tail) && rec.actualLen > 0
    ensures LeastOf(if m == 0 || rec.actualLen < m then rec.actualLen else m, tail + [rec])
  {
    var all := tail + [rec];
    assert all[|tail|] == rec;
    if m > 0 {
      var i :| 0 <= i < |tail| && tail[i].actualLen == m;
      assert all[i] == tail[i];
    }
  }

  lemma LengthwiseStep(rs: seq<Record>, rec: Record)
    ensures TotalWeight(Lengthwise(rs + [rec])) == TotalWeight(Lengthwise(rs)) + rec.actualLen
  {
    assert Lengthwise(rs + [rec]) == Lengthwise(rs) + [((), rec.actualLen)];
    TotalStep(Lengthwise(rs), ((), rec.actualLen));
  }

  lemma {:induction false} AccumSums(rs: seq<Record>)
    requires rs != []
    ensures var a := AccumOf(rs);
      && a.key == KeyOf(rs[0]) && a.transType == TransferTypeName(rs[0].transfer)
      && (a.direction == "IN" <==> rs[0].endpoint >= 0x80)
      && a.packets == |rs| && a.totalBytes == TotalWeight(Lengthwise(rs))
  {
    var n := |rs| - 1;
    assert rs == rs[..n] + [rs[n]];
    LengthwiseStep(rs[..n], rs[n]);
    if n > 0 {
      AccumSums(rs[..n]);
    }
  }

  lemma {:induction false} AccumGreatest(rs: seq<Record>)
    requires rs != []
    ensures IsGreatest(AccumOf(rs).maxDataLen, rs)
  {
    var n := |rs| - 1;
    if n > 0 {
      AccumGreatest(rs[..n]);
      var m :| 0 <= m < n && rs[..n][m].actualLen == AccumOf(rs[..n]).maxDataLen;
      assert rs[m] == rs[..n][m];
    }
  }

  lemma {:induction false} AccumLeast(rs: seq<Record>)
    requires rs != []
    ensures LeastOf(AccumOf(rs).minDataLen, rs[AfterLastEmpty(rs)..])
  {
    var n := |rs| - 1;
    var ys := rs[..n];
    var rec := rs[n];
    if n == 0 {
      assert rs[0..] == [rec];
    } else {
      AccumLeast(ys);
      if rec.actualLen > 0 {
        var z := AfterLastEmpty(ys);
        assert rs[z..] == ys[z..] + [rec];
        LeastStep(ys[z..], rec, AccumOf(ys).minDataLen);
      }
    }
  }

  /** What an endpoint's numbers mean. The minimum treats zero as unset, so it is the
      least length after the last empty packet, or zero when that one was last. */
  lemma AccumMeaning(rs: seq<Record>)
    requires rs != []
    ensures var a, tail := AccumOf(rs), rs[AfterLastEmpty(rs)..];
      && a.key == KeyOf(rs[0]) && a.transType == TransferTypeName(rs[0].transfer)
      && (a.direction == "IN" <==> rs[0].endpoint >= 0x80)
      && a.packets == |rs| && a.totalBytes == TotalWeight(Lengthwise(rs))
      && IsGreatest(a.maxDataLen, rs)
      && LeastOf(a.minDataLen, tail)
      && a.minDataLen <= a.maxDataLen
  {
    AccumSums(rs);
    AccumGreatest(rs);
    AccumLeast(rs);
    var z := AfterLastEmpty(rs);
    if z < |rs| {
      assert rs[z..][0] == rs[z];
    }
  }

  // ---------- all endpoints ----------

  function KeptRecords(rs: seq<Record>, deviceAddr: Option<nat>): seq<Record> {
    if rs == [] then []
    else
      var before := KeptRecords(rs[..|rs| - 1], deviceAddr);
      if Counts(rs[|rs| - 1], deviceAddr) then before + [rs[|rs| - 1]] else before
  }

  function Group(rs: seq<Record>, k: Key): seq<Record> {
    if rs == [] then []
    else
      var before := Group(rs[..|rs| - 1], k);
      if KeyOf(rs[|rs| - 1]) == k then before + [rs[|rs| - 1]] else before
  }

  // The additions made to the counters, packet by packet.
  function Packetwise(rs: seq<Record>): (xs: seq<(Key, nat)>) {
    seq(|rs|, i requires 0 <= i < |rs| => (KeyOf(rs[i]), 1))
  }

  function Bytewise(rs: seq<Record>): (xs: seq<(Key, nat)>) {
    seq(|rs|, i requires 0 <= i < |rs| => (KeyOf(rs[i]), rs[i].actualLen))
  }

  function Lengthwise(rs: seq<Record>): (xs: seq<((), nat)>) {
    seq(|rs|, i requires 0 <= i < |rs| => ((), rs[i].actualLen))
  }

  function Lengths(rs: seq<Record>): (xs: seq<(nat, nat)>) {
    seq(|rs|, i requires 0 <= i < |rs| => (rs[i].actualLen, 1))
  }

  function FirstBytes(rs: seq<Record>): seq<(nat, nat)> {
    if rs == [] then []
    else
      var before := FirstBytes(rs[..|rs| - 1]);
      if |rs[|rs| - 1].payload| > 0 then before + [(rs[|rs| - 1].payload[0], 1)] else before
  }

  ghost function EndpointsOf(rs: seq<Record>): map<Key, Accum> {
    map k | k in KeysOf(Packetwise(rs)) :: AccumOf(Group(rs, k))
  }

  lemma {:induction false} GroupEmpty(rs: seq<Record>, k: Key)
    ensures Group(rs, k) == [] <==> k !in KeysOf(Packetwise(rs))
  {
    if rs != [] {
      var ys, rec := rs[..|rs| - 1], rs[|rs| - 1];
      GroupEmpty(ys, k);
      assert Packetwise(rs) == Packetwise(ys) + [(KeyOf(rec), 1)];
      TallyStep(Packetwise(ys), (KeyOf(rec), 1));
    }
  }

  lemma GroupStep(rs: seq<Record>, rec: Record, k: Key)
    ensures Group(rs + [rec], k) == if KeyOf(rec) == k then Group(rs, k) + [rec] else Group(rs, k)
  {}

  lemma AccumStep(g: seq<Record>, rec: Record)
    ensures AccumOf(g + [rec]) == Add(if g == [] then NewAccum(rec) else AccumOf(g), rec)
  {}

  lemma PacketwiseStep(rs: seq<Record>, rec: Record)
    ensures KeysOf(Packetwise(rs + [rec])) == KeysOf(Packetwise(rs)) + {KeyOf(rec)}
  {
    assert Packetwise(rs + [rec]) == Packetwise(rs) + [(KeyOf(rec), 1)];
    TallyStep(Packetwise(rs), (KeyOf(rec), 1));
  }

  lemma EndpointsStep(rs: seq<Record>, rec: Record)
    ensures var m, k := EndpointsOf(rs), KeyOf(rec);
      EndpointsOf(rs + [rec]) == m[k := Add(if k in m then m[k] else NewAccum(rec), rec)]
  {
    var m, k := EndpointsOf(rs), KeyOf(rec);
    PacketwiseStep(rs, rec);
    GroupEmpty(rs, k);
    AccumStep(Group(rs, k), rec);
    var after := m[k := Add(if k in m then m[k] else NewAccum(rec), rec)];
    forall j | j in after ensures after[j] == AccumOf(Group(rs + [rec], j)) {
      GroupStep(rs, rec, j);
    }
  }

  // ---------- the loop over the file ----------

  /** The counters of Analyze. */
  datatype Totals = Totals(endpointMap: map<Key, Accum>, totalPayloadBytes: nat,
                           dataLenCounted: map<nat, nat>, firstBytePattern: map<nat, nat>)

  /** The part of the loop body behind the header and device tests. */
  function AddRecord(t: Totals, rec: Record): Totals {
    var k := KeyOf(rec);
    Totals(t.endpointMap[k := Add(if k in t.endpointMap then t.endpointMap[k] else NewAccum(rec), rec)],
           t.totalPayloadBytes + rec.actualLen,
           Bump(t.dataLenCounted, (rec.actualLen, 1)),
           if |rec.payload| > 0 then Bump(t.firstBytePattern, (rec.payload[0], 1)) else t.firstBytePattern)
  }

  /** The counters after the records kept so far. */
  ghost predicate Counted(kept: seq<Record>, t: Totals) {
    && t.endpointMap == EndpointsOf(kept)
    && t.totalPayloadBytes == TotalWeight(Lengthwise(kept))
    && t.dataLenCounted == TallyOf(Lengths(kept))
    && t.firstBytePattern == TallyOf(FirstBytes(kept))
  }

  lemma LengthsStep(kept: seq<Record>, rec: Record)
    ensures TotalWeight(Lengthwise(kept + [rec])) == TotalWeight(Lengthwise(kept)) + rec.actualLen
    ensures TallyOf(Lengths(kept + [rec])) == Bump(TallyOf(Lengths(kept)), (rec.actualLen, 1))
  {
    LengthwiseStep(kept, rec);
    assert Lengths(kept + [rec]) == Lengths(kept) + [(rec.actualLen, 1)];
    TallyStep(Lengths(kept), (rec.actualLen, 1));
  }

  lemma FirstBytesStep(kept: seq<Record>, rec: Record)
    ensures TallyOf(FirstBytes(kept + [rec])) ==
            if |rec.payload| > 0 then Bump(TallyOf(FirstBytes(kept)), (rec.payload[0], 1))
            else TallyOf(FirstBytes(kept))
  {}

  lemma CountedStep(kept: seq<Record>, rec: Record, t: Totals)
    requires Counted(kept, t)
    ensures Counted(kept + [rec], AddRecord(t, rec))
  {
    EndpointsStep(kept, rec);
    LengthsStep(kept, rec);
    FirstBytesStep(kept, rec);
  }

  function StatOf(acc: Accum): EndpointStat {
    EndpointStat(acc.key.endpoint, acc.direction, acc.transType, acc.packets, acc.totalBytes, acc.minDataLen,
                 acc.maxDataLen, if acc.packets > 0 then acc.totalBytes / acc.packets % TWO_TO_32 else 0)
  }

  ghost predicate ListedAs(order: seq<Key>, endpoints: seq<EndpointStat>, m: map<Key, Accum>) {
    && |order| == |endpoints|
    && Enumerates(order, m.Keys)
    && forall i :: 0 <= i < |order| ==> order[i] in m && endpoints[i] == StatOf(m[order[i]])
  }

  /** Each endpoint once, in some order. */
  ghost predicate Lists(endpoints: seq<EndpointStat>, m: map<Key, Accum>) {
    exists order :: ListedAs(order, endpoints, m)
  }

  ghost predicate PartlyListed(order: seq<Key>, endpoints: seq<EndpointStat>, m: map<Key, Accum>, rest: set<Key>) {
    && |order| == |endpoints| && rest <= m.Keys
    && (forall i, j :: 0 <= i < j < |order| ==> order[i] != order[j])
    && (forall k :: k in order <==> k in m && k !in rest)
    && forall i :: 0 <= i < |order| ==> order[i] in m && endpoints[i] == StatOf(m[order[i]])
  }

  predicate Ascending(endpoints: seq<EndpointStat>) {
    forall i, j :: 0 <= i < j < |endpoints| ==> endpoints[i].endpoint <= endpoints[j].endpoint
  }

  function Inserted<T>(s: seq<T>, p: nat, x: T): (r: seq<T>)
    requires p <= |s|
    ensures |r| == |s| + 1 && r[p] == x
    ensures forall i {:trigger r[i]} :: 0 <= i < |r| && i != p ==> r[i] == s[if i < p then i else i - 1]
  {
    s[..p] + [x] + s[p..]
  }

  /** What InsertListed needs of the order alone. */
  lemma InsertKey(order: seq<Key>, k: Key, p: nat)
    requires p <= |order| && k !in order && forall i, j :: 0 <= i < j < |order| ==> order[i] != order[j]
    ensures var after := Inserted(order, p, k);
      && (forall i, j :: 0 <= i < j < |after| ==> after[i] != after[j])
      && (forall x :: x in after <==> x == k || x in order)
  {
    var after := Inserted(order, p, k);
    forall x | x in order ensures x in after {
      var i :| 0 <= i < |order| && order[i] == x;
      assert after[if i < p then i else i + 1] == x;
    }
  }

  /** One endpoint more in its place. */
  lemma InsertListed(order: seq<Key>, endpoints: seq<EndpointStat>, m: map<Key, Accum>, rest: set<Key>, k: Key, p: nat)
    requires PartlyListed(order, endpoints, m, rest) && k in rest && p <= |order|
    ensures PartlyListed(Inserted(order, p, k), Inserted(endpoints, p, StatOf(m[k])), m, rest - {k})
  {
    InsertKey(order, k, p);
  }

  lemma InsertAscending(endpoints: seq<EndpointStat>, p: nat, x: EndpointStat)
    requires Ascending(endpoints) && p <= |endpoints|
    requires forall i :: 0 <= i < p ==> endpoints[i].endpoint <= x.endpoint
    requires forall i :: p <= i < |endpoints| ==> endpoints[i].endpoint > x.endpoint
    ensures Ascending(Inserted(endpoints, p, x))
  {}

  /** Where x belongs, from the back. */
  method PlaceOf(endpoints: seq<EndpointStat>, x: EndpointStat) returns (p: nat)
    requires Ascending(endpoints)
    ensures p <= |endpoints| && Ascending(Inserted(endpoints, p, x))
  {
    p := |endpoints|;
    while p > 0 && endpoints[p - 1].endpoint > x.endpoint
      invariant p <= |endpoints| && forall j :: p <= j < |endpoints| ==> endpoints[j].endpoint > x.endpoint
    {
      p := p - 1;
    }
    InsertAscending(endpoints, p, x);
  }

  /** Stands for sort.Slice: any order that ascends will do. The source compares the
      directions next, but an endpoint's number decides its direction. */
  method SortByEndpoint(endpoints: seq<EndpointStat>, ghost order: seq<Key>, ghost m: map<Key, Accum>)
    returns (out: seq<EndpointStat>)
    requires ListedAs(order, endpoints, m)
    ensures Lists(out, m) && Ascending(out)
  {
    out := [];
    ghost var outOrder: seq<Key>, rest := [], m.Keys;
    for i := 0 to |endpoints|
      invariant Ascending(out) && PartlyListed(outOrder, out, m, rest)
      invariant forall j :: 0 <= j < |order| ==> (order[j] in rest <==> i <= j)
    {
      var p := PlaceOf(out, endpoints[i]);
      InsertListed(outOrder, out, m, rest, order[i], p);
      out := Inserted(out, p, endpoints[i]);
      outOrder := Inserted(outOrder, p, order[i]);
      rest := rest - {order[i]};
    }
    assert rest == {};
    assert ListedAs(outOrder, out, m);
  }

  method ListEndpoints(m: map<Key, Accum>) returns (endpoints: seq<EndpointStat>)
    ensures Lists(endpoints, m) && Ascending(endpoints)
  {
    endpoints := [];
    ghost var order: seq<Key> := [];
    var rest := m.Keys;
    while rest != {}
      invariant PartlyListed(order, endpoints, m, rest)
      decreases |rest|
    {
      var k :| k in rest;
      assert k !in order;
      endpoints := endpoints + [StatOf(m[k])];
      order := order + [k];
      rest := rest - {k};
    }
    endpoints := SortByEndpoint(endpoints, order, m);
  }

  function Duration(rs: seq<Record>): nat {
    if rs != [] && TsMillis(rs[|rs| - 1]) >= TsMillis(rs[0]) then TsMillis(rs[|rs| - 1]) - TsMillis(rs[0]) else 0
  }

  /** What the result says about the records of the file. */
  ghost predicate IsAnalysis(a: AnalyzeResult, rs: seq<Record>, deviceAddr: Option<nat>) {
    var kept := KeptRecords(rs, deviceAddr);
    if kept == [] then a == AnalyzeResult(|rs|, 0, [], None, map[])
    else
      && a.packetCount == |rs| && a.durationMs == Duration(rs)
      && Lists(a.endpoints, EndpointsOf(kept)) && Ascending(a.endpoints)
      && a.dataLenStats == TallyOf(Lengths(kept))
      && a.payloadStats == Some(PayloadStats(TotalWeight(Lengthwise(kept)),
                                             TallyOf(Coarser(Lengths(kept), DataLenBucket)),
                                             TallyOf(FirstBytes(kept))))
  }

  ghost predicate Seen(s: seq<Byte>, seen: seq<Record>, unread: seq<Byte>) {
    ReadAll(s) == Reading(seen + ReadAll(unread).records, ReadAll(unread).failure)
  }

  lemma SeenStep(s: seq<Byte>, seen: seq<Record>, unread: seq<Byte>)
    requires Seen(s, seen, unread)
    ensures NextOf(unread).record.Ok? ==> Seen(s, seen + [NextOf(unread).record.value], NextOf(unread).rest)
    ensures NextOf(unread).record.Err? ==>
              var e := NextOf(unread).record.error; ReadAll(s) == Reading(seen, if IsEof(e) then None else Some(e))
  {}

  lemma NothingCounted()
    ensures Counted([], Totals(map[], 0, map[], map[]))
  {}

  lemma NothingKept(kept: seq<Record>)
    ensures EndpointsOf(kept) == map[] <==> kept == []
  {
    if kept != [] {
      assert Packetwise(kept)[0].0 in KeysOf(Packetwise(kept));
      assert KeyOf(kept[0]) in EndpointsOf(kept);
    } else {
      assert KeysOf(Packetwise(kept)) == {};
    }
  }

  /** The first and last record's times, and how many there were. */
  ghost predicate Timed(seen: seq<Record>, totalPackets: nat, firstSet: bool, firstTS: nat, lastTS: nat) {
    && totalPackets == |seen| && firstSet == (seen != [])
    && (seen != [] ==> firstTS == TsMillis(seen[0]) && lastTS == TsMillis(seen[|seen| - 1]))
  }

  lemma KeptStep(seen: seq<Record>, rec: Record, deviceAddr: Option<nat>)
    ensures KeptRecords(seen + [rec], deviceAddr) ==
            if Counts(rec, deviceAddr) then KeptRecords(seen, deviceAddr) + [rec] else KeptRecords(seen, deviceAddr)
  {}

  /** The loop over the records. */
  method Accumulate(reader: Reader, deviceAddr: Option<nat>)
    returns (failure: Option<ReadError>, t: Totals, totalPackets: nat, durationMs: nat, ghost kept: seq<Record>)
    requires reader.Valid()
    modifies reader
    ensures failure == ReadAll(old(reader.Unread())).failure
    ensures failure.None? ==>
      var rs := ReadAll(old(reader.Unread())).records;
      totalPackets == |rs| && durationMs == Duration(rs) && kept == KeptRecords(rs, deviceAddr) && Counted(kept, t)
  {
    ghost var s := reader.Unread();
    ghost var seen: seq<Record> := [];
    var firstTS, lastTS, firstSet := 0, 0, false;
    kept, t, totalPackets, durationMs := [], Totals(map[], 0, map[], map[]), 0, 0;
    NothingCounted();
    assert seen + ReadAll(s).records == ReadAll(s).records;
    while true
      invariant reader.Valid() && Seen(s, seen, reader.Unread())
      invariant Timed(seen, totalPackets, firstSet, firstTS, lastTS)
      invariant kept == KeptRecords(seen, deviceAddr) && Counted(kept, t)
      decreases |reader.Unread()|
    {
      SeenStep(s, seen, reader.Unread());
      var next := reader.Next();
      if next.Err? {
        if IsEof(next.error) {
          break;
        }
        return Some(next.error), t, totalPackets, durationMs, kept;
      }
      var rec := next.value;
      totalPackets, lastTS := totalPackets + 1, TsMillis(rec);
      if !firstSet {
        firstTS, firstSet := TsMillis(rec), true;
      }
      KeptStep(seen, rec, deviceAddr);
      seen := seen + [rec];
      if Counts(rec, deviceAddr) {
        CountedStep(kept, rec, t);
        kept, t := kept + [rec], AddRecord(t, rec);
      }
    }
    failure := None;
    durationMs := if firstSet && lastTS >= firstTS then lastTS - firstTS else 0;
  }

  method Analyze(file: seq<Byte>, deviceAddr: Option<nat>) returns (r: Result<AnalyzeResult, ReadError>)
    ensures HeaderError(file).Some? ==> r == Err(HeaderError(file).value)
    ensures HeaderError(file).None? ==>
      var reading := ReadAll(file[GLOBAL_HEADER..]);
      if reading.failure.Some? then r == Err(reading.failure.value)
      else r.Ok? && IsAnalysis(r.value, reading.records, deviceAddr)
  {
    var source := OpenReader(file);
    if source.Err? {
      return Err(source.error);
    }
    ghost var kept: seq<Record>;
    var failure, t, totalPackets, durationMs;
    failure, t, totalPackets, durationMs, kept := Accumulate(source.value, deviceAddr);
    if failure.Some? {
      return Err(failure.value);
    }
    NothingKept(kept);
    if t.endpointMap == map[] {
      return Ok(AnalyzeResult(totalPackets, 0, [], None, map[]));
    }
    var endpoints := ListEndpoints(t.endpointMap);
    var dataLenBuckets := Tally.Regroup(t.dataLenCounted, DataLenBucket);
    RegroupedIsTally(Lengths(kept), DataLenBucket, dataLenBuckets);
    return Ok(AnalyzeResult(totalPackets, durationMs, endpoints,
                            Some(PayloadStats(t.totalPayloadBytes, dataLenBuckets, t.firstBytePattern)),
                            t.dataLenCounted));
  }

  // ---------- conservation ----------

  function PacketCounts(endpoints: seq<EndpointStat>): nat {
    if endpoints == [] then 0 else endpoints[0].packetCount + PacketCounts(endpoints[1..])
  }

  function ByteCounts(endpoints: seq<EndpointStat>): nat {
    if endpoints == [] then 0 else endpoints[0].totalBytes + ByteCounts(endpoints[1..])
  }

  lemma {:induction false} OnesTotal<K>(xs: seq<(K, nat)>)
    requires forall i :: 0 <= i < |xs| ==> xs[i].1 == 1
    ensures TotalWeight(xs) == |xs|
  {
    if xs != [] {
      OnesTotal(xs[..|xs| - 1]);
    }
  }

  lemma {:induction false} SameTotal<K, L>(xs: seq<(K, nat)>, ys: seq<(L, nat)>)
    requires |xs| == |ys| && forall i :: 0 <= i < |xs| ==> xs[i].1 == ys[i].1
    ensures TotalWeight(xs) == TotalWeight(ys)
  {
    if xs != [] {
      SameTotal(xs[..|xs| - 1], ys[..|ys| - 1]);
    }
  }

  lemma {:induction false} GroupWeights(rs: seq<Record>, k: Key)
    ensures Weight(Packetwise(rs), k) == |Group(rs, k)|
    ensures Weight(Bytewise(rs), k) == TotalWeight(Lengthwise(Group(rs, k)))
  {
    if rs != [] {
      var ys, rec := rs[..|rs| - 1], rs[|rs| - 1];
      GroupWeights(ys, k);
      assert Packetwise(rs)[..|ys|] == Packetwise(ys);
      assert Bytewise(rs)[..|ys|] == Bytewise(ys);
      if KeyOf(rec) == k {
        LengthwiseStep(Group(ys, k), rec);
      }
    }
  }

  ghost function PacketsIn(m: map<Key, Accum>): map<Key, nat> { map k | k in m :: m[k].packets }
  ghost function BytesIn(m: map<Key, Accum>): map<Key, nat> { map k | k in m :: m[k].totalBytes }

  lemma EndpointTotals(kept: seq<Record>, k: Key)
    requires k in EndpointsOf(kept)
    ensures EndpointsOf(kept)[k].packets == Weight(Packetwise(kept), k)
    ensures EndpointsOf(kept)[k].totalBytes == Weight(Bytewise(kept), k)
  {
    GroupEmpty(kept, k);
    GroupWeights(kept, k);
    AccumMeaning(Group(kept, k));
  }

  lemma EndpointPackets(kept: seq<Record>)
    ensures PacketsIn(EndpointsOf(kept)) == TallyOf(Packetwise(kept))
  {
    TallyMeaning(Packetwise(kept));
    forall k | k in EndpointsOf(kept) ensures EndpointsOf(kept)[k].packets == Weight(Packetwise(kept), k) {
      EndpointTotals(kept, k);
    }
  }

  lemma EndpointBytes(kept: seq<Record>)
    ensures BytesIn(EndpointsOf(kept)) == TallyOf(Bytewise(kept))
  {
    TallyMeaning(Bytewise(kept));
    SameKeys(Packetwise(kept), Bytewise(kept));
    forall k | k in EndpointsOf(kept) ensures EndpointsOf(kept)[k].totalBytes == Weight(Bytewise(kept), k) {
      EndpointTotals(kept, k);
    }
  }

  lemma SameKeys<K>(xs: seq<(K, nat)>, ys: seq<(K, nat)>)
    requires |xs| == |ys| && forall i :: 0 <= i < |xs| ==> xs[i].0 == ys[i].0
    ensures KeysOf(xs) == KeysOf(ys)
  {}

  lemma {:induction false} ListedSums(order: seq<Key>, endpoints: seq<EndpointStat>, m: map<Key, Accum>)
    requires |order| == |endpoints|
    requires forall i :: 0 <= i < |order| ==> order[i] in m && endpoints[i] == StatOf(m[order[i]])
    ensures PacketCounts(endpoints) == SumOver(order, PacketsIn(m))
    ensures ByteCounts(endpoints) == SumOver(order, BytesIn(m))
  {
    if order != [] {
      ListedSums(order[1..], endpoints[1..], m);
    }
  }

  lemma {:induction false} TotalBound(rs: seq<Record>, m: nat)
    requires forall i :: 0 <= i < |rs| ==> rs[i].actualLen <= m
    ensures TotalWeight(Lengthwise(rs)) <= |rs| * m
  {
    if rs != [] {
      var n := |rs| - 1;
      assert Lengthwise(rs)[..n] == Lengthwise(rs[..n]);
      TotalBound(rs[..n], m);
      assert |rs| * m == n * m + m;
    }
  }

  lemma Scaled(b: nat, x: nat, y: nat)
    requires x <= y
    ensures b * x <= b * y
  {}

  lemma QuotientBound(a: nat, b: nat, m: nat)
    requires b > 0 && a <= b * m
    ensures a / b % TWO_TO_32 <= m
  {
    var q := a / b;
    assert b * q <= a;
    if q > m {
      Scaled(b, m + 1, q);
      assert false;
    }
  }

  /** The average never exceeds the maximum, nor does the minimum. */
  lemma StatBounds(kept: seq<Record>, k: Key)
    requires k in EndpointsOf(kept)
    ensures var s := StatOf(EndpointsOf(kept)[k]); s.avgDataLen <= s.maxDataLen && s.minDataLen <= s.maxDataLen
  {
    var g := Group(kept, k);
    GroupEmpty(kept, k);
    AccumMeaning(g);
    var a := AccumOf(g);
    TotalBound(g, a.maxDataLen);
    QuotientBound(a.totalBytes, a.packets, a.maxDataLen);
  }

  lemma PacketSum(kept: seq<Record>)
    ensures Sum(PacketsIn(EndpointsOf(kept))) == |kept|
  {
    EndpointPackets(kept);
    TallySum(Packetwise(kept));
    OnesTotal(Packetwise(kept));
  }

  lemma ByteSum(kept: seq<Record>)
    ensures Sum(BytesIn(EndpointsOf(kept))) == TotalWeight(Lengthwise(kept))
  {
    EndpointBytes(kept);
    TallySum(Bytewise(kept));
    SameTotal(Bytewise(kept), Lengthwise(kept));
  }

  lemma ListedPacketSum(order: seq<Key>, endpoints: seq<EndpointStat>, m: map<Key, Accum>)
    requires ListedAs(order, endpoints, m)
    ensures PacketCounts(endpoints) == Sum(PacketsIn(m))
  {
    ListedSums(order, endpoints, m);
    assert PacketsIn(m).Keys == m.Keys;
    SumOverAll(order, PacketsIn(m));
  }

  lemma ListedByteSum(order: seq<Key>, endpoints: seq<EndpointStat>, m: map<Key, Accum>)
    requires ListedAs(order, endpoints, m)
    ensures ByteCounts(endpoints) == Sum(BytesIn(m))
  {
    ListedSums(order, endpoints, m);
    assert BytesIn(m).Keys == m.Keys;
    SumOverAll(order, BytesIn(m));
  }

  lemma EndpointSums(kept: seq<Record>, endpoints: seq<EndpointStat>)
    requires Lists(endpoints, EndpointsOf(kept))
    ensures PacketCounts(endpoints) == |kept|
    ensures ByteCounts(endpoints) == TotalWeight(Lengthwise(kept))
  {
    var order :| ListedAs(order, endpoints, EndpointsOf(kept));
    ListedPacketSum(order, endpoints, EndpointsOf(kept));
    ListedByteSum(order, endpoints, EndpointsOf(kept));
    PacketSum(kept);
    ByteSum(kept);
  }

  lemma HistogramSums(kept: seq<Record>)
    ensures Sum(TallyOf(Lengths(kept))) == |kept|
    ensures Sum(TallyOf(Coarser(Lengths(kept), DataLenBucket))) == |kept|
  {
    TallySum(Lengths(kept));
    OnesTotal(Lengths(kept));
    TallySum(Coarser(Lengths(kept), DataLenBucket));
    OnesTotal(Coarser(Lengths(kept), DataLenBucket));
  }

  lemma EndpointBounds(kept: seq<Record>, endpoints: seq<EndpointStat>, i: nat)
    requires Lists(endpoints, EndpointsOf(kept)) && i < |endpoints|
    ensures endpoints[i].avgDataLen <= endpoints[i].maxDataLen && endpoints[i].minDataLen <= endpoints[i].maxDataLen
  {
    var order :| ListedAs(order, endpoints, EndpointsOf(kept));
    StatBounds(kept, order[i]);
  }

  /** Conservation: endpoint packet counts, length histogram and buckets each sum to
      the number of records kept, endpoint bytes sum to the payload total, and every
      average is at most its maximum. */
  lemma AnalysisConserves(a: AnalyzeResult, rs: seq<Record>, deviceAddr: Option<nat>)
    requires IsAnalysis(a, rs, deviceAddr)
    ensures var kept := KeptRecords(rs, deviceAddr);
      && |kept| <= |rs| == a.packetCount
      && PacketCounts(a.endpoints) == |kept|
      && Sum(a.dataLenStats) == |kept|
      && (a.payloadStats.Some? <==> kept != [])
      && (a.payloadStats.Some? ==> Sum(a.payloadStats.value.dataLenBuckets) == |kept|)
      && (a.payloadStats.Some? ==> ByteCounts(a.endpoints) == a.payloadStats.value.totalPayloadBytes)
      && forall i :: 0 <= i < |a.endpoints| ==>
           && a.endpoints[i].avgDataLen <= a.endpoints[i].maxDataLen
           && a.endpoints[i].minDataLen <= a.endpoints[i].maxDataLen
  {
    var kept := KeptRecords(rs, deviceAddr);
    KeptAtMost(rs, deviceAddr);
    if kept != [] {
      EndpointSums(kept, a.endpoints);
      HistogramSums(kept);
      forall i | 0 <= i < |a.endpoints|
        ensures a.endpoints[i].avgDataLen <= a.endpoints[i].maxDataLen &&
                a.endpoints[i].minDataLen <= a.endpoints[i].maxDataLen
      {
        EndpointBounds(kept, a.endpoints, i);
      }
    }
  }

  lemma {:induction false} KeptAtMost(rs: seq<Record>, deviceAddr: Option<nat>)
    ensures |KeptRecords(rs, deviceAddr)| <= |rs|
  {
    if rs != [] {
      KeptAtMost(rs[..|rs| - 1], deviceAddr);
    }
  }
}
