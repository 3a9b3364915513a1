/** What the numbers of an analysis count, said of the records of the file. */
module AnalysisLaws {
  import opened Wrappers
  import opened Bytes
  import opened CaptureReader
  import opened Tally
  import opened Analysis

  // ---------- counters are numbers of records ----------

  ghost function Places<K>(xs: seq<(K, nat)>, k: K): set<nat> {
    set i: nat | i < |xs| && xs[i].0 == k
  }

  lemma {:induction false} WeightCounts<K>(xs: seq<(K, nat)>, k: K)
    requires forall i :: 0 <= i < |xs| ==> xs[i].1 == 1
    ensures Weight(xs, k) == |Places(xs, k)|
  {
    if xs != [] {
      var n := |xs| - 1;
      WeightCounts(xs[..n], k);
      assert Places(xs, k) == Places(xs[..n], k) + if xs[n].0 == k then {n} else {};
    }
  }

  lemma TallyCounts<K>(xs: seq<(K, nat)>, k: K)
    requires forall i :: 0 <= i < |xs| ==> xs[i].1 == 1
    ensures k in TallyOf(xs) <==> Places(xs, k) != {}
    ensures k in TallyOf(xs) ==> TallyOf(xs)[k] == |Places(xs, k)|
  {
    TallyMeaning(xs);
    WeightCounts(xs, k);
    assert k in KeysOf(xs) <==> Places(xs, k) != {} by {
      if k in KeysOf(xs) {
        var i :| 0 <= i < |xs| && xs[i].0 == k;
        assert i in Places(xs, k);
      }
      if Places(xs, k) != {} {
        var i :| i in Places(xs, k);
        assert xs[i].0 in KeysOf(xs);
      }
    }
  }

  /** The length statistics count the packets of each payload length. */
  lemma LengthsCounted(kept: seq<Record>, n: nat)
    ensures var m, at := TallyOf(Lengths(kept)), set i: nat | i < |kept| && kept[i].actualLen == n;
      (n in m <==> at != {}) && (n in m ==> m[n] == |at|)
  {
    TallyCounts(Lengths(kept), n);
    assert Places(Lengths(kept), n) == set i: nat | i < |kept| && kept[i].actualLen == n;
  }

  /** And the buckets those whose length is in the bucket. */
  lemma BucketsCounted(kept: seq<Record>, b: string)
    ensures var m := TallyOf(Coarser(Lengths(kept), DataLenBucket));
            var at := set i: nat | i < |kept| && DataLenBucket(kept[i].actualLen) == b;
      (b in m <==> at != {}) && (b in m ==> m[b] == |at|)
  {
    var xs := Coarser(Lengths(kept), DataLenBucket);
    TallyCounts(xs, b);
    assert Places(xs, b) == set i: nat | i < |kept| && DataLenBucket(kept[i].actualLen) == b;
  }

  /** The bounds in a bucket's name are its bounds, but the first takes empty packets too. */
  lemma BucketBounds(n: nat)
    ensures DataLenBucket(n) == "1-8" <==> n <= 8
    ensures DataLenBucket(n) == "9-64" <==> 9 <= n <= 64
    ensures DataLenBucket(n) == "65-256" <==> 65 <= n <= 256
    ensures DataLenBucket(n) == "257-512" <==> 257 <= n <= 512
    ensures DataLenBucket(n) == "513-1024" <==> 513 <= n <= 1024
    ensures DataLenBucket(n) == "1025-2048" <==> 1025 <= n <= 2048
    ensures DataLenBucket(n) == "2049-4096" <==> 2049 <= n <= 4096
    ensures DataLenBucket(n) == "4097+" <==> 4097 <= n
  {}

  ghost function StartingWith(rs: seq<Record>, b: nat): set<nat> {
    set i: nat | i < |rs| && rs[i].payload != [] && rs[i].payload[0] == b
  }

  lemma {:induction false} FirstBytesWeight(rs: seq<Record>, b: nat)
    ensures forall i :: 0 <= i < |FirstBytes(rs)| ==> FirstBytes(rs)[i].1 == 1
    ensures Weight(FirstBytes(rs), b) == |StartingWith(rs, b)|
  {
    if rs != [] {
      var n := |rs| - 1;
      FirstBytesWeight(rs[..n], b);
      assert StartingWith(rs, b) ==
             StartingWith(rs[..n], b) + if rs[n].payload != [] && rs[n].payload[0] == b then {n} else {};
    }
  }

  /** The first byte pattern counts the packets whose payload begins with each byte. */
  lemma FirstBytesCounted(kept: seq<Record>, b: nat)
    ensures var m := TallyOf(FirstBytes(kept));
      (b in m <==> StartingWith(kept, b) != {}) && (b in m ==> m[b] == |StartingWith(kept, b)|)
  {
    FirstBytesWeight(kept, b);
    TallyMeaning(FirstBytes(kept));
    TallyCounts(FirstBytes(kept), b);
  }

  // ---------- which records ----------

  /** sub is the records of rs at the places at, in order. */
  ghost predicate Selects(rs: seq<Record>, at: seq<nat>, sub: seq<Record>) {
    && |at| == |sub|
    && (forall j :: 0 <= j < |at| ==> at[j] < |rs| && sub[j] == rs[at[j]])
    && (forall i, j :: 0 <= i < j < |at| ==> at[i] < at[j])
  }

  lemma SelectsMore(rs: seq<Record>, at: seq<nat>, sub: seq<Record>)
    requires rs != [] && Selects(rs[..|rs| - 1], at, sub)
    ensures Selects(rs, at, sub) && Selects(rs, at + [|rs| - 1], sub + [rs[|rs| - 1]])
  {}

  /** The records an analysis counts are those with a packet header, and of the device
      asked for, if one is. */
  lemma {:induction false} KeptMeaning(rs: seq<Record>, deviceAddr: Option<nat>) returns (at: seq<nat>)
    ensures Selects(rs, at, KeptRecords(rs, deviceAddr))
    ensures forall i: nat :: i in at <==>
              i < |rs| && rs[i].headerLen != 0 && (deviceAddr == None || deviceAddr == Some(rs[i].device))
  {
    at := [];
    if rs != [] {
      var n := |rs| - 1;
      var before := KeptMeaning(rs[..n], deviceAddr);
      SelectsMore(rs, before, KeptRecords(rs[..n], deviceAddr));
      assert forall i: nat :: i < n ==> rs[..n][i] == rs[i];
      at := if Counts(rs[n], deviceAddr) then before + [n] else before;
    }
  }

  /** Those under one key are those of its endpoint and device. */
  lemma {:induction false} GroupMeaning(kept: seq<Record>, endpoint: nat, device: nat) returns (at: seq<nat>)
    ensures Selects(kept, at, Group(kept, Key(endpoint, device)))
    ensures forall i: nat :: i in at <==> i < |kept| && kept[i].endpoint == endpoint && kept[i].device == device
  {
    at := [];
    if kept != [] {
      var n := |kept| - 1;
      var before := GroupMeaning(kept[..n], endpoint, device);
      SelectsMore(kept, before, Group(kept[..n], Key(endpoint, device)));
      assert forall i: nat :: i < n ==> kept[..n][i] == kept[i];
      at := if kept[n].endpoint == endpoint && kept[n].device == device then before + [n] else before;
    }
  }

  // ---------- one endpoint's line ----------

  /** What a line says of the records of its group. */
  ghost predicate IsLine(s: EndpointStat, g: seq<Record>) {
    && g != [] && s.packetCount == |g| && s.totalBytes == TotalWeight(Lengthwise(g))
    && IsGreatest(s.maxDataLen, g) && LeastOf(s.minDataLen, g[AfterLastEmpty(g)..])
    && s.transferType == TransferTypeName(g[0].transfer)
    && (s.direction == "IN" <==> s.endpoint >= 0x80) && (s.direction == "OUT" <==> s.endpoint < 0x80)
  }

  /** The whole part of total over count. */
  predicate IsAverage(average: nat, total: nat, count: nat) {
    average * count <= total < (average + 1) * count
  }

  /** Every line of the result is that of one endpoint of one device: its packets, their
      bytes in all, the largest, the least behind the last empty one, and the average. */
  lemma LineMeaning(a: AnalyzeResult, rs: seq<Record>, deviceAddr: Option<nat>, i: nat) returns (k: Key)
    requires IsAnalysis(a, rs, deviceAddr) && i < |a.endpoints|
    ensures a.endpoints[i].endpoint == k.endpoint
    ensures IsLine(a.endpoints[i], Group(KeptRecords(rs, deviceAddr), k))
    ensures var s := a.endpoints[i]; s.maxDataLen < TWO_TO_32 ==> IsAverage(s.avgDataLen, s.totalBytes, s.packetCount)
  {
    var kept := KeptRecords(rs, deviceAddr);
    var order :| ListedAs(order, a.endpoints, EndpointsOf(kept));
    k := order[i];
    GroupLine(kept, k);
    if a.endpoints[i].maxDataLen < TWO_TO_32 {
      GroupAverage(kept, k);
    }
  }

  lemma GroupLine(kept: seq<Record>, k: Key)
    requires k in EndpointsOf(kept)
    ensures var s := StatOf(EndpointsOf(kept)[k]); s.endpoint == k.endpoint && IsLine(s, Group(kept, k))
  {
    var g := Group(kept, k);
    GroupEmpty(kept, k);
    AccumMeaning(g);
    KeyOfGroup(kept, k);
    AccumDirection(g);
  }

  lemma {:induction false} KeyOfGroup(rs: seq<Record>, k: Key)
    ensures forall i :: 0 <= i < |Group(rs, k)| ==> KeyOf(Group(rs, k)[i]) == k
  {
    if rs != [] {
      KeyOfGroup(rs[..|rs| - 1], k);
    }
  }

  lemma {:induction false} AccumDirection(rs: seq<Record>)
    requires rs != []
    ensures AccumOf(rs).direction == if rs[0].endpoint >= 0x80 then "IN" else "OUT"
  {
    if |rs| > 1 {
      AccumDirection(rs[..|rs| - 1]);
    }
  }

  lemma GroupAverage(kept: seq<Record>, k: Key)
    requires k in EndpointsOf(kept) && EndpointsOf(kept)[k].maxDataLen < TWO_TO_32
    ensures var s := StatOf(EndpointsOf(kept)[k]); IsAverage(s.avgDataLen, s.totalBytes, s.packetCount)
  {
    var g := Group(kept, k);
    GroupEmpty(kept, k);
    AccumMeaning(g);
    TotalBound(g, AccumOf(g).maxDataLen);
    AverageMeaning(AccumOf(g));
  }

  lemma AverageMeaning(acc: Accum)
    requires acc.packets > 0 && acc.totalBytes <= acc.packets * acc.maxDataLen && acc.maxDataLen < TWO_TO_32
    ensures IsAverage(StatOf(acc).avgDataLen, acc.totalBytes, acc.packets)
  {
    Quotient(acc.totalBytes, acc.packets);
    AtMost(acc.totalBytes, acc.packets, acc.maxDataLen);
    SmallRemainder(acc.totalBytes / acc.packets);
  }

  lemma AtMost(a: nat, b: nat, m: nat)
    requires b > 0 && a <= b * m
    ensures a / b <= m
  {
    Quotient(a, b);
    if m < a / b {
      Scaled(b, m + 1, a / b);
      assert false;
    }
  }

  lemma SmallRemainder(n: nat)
    requires n < TWO_TO_32
    ensures n % TWO_TO_32 == n
  {}

  lemma Quotient(a: nat, b: nat)
    requires b > 0
    ensures a / b <= a && IsAverage(a / b, a, b)
  {
    var q := a / b;
    Product(q, b);
    assert a == q * b + a % b;
    assert (q + 1) * b == q * b + b;
  }

  lemma Product(q: nat, b: nat)
    requires b > 0
    ensures q <= q * b
  {}

  lemma TransferTypes(t: nat)
    ensures TransferTypeName(t) == "isochronous" <==> t == 0
    ensures TransferTypeName(t) == "interrupt" <==> t == 1
    ensures TransferTypeName(t) == "control" <==> t == 2
    ensures TransferTypeName(t) == "bulk" <==> t == 3
    ensures TransferTypeName(t) == "irp_info" <==> t == 254
    ensures TransferTypeName(t) == "unknown" <==> t > 3 && t != 254
  {}

  /** The time of a record in whole milliseconds, and the time between the first and the
      last record, zero if the clock went back. */
  lemma DurationMeaning(rs: seq<Record>)
    requires rs != []
    ensures var first, last := rs[0].tsSec * 1000000 + rs[0].tsUsec, rs[|rs| - 1].tsSec * 1000000 + rs[|rs| - 1].tsUsec;
      Duration(rs) == if last / 1000 >= first / 1000 then last / 1000 - first / 1000 else 0
  {
    MillisMeaning(rs[0]);
    MillisMeaning(rs[|rs| - 1]);
  }

  lemma MillisMeaning(rec: Record)
    ensures TsMillis(rec) == (rec.tsSec * 1000000 + rec.tsUsec) / 1000
  {}
}
