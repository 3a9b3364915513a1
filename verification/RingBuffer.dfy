/** The circular capture buffer of USBPcapDriver/USBPcapBuffer.c. One slot is kept
    empty so that equal offsets mean an empty ring; the byte sequence between the
    offsets is Contents(), and every operation is specified on it alone. */
module RingBuffer {
  import opened Bytes
  import opened Pcap
  import opened PacketStore
  import Sequences

  const MIN_BUFFER := 4096
  const MAX_BUFFER := 134217728

  /** The bytes from offset r up to offset w, going round the end. */
  function Window(v: seq<Byte>, r: nat, w: nat): (s: seq<Byte>)
    requires r < |v| && w < |v|
  {
    if r <= w then v[r..w] else v[r..] + v[..w]
  }

  /** Keeps an offset that has reached the end of the buffer inside it. */
  method WrapOffset(a: nat, size: nat) returns (r: nat)
    requires a <= size && 0 < size
    ensures r == if a == size then 0 else a
  {
    r := a % size;
  }

  lemma AppendStraight(v: seq<Byte>, r: nat, w: nat, d: seq<Byte>, next: nat)
    requires r < |v| && w < |v| && w + |d| <= |v|
    requires |Window(v, r, w)| + |d| < |v|
    requires next == if w + |d| == |v| then 0 else w + |d|
    ensures Window(Overwritten(v, w, d), r, next) == Window(v, r, w) + d
  {
    var x := Overwritten(v, w, d);
    if r <= w {
      assert x[r..w + |d|] == v[r..w] + d;
      assert w + |d| == |v| ==> x[r..] + x[..0] == v[r..w] + d;
    } else {
      assert x[r..] == v[r..];
      assert x[..w + |d|] == v[..w] + d;
    }
  }

  lemma AppendAround(v: seq<Byte>, r: nat, w: nat, d: seq<Byte>, k: nat)
    requires r < |v| && w < |v| && w + |d| > |v| && k == |v| - w
    requires |Window(v, r, w)| + |d| < |v|
    ensures r <= w && |d| - k < r
    ensures Window(Overwritten(Overwritten(v, w, d[..k]), 0, d[k..]), r, |d| - k) == Window(v, r, w) + d
  {}

  lemma TakeStraight(v: seq<Byte>, r: nat, w: nat, n: nat, next: nat)
    requires r < |v| && w < |v| && n <= |Window(v, r, w)| && r + n <= |v| && (r <= w ==> r + n < |v|)
    requires next == if r + n == |v| then 0 else r + n
    ensures v[r..r + n] == Window(v, r, w)[..n]
    ensures Window(v, next, w) == Window(v, r, w)[n..]
  {}

  lemma TakeAround(v: seq<Byte>, r: nat, w: nat, n: nat, k: nat)
    requires w < r < |v| && n <= |Window(v, r, w)| && r + n > |v| && k == |v| - r
    ensures v[r..] + v[..n - k] == Window(v, r, w)[..n]
    ensures Window(v, n - k, w) == Window(v, r, w)[n..]
  {}

  lemma TwoCopies(v: seq<Byte>, a: seq<Byte>, b: seq<Byte>)
    requires |a| + |b| <= |v|
    ensures Overwritten(Overwritten(v, 0, a), |a|, b) == Overwritten(v, 0, a + b)
  {}

  class RootHubData {
    var buffer: array?<Byte>
    var bufferSize: nat
    var readOffset: nat
    var writeOffset: nat
    var snaplen: nat

    ghost predicate Valid()
      reads this
    {
      && 0 < snaplen < TWO_TO_32
      && (buffer == null ==> readOffset == writeOffset == 0)
      && (buffer != null ==> && MIN_BUFFER <= bufferSize == buffer.Length <= MAX_BUFFER
                             && readOffset < bufferSize && writeOffset < bufferSize)
    }

    /** The unread bytes, oldest first. */
    ghost function Contents(): seq<Byte>
      requires Valid()
      reads this, buffer
    {
      if buffer == null then [] else Window(buffer[..], readOffset, writeOffset)
    }

    /** The ring as the rest of the driver sees it. */
    ghost function Fifo(): Ring
      requires Valid()
      reads this, buffer
    {
      if buffer == null then NoBuffer else Buffer(bufferSize, Contents())
    }

    constructor ()
      ensures Valid() && Fifo() == NoBuffer && snaplen == DEFAULT_SNAPLEN
    {
      buffer := null;
      bufferSize, readOffset, writeOffset := 0, 0, 0;
      snaplen := DEFAULT_SNAPLEN;
    }

    function GetBufferFree(): (n: nat)
      requires Valid()
      reads this, buffer
      ensures buffer == null ==> n == 0
      ensures buffer != null ==> n + |Contents()| == bufferSize - 1
    {
      if buffer == null then 0
      else if readOffset == writeOffset then bufferSize - 1
      else if readOffset > writeOffset then readOffset - writeOffset - 1
      else bufferSize - writeOffset + readOffset - 1
    }

    function GetBufferAllocated(): (n: nat)
      requires Valid()
      reads this, buffer
      ensures n == |Contents()|
    {
      if readOffset == writeOffset then 0
      else if readOffset > writeOffset then bufferSize - readOffset + writeOffset
      else writeOffset - readOffset
    }

    method WriteUnsafe(data: seq<Byte>)
      requires Valid() && buffer != null && |Contents()| + |data| < bufferSize
      modifies this`writeOffset, buffer
      ensures Valid() && Contents() == old(Contents()) + data
    {
      if bufferSize - writeOffset >= |data| {
        var next := WrapOffset(writeOffset + |data|, bufferSize);
        AppendStraight(buffer[..], readOffset, writeOffset, data, next);
        CopyInto(buffer, writeOffset, data);
        writeOffset := next;
      } else {
        var tmp := bufferSize - writeOffset;
        AppendAround(buffer[..], readOffset, writeOffset, data, tmp);
        CopyInto(buffer, writeOffset, data[..tmp]);
        CopyInto(buffer, 0, data[tmp..]);
        writeOffset := |data| - tmp;
      }
    }

    method Write(data: seq<Byte>) returns (status: Status)
      requires Valid()
      modifies this`writeOffset, buffer
      ensures Valid()
      ensures status == if data == [] then InvalidParameter
                        else if old(GetBufferFree()) < |data| then InsufficientResources else Success
      ensures Contents() == if status == Success then old(Contents()) + data else old(Contents())
    {
      if |data| == 0 {
        return InvalidParameter;
      }
      if GetBufferFree() < |data| {
        return InsufficientResources;
      }
      WriteUnsafe(data);
      return Success;
    }

    /** Copies n contiguous unread bytes to dest. */
    method TakeContiguous(dest: array<Byte>, n: nat)
      requires Valid() && buffer != null && dest != buffer && n <= dest.Length
      requires n <= |Contents()| && readOffset + n <= bufferSize
      modifies this`readOffset, dest
      ensures Valid()
      ensures dest[..] == Overwritten(old(dest[..]), 0, old(Contents())[..n])
      ensures Contents() == old(Contents())[n..]
    {
      var next := WrapOffset(readOffset + n, bufferSize);
      ghost var v := buffer[..];
      TakeStraight(v, readOffset, writeOffset, n, next);
      var chunk := buffer[readOffset..readOffset + n];
      assert chunk == v[readOffset..readOffset + n] == Contents()[..n];
      CopyInto(dest, 0, chunk);
      assert buffer[..] == v;
      readOffset := next;
    }

    /** Copies n unread bytes that go round the end of the buffer to dest. */
    method TakeWrapped(dest: array<Byte>, n: nat)
      requires Valid() && buffer != null && dest != buffer && n <= dest.Length
      requires n <= |Contents()| && writeOffset < readOffset && readOffset + n > bufferSize
      modifies this`readOffset, dest
      ensures Valid()
      ensures dest[..] == Overwritten(old(dest[..]), 0, old(Contents())[..n])
      ensures Contents() == old(Contents())[n..]
    {
      var tmp := bufferSize - readOffset;
      TakeAround(buffer[..], readOffset, writeOffset, n, tmp);
      ghost var before, first, second := dest[..], buffer[readOffset..], buffer[..n - tmp];
      CopyInto(dest, 0, buffer[readOffset..]);
      CopyInto(dest, tmp, buffer[..n - tmp]);
      TwoCopies(before, first, second);
      readOffset := n - tmp;
    }

    /** Moves the oldest bytes, as many as fit, to dest; returns their number. */
    method Read(dest: array<Byte>, destSize: nat) returns (n: nat)
      requires Valid() && dest != buffer && destSize <= dest.Length
      modifies this`readOffset, dest
      ensures Valid()
      ensures n == Min(|old(Contents())|, destSize)
      ensures dest[..] == Overwritten(old(dest[..]), 0, old(Contents())[..n])
      ensures Contents() == old(Contents())[n..]
    {
      var available := GetBufferAllocated();
      if available == 0 || destSize == 0 {
        return 0;
      }
      n := if available > destSize then destSize else available;
      if writeOffset > readOffset || bufferSize - readOffset >= n {
        TakeContiguous(dest, n);
      } else {
        TakeWrapped(dest, n);
      }
    }

    /** Creates the ring with the global header in it, or moves the unread bytes to
        a ring of the new size. memory says whether the allocation succeeds. */
    method SetUp(bytes: nat, memory: bool) returns (status: Status)
      requires Valid()
      modifies this`buffer, this`bufferSize, this`readOffset, this`writeOffset
      ensures Valid()
      ensures (Fifo(), status) == SetUpRing(old(Fifo()), snaplen, bytes, memory)
      ensures buffer == old(buffer) || fresh(buffer)
    {
      if bytes < MIN_BUFFER || bytes > MAX_BUFFER {
        return InvalidParameter;
      }
      if !memory {
        return InsufficientResources;
      }
      var replacement := new Byte[bytes];
      if buffer == null {
        buffer := replacement;
        bufferSize := bytes;
        readOffset, writeOffset := 0, 0;
        status := Write(GlobalHeader(snaplen));
      } else {
        var used := GetBufferAllocated();
        if used >= bytes {
          return BufferTooSmall;
        }
        ghost var unread := Contents();
        if used > 0 {
          var n := Read(replacement, bytes);
        }
        assert used > 0 ==> replacement[..][..used] == unread;
        assert replacement[0..used] == unread;
        buffer := replacement;
        bufferSize := bytes;
        readOffset, writeOffset := 0, used;
        status := Success;
      }
    }

    method SetSnaplen(bytes: nat) returns (status: Status)
      requires Valid() && bytes < TWO_TO_32
      modifies this`snaplen
      ensures Valid()
      ensures status == if bytes == 0 then InvalidParameter else if buffer != null then Unsuccessful else Success
      ensures snaplen == if status == Success then bytes else old(snaplen)
    {
      if bytes == 0 {
        return InvalidParameter;
      }
      if buffer != null {
        return Unsuccessful;
      }
      snaplen := bytes;
      return Success;
    }

    method RemoveBuffer()
      requires Valid()
      modifies this`buffer, this`readOffset, this`writeOffset
      ensures Valid() && Fifo() == NoBuffer
    {
      if buffer == null {
        return;
      }
      readOffset, writeOffset := 0, 0;
      buffer := null;
    }

    /** Appends one record, or nothing at all. */
    method StorePacket(timestamp: nat, header: seq<Byte>, entries: seq<Payload>) returns (status: Status)
      requires Valid() && IsPacketHeader(header)
      modifies this`writeOffset, buffer
      ensures Valid()
      ensures (Fifo(), status) == StoreInRing(old(Fifo()), snaplen, timestamp, header, entries)
    {
      var headerLen := PacketHeaderLen(header);
      var total := (headerLen + PacketDataLength(header)) % TWO_TO_32;
      var bytes := if total > snaplen then snaplen else total;
      assert total == OrigLength(header) && bytes == InclLength(snaplen, header);
      if bytes > RECORD_HEADER + headerLen {
        var missing := CountMissing(entries, bytes - (RECORD_HEADER + headerLen));
        if missing > 0 {
          return InvalidParameter;
        }
      }
      status := StoreIfRoom(timestamp, header, entries, bytes, total);
    }

    /** The part of USBPcapBufferStorePacket that looks for room and writes, for a packet that
        has passed the check. */
    method StoreIfRoom(timestamp: nat, header: seq<Byte>, entries: seq<Payload>, bytes: nat, total: nat)
      returns (status: Status)
      requires Valid() && IsPacketHeader(header) && PassesCheck(snaplen, header, entries)
      requires bytes == InclLength(snaplen, header) && total == OrigLength(header)
      modifies this`writeOffset, buffer
      ensures Valid()
      ensures (Fifo(), status) == StoreInRing(old(Fifo()), snaplen, timestamp, header, entries)
    {
      var headerLen := PacketHeaderLen(header);
      var pcapHeader := RecordHeader(Seconds(timestamp), Microseconds(timestamp), bytes, total);
      var bytesFree := GetBufferFree();
      if buffer == null || bytesFree < RECORD_HEADER || bytesFree - RECORD_HEADER < bytes {
        return InsufficientResources;
      }
      WriteRecord(pcapHeader, header, Min(bytes, headerLen), entries, bytes - Min(bytes, headerLen));
      return Success;
    }

    /** Record header, h bytes of packet header, up to p bytes of payload. */
    method WriteRecord(pcapHeader: seq<Byte>, header: seq<Byte>, h: nat, entries: seq<Payload>, p: nat)
      requires Valid() && buffer != null && h <= |header|
      requires |Contents()| + |pcapHeader| + h + p < bufferSize
      modifies this`writeOffset, buffer
      ensures Valid()
      ensures Contents() == old(Contents()) + (pcapHeader + header[..h] + Gather(entries)[..Min(|Gather(entries)|, p)])
    {
      ghost var before, front, payload := Contents(), header[..h], Gather(entries)[..Min(|Gather(entries)|, p)];
      WriteUnsafe(pcapHeader);
      if h > 0 {
        WriteUnsafe(header[..h]);
      } else {
        Sequences.Empty(before + pcapHeader);
      }
      WriteEntries(entries, p);
      Sequences.Regroup(before, pcapHeader, front);
      Sequences.Regroup(before, pcapHeader + front, payload);
    }

    /** The sanity check: how many of the wanted bytes the entries do not supply. */
    method CountMissing(entries: seq<Payload>, wanted: nat) returns (missing: nat)
      ensures missing == if |Gather(entries)| >= wanted then 0 else wanted - |Gather(entries)|
    {
      missing := wanted;
      var i := 0;
      ghost var done: seq<Byte> := [];
      while i < |entries| && missing > 0 && entries[i].Some?
        invariant i <= |entries| && Gather(entries) == done + Gather(entries[i..])
        invariant missing == if |done| >= wanted then 0 else wanted - |done|
      {
        GatherNext(entries, i, done);
        missing := missing - Min(|entries[i].value|, missing);
        done := done + entries[i].value;
        i := i + 1;
      }
      GatherNext(entries, i, done);
    }

    /** Writes the leading bytes of the entries, as many as asked for or supplied. */
    method WriteEntries(entries: seq<Payload>, bytes: nat)
      requires Valid() && buffer != null && |Contents()| + bytes < bufferSize
      modifies this`writeOffset, buffer
      ensures Valid()
      ensures Contents() == old(Contents()) + Gather(entries)[..Min(|Gather(entries)|, bytes)]
    {
      var left := bytes;
      var i := 0;
      ghost var before := Contents();
      ghost var done: seq<Byte> := [];
      Sequences.Empty(before);
      while i < |entries| && left > 0 && entries[i].Some?
        invariant i <= |entries| && Gather(entries) == done + Gather(entries[i..])
        invariant left == if |done| >= bytes then 0 else bytes - |done|
        invariant Valid() && |Contents()| + left < bufferSize
        invariant Contents() == before + Front(done, bytes)
      {
        GatherNext(entries, i, done);
        var tmp := Min(left, |entries[i].value|);
        TakeMore(before, done, entries[i].value, bytes, tmp);
        if tmp > 0 {
          WriteUnsafe(entries[i].value[..tmp]);
        }
        left := left - tmp;
        done := done + entries[i].value;
        i := i + 1;
      }
      GatherNext(entries, i, done);
      FrontEnough(done, Gather(entries[i..]), bytes);
    }
  }

  ghost function Front(s: seq<Byte>, n: nat): seq<Byte> {
    s[..Min(|s|, n)]
  }

  lemma FrontEnough(done: seq<Byte>, more: seq<Byte>, n: nat)
    ensures |done| >= n ==> Front(done + more, n) == Front(done, n)
  {}

  lemma TakeMore(before: seq<Byte>, done: seq<Byte>, x: seq<Byte>, bytes: nat, tmp: nat)
    requires |done| < bytes && tmp == Min(bytes - |done|, |x|)
    ensures before + Front(done + x, bytes) == (before + Front(done, bytes)) + x[..tmp]
    ensures tmp == 0 ==> before + Front(done + x, bytes) == before + Front(done, bytes)
  {}
}
