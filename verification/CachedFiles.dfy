/** Files read and written through the block cache: rCache.ReadAt, dataReader.Read and fileWriter of
    pkg/fs/client, and the proof that any history of them behaves as on plain files. */
module CachedFiles {
  import opened Options
  import opened BlockCache

  // ---- spans ----

  lemma SpanOfSpan(content: Bytes, base: nat, ahead: nat, o: nat, len: nat)
    requires o + len <= ahead
    ensures var b := Span(content, base, ahead);
            b[Min(o, |b|)..Min(o + len, |b|)] == Span(content, base + o, len)
  {
    var b := Span(content, base, ahead);
    var piece := b[Min(o, |b|)..Min(o + len, |b|)];
    assert |piece| == |Span(content, base + o, len)|;
    forall i | 0 <= i < |piece|
      ensures piece[i] == content[base + o + i]
    {
      assert piece[i] == b[o + i];
    }
  }

  lemma SpanSplits(content: Bytes, off: nat, read: nat, n: nat)
    requires off + read <= |content|
    ensures Span(content, off, read) + Span(content, off + read, n) == Span(content, off, read + n)
  {
  }

  function Zeros(n: nat): (z: Bytes)
    ensures |z| == n
  {
    seq(n, _ => 0)
  }

  /** The count that ReadAt returns on a miss, for a buffer of bufSize bytes. */
  function MissCount(content: Bytes, blockSize: nat, bufSize: nat, off: nat): int
    requires blockSize > 0
  {
    Min(bufSize, |Span(content, off / blockSize * blockSize, READ_AHEAD * blockSize)| - off % blockSize)
  }

  /** On a miss the count is that of a direct read, or negative: exactly for an unaligned offset past the
      end of the file. */
  lemma MissCountIsNegativeIff(content: Bytes, blockSize: nat, bufSize: nat, off: nat)
    requires blockSize > 0 && 0 < bufSize <= blockSize - off % blockSize
    ensures var n := MissCount(content, blockSize, bufSize, off);
            && (n < 0 <==> off > |content| && off % blockSize != 0)
            && (n >= 0 ==> n == |Span(content, off, bufSize)|)
  {
    assert off == off / blockSize * blockSize + off % blockSize;
  }

  // ---- reading ----

  /** copy(buf[lo..], bytes). */
  method CopyInto(buf: array<Byte>, lo: nat, bytes: Bytes)
    requires lo + |bytes| <= buf.Length
    modifies buf
    ensures buf[..lo] == old(buf[..lo]) && buf[lo..lo + |bytes|] == bytes
    ensures buf[lo + |bytes|..] == old(buf[lo + |bytes|..])
  {
    for i := 0 to |bytes|
      invariant buf[..lo] == old(buf[..lo]) && buf[lo..lo + i] == bytes[..i]
      invariant buf[lo + i..] == old(buf[lo + i..])
    {
      ghost var before := buf[..];
      buf[lo + i] := bytes[i];
      assert buf[lo + i + 1..] == before[lo + i + 1..];
      assert old(buf[lo + i + 1..]) == old(buf[lo + i..])[1..];
    }
  }

  /** What a block of the file holds from inside on. */
  lemma BlockPart(content: Bytes, blockSize: nat, off: nat, b: Bytes, len: nat)
    requires blockSize > 0 && b == Block(content, blockSize, off / blockSize) && len <= blockSize - off % blockSize
    ensures b[Min(off % blockSize, |b|)..Min(off % blockSize + len, |b|)] == Span(content, off, len)
  {
    assert off == off / blockSize * blockSize + off % blockSize;
    SpanOfSpan(content, off / blockSize * blockSize, blockSize, off % blockSize, len);
  }

  /** A hit: copy what the block holds from blockOff on. */
  method CopyHit(buf: array<Byte>, lo: nat, hi: nat, b: Bytes, blockOff: nat,
                 ghost content: Bytes, ghost blockSize: nat, ghost off: nat) returns (n: int)
    requires lo <= hi <= buf.Length && blockSize > 0 && hi - lo <= blockSize - blockOff
    requires b == Block(content, blockSize, off / blockSize) && blockOff == off % blockSize
    modifies buf
    ensures buf[..lo] == old(buf[..lo])
    ensures n == |Span(content, off, hi - lo)| && buf[lo..lo + n] == Span(content, off, hi - lo)
  {
    var piece := b[Min(blockOff, |b|)..Min(blockOff + (hi - lo), |b|)];
    BlockPart(content, blockSize, off, b, hi - lo);
    CopyInto(buf, lo, piece);
    n := |piece|;
  }

  /** What lies in a buffer where all of bytes has been copied to. */
  lemma CopiedPart(buf: Bytes, lo: nat, bytes: Bytes, n: nat)
    requires lo + |bytes| <= |buf| && buf[lo..lo + |bytes|] == bytes && n <= |bytes|
    ensures buf[lo..lo + n] == bytes[..n]
  {
    assert buf[lo..lo + n] == buf[lo..lo + |bytes|][..n];
  }

  /** The first n bytes from `from` on in a padded buffer are the bytes of the file. */
  lemma PaddedPart(content: Bytes, base: nat, padded: Bytes, got: nat, from: nat, len: nat)
    requires from + len <= |padded| && got <= |padded| && padded[..got] == Span(content, base, |padded|)
    requires from <= got
    ensures var n := Min(len, got - from);
            n == |Span(content, base + from, len)| && padded[from..from + len][..n] == Span(content, base + from, len)
  {
    var n := Min(len, got - from);
    SpanOfSpan(content, base, |padded|, from, len);
    assert padded[from..from + len][..n] == padded[..got][from..from + n];
  }

  /** The bytes of a miss: the zero-padded read-ahead buffer is copied whole, and the count says how many
      of its bytes are the file's; it is negative when the block ends before blockOff. */
  method CopyMiss(buf: array<Byte>, lo: nat, hi: nat, ufsBuf: Bytes, got: nat, blockOff: nat,
                  ghost content: Bytes, ghost base: nat) returns (n: int)
    requires lo <= hi <= buf.Length && blockOff + (hi - lo) <= |ufsBuf| && got <= |ufsBuf|
    requires ufsBuf[..got] == Span(content, base, |ufsBuf|)
    modifies buf
    ensures n == Min(hi - lo, got - blockOff) && buf[..lo] == old(buf[..lo])
    ensures n >= 0 ==> buf[lo..lo + n] == Span(content, base + blockOff, hi - lo)
  {
    var bufSize := hi - lo;
    CopyInto(buf, lo, ufsBuf[blockOff..blockOff + bufSize]);
    n := Min(bufSize, got - blockOff);
    if blockOff <= got {
      PaddedPart(content, base, ufsBuf, got, blockOff, bufSize);
      CopiedPart(buf[..], lo, ufsBuf[blockOff..blockOff + bufSize], n);
      assert buf[..][lo..lo + n] == buf[lo..lo + n];
    }
  }

  /** What ReadAt leaves in the buffer and returns: the bytes of the file, unless the block is neither held
      nor reaches up to the offset. */
  ghost predicate ReadAtIs(content: Bytes, blockSize: nat, off: nat, len: nat, held: bool, n: int, bytes: Bytes)
    requires blockSize > 0
  {
    && n == (if len == 0 || held then |Span(content, off, len)| else MissCount(content, blockSize, len, off))
    && (n >= 0 ==> bytes == Span(content, off, len))
  }

  /** The rounds that follow a miss at this offset. */
  ghost function FillAt(store: Store, name: Name, off: nat, space: Space, weather: nat -> Weather): Fill
    requires store.blockSize > 0 && name in store.ufs.contents
    reads store, store.disk, store.ufs`contents
  {
    Fill(space, store.ufs.contents[name], store.blockSize, off / store.blockSize,
         if store.disk != null then store.disk.expire else 0, weather)
  }

  /** How many blocks a miss stores. */
  function Rounds(fill: Fill): nat
    requires fill.blockSize > 0
  {
    BlockCount(|Span(fill.content, fill.first * fill.blockSize, READ_AHEAD * fill.blockSize)|, fill.blockSize)
  }

  /** A miss stores two blocks, if the file has that many from there on. */
  lemma TwoBlocksAreStored(fill: Fill)
    requires fill.blockSize > 0
    ensures Rounds(fill) == if |fill.content| > (fill.first + 1) * fill.blockSize then 2 else 1
  {
    var from, size := fill.first * fill.blockSize, fill.blockSize;
    assert (fill.first + 1) * size == from + size;
    var n := |Span(fill.content, from, 2 * size)|;
    if |fill.content| > from + size {
      assert size < n <= 2 * size;
      DivOf(n - 1, size, 1);
    } else if n > 0 {
      DivOf(n - 1, size, 0);
    }
  }

  lemma DivOf(n: nat, size: nat, q: nat)
    requires size > 0 && q * size <= n < q * size + size
    ensures n / size == q
  {
    FirstOfBlock(q, n - q * size, size);
  }

  /** The levels have what setCache has put into them: see Filled and OnDisk. */
  ghost predicate HasStored(store: Store, name: Name, fill: Fill)
    reads store, store.mem, store.disk
  {
    && name in store.meta && fill.blockSize > 0
    && (store.mem != null ==>
          Filled(store.mem.items.Keys, store.meta[name], fill.first, fill.weather, Rounds(fill)))
    && (store.disk != null ==> fill.OnDisk(store.disk.Items(), store.meta[name], Rounds(fill)))
  }

  ghost predicate HoldsAt(store: Store, name: Name, off: nat, weather: Weather)
    requires store.blockSize > 0
    reads store, store.mem, store.disk
  {
    store.Holds(name, off / store.blockSize, weather)
  }

  ghost function RoomOf(store: Store): Space
    reads store, store.disk
  {
    if store.disk != null then store.disk.Room() else Space(0, 0)
  }

  /** The look-up of ReadAt, which changes nothing when it hits. */
  method LookUpAt(store: Store, name: Name, off: nat, weather: nat -> Weather) returns (block: Option<Bytes>)
    requires store.Coherent() && name in store.ufs.contents
    modifies store`meta, store`nextId
    ensures store.Coherent() && name in store.meta
    ensures block.Some? <==> old(HoldsAt(store, name, off, weather(0)))
    ensures block.Some? ==>
              && block.value == Block(store.ufs.contents[name], store.blockSize, off / store.blockSize)
              && forall o, w :: HoldsAt(store, name, o, w) == old(HoldsAt(store, name, o, w))
    ensures FillAt(store, name, off, RoomOf(store), weather) == old(FillAt(store, name, off, RoomOf(store), weather))
  {
    block := store.LookUp(name, off / store.blockSize, weather(0));
  }

  /** ReadAt of rCache into buf[lo..hi], which must end with the block that holds `off`. */
  method ReadAt(store: Store, name: Name, buf: array<Byte>, lo: nat, hi: nat, off: nat, weather: nat -> Weather)
      returns (n: int, failed: bool)
    requires store.Coherent() && name in store.ufs.contents
    requires lo <= hi <= buf.Length && hi - lo <= store.blockSize - off % store.blockSize
    modifies store`meta, store`nextId, store.mem, store.disk, buf
    ensures store.Coherent() && (!failed ==> n <= hi - lo && buf[..lo] == old(buf[..lo]))
    ensures var held := old(HoldsAt(store, name, off, weather(0)));
            && (failed <==> lo < hi && !held && name in store.ufs.broken)
            && (!failed ==> ReadAtIs(store.ufs.contents[name], store.blockSize, off, hi - lo, held, n,
                                     if n >= 0 then buf[lo..lo + n] else []))
    ensures !failed && lo < hi && !old(HoldsAt(store, name, off, weather(0))) ==>
              HasStored(store, name, old(FillAt(store, name, off, RoomOf(store), weather)))
    ensures old(HoldsAt(store, name, off, weather(0))) ==>
              forall o, w :: HoldsAt(store, name, o, w) == old(HoldsAt(store, name, o, w))
  {
    if lo == hi {
      return 0, false;
    }
    var blockOff := off % store.blockSize;
    var block := LookUpAt(store, name, off, weather);
    if block.Some? {
      n := CopyHit(buf, lo, hi, block.value, blockOff, store.ufs.contents[name], store.blockSize, off);
      return n, false;
    }
    n, failed := ReadThrough(store, name, buf, lo, hi, off, weather);
  }

  /** A zeroed buffer of two blocks, into which the backing store reads n bytes. */
  method ReadAhead(content: Bytes, blockSize: nat, index: nat) returns (ufsBuf: Bytes, n: nat)
    requires blockSize > 0
    ensures n <= |ufsBuf| == READ_AHEAD * blockSize
    ensures ufsBuf[..n] == Span(content, index * blockSize, READ_AHEAD * blockSize)
  {
    var got := Span(content, index * blockSize, READ_AHEAD * blockSize);
    n := |got|;
    ufsBuf := got + Zeros(READ_AHEAD * blockSize - n);
  }

  /** The read of two blocks from the backing store, which setCache keeps. */
  method ReadThrough(store: Store, name: Name, buf: array<Byte>, lo: nat, hi: nat, off: nat, weather: nat -> Weather)
      returns (n: int, failed: bool)
    requires store.Coherent() && name in store.ufs.contents && name in store.meta
    requires lo <= hi <= buf.Length && hi - lo <= store.blockSize - off % store.blockSize
    modifies store`meta, store`nextId, store.mem, store.disk, buf
    ensures store.Coherent()
    ensures failed <==> name in store.ufs.broken
    ensures !failed ==>
              && n == MissCount(store.ufs.contents[name], store.blockSize, hi - lo, off) && buf[..lo] == old(buf[..lo])
              && (n >= 0 ==> buf[lo..lo + n] == Span(store.ufs.contents[name], off, hi - lo))
    ensures !failed ==> HasStored(store, name, old(FillAt(store, name, off, RoomOf(store), weather)))
  {
    if name in store.ufs.broken {
      return 0, true;
    }
    var index, blockOff := off / store.blockSize, off % store.blockSize;
    assert off == index * store.blockSize + blockOff;
    var ufsBuf, got := ReadAhead(store.ufs.contents[name], store.blockSize, index);
    store.SetCache(name, off, ufsBuf, got, weather);
    n := CopyMiss(buf, lo, hi, ufsBuf, got, blockOff, store.ufs.contents[name], index * store.blockSize);
    failed := false;
  }

  /** What Read comes to. Panicked: the count of the first piece was negative, and the next piece would
      have begun before the buffer. */
  datatype ReadResult = Count(n: nat) | ReadFailed | Panicked

  /** A read that starts past the end of the file, inside a block. */
  predicate PastEnd(content: Bytes, blockSize: nat, start: nat, len: nat)
    requires blockSize > 0
  {
    len > 0 && start > |content| && start % blockSize != 0
  }

  /** The piece that ReadAt has read is that of a direct read, or its count is negative. */
  lemma PieceIs(content: Bytes, blockSize: nat, off: nat, len: nat, held: bool, n: int, bytes: Bytes)
    requires blockSize > 0 && 0 < len <= blockSize - off % blockSize
    requires ReadAtIs(content, blockSize, off, len, held, n, bytes)
    ensures n < 0 <==> !held && off > |content| && off % blockSize != 0
    ensures n >= 0 ==> n == |bytes| && bytes == Span(content, off, len)
  {
    MissCountIsNegativeIff(content, blockSize, len, off);
  }

  /** The first `read` bytes of the buffer are those of the file from start on. */
  ghost predicate FilledUpTo(buf: Bytes, content: Bytes, start: nat, read: nat) {
    read <= |buf| && buf[..read] == Span(content, start, read)
  }

  lemma PieceFollows(content: Bytes, start: nat, read: nat, len: nat, buf: Bytes, n: nat)
    requires FilledUpTo(buf, content, start, read) && 0 < len && read + len <= |buf|
    requires n <= len && buf[read..read + n] == Span(content, start + read, len)
    ensures n == 0 ==> buf[..read] == Span(content, start, |buf|)
    ensures n > 0 ==> start + read + n <= |content| && FilledUpTo(buf, content, start, read + n)
  {
    if n > 0 {
      SpanSplits(content, start, read, n);
      assert buf[..read + n] == buf[..read] + buf[read..read + n];
    }
  }

  /** What one round of the loop in Read comes to, in a buffer that was filled up to `read`. */
  ghost predicate RoundIs(content: Bytes, blockSize: nat, start: nat, read: nat, held: bool, n: int, buf: Bytes)
    requires blockSize > 0
  {
    && (n < 0 <==> !held && PastEnd(content, blockSize, start + read, |buf|))
    && (n == 0 ==> read <= |buf| && buf[..read] == Span(content, start, |buf|))
    && (n > 0 ==> start + read + n <= |content| && FilledUpTo(buf, content, start, read + n))
  }

  lemma RoundFollows(content: Bytes, blockSize: nat, start: nat, read: nat, end: nat, held: bool, n: int, buf: Bytes)
    requires blockSize > 0 && read < end <= |buf| && end - read <= blockSize - (start + read) % blockSize
    requires FilledUpTo(buf, content, start, read) && n <= end - read
    requires ReadAtIs(content, blockSize, start + read, end - read, held, n, if n >= 0 then buf[read..read + n] else [])
    ensures RoundIs(content, blockSize, start, read, held, n, buf)
  {
    var bytes := if n >= 0 then buf[read..read + n] else [];
    PieceIs(content, blockSize, start + read, end - read, held, n, bytes);
    if n >= 0 {
      PieceFollows(content, start, read, end - read, buf, n);
    }
  }

  /** One round of the loop in Read: the piece up to the end of the block or of the buffer. */
  method ReadPiece(store: Store, name: Name, buf: array<Byte>, read: nat, off: nat, weather: nat -> Weather,
                   ghost start: nat) returns (n: int, failed: bool)
    requires store.Coherent() && name in store.ufs.contents && read < buf.Length && off == start + read
    requires FilledUpTo(buf[..], store.ufs.contents[name], start, read)
    modifies store`meta, store`nextId, store.mem, store.disk, buf
    ensures store.Coherent()
    ensures var held := old(HoldsAt(store, name, off, weather(0)));
            && (failed <==> !held && name in store.ufs.broken)
            && (!failed ==> RoundIs(store.ufs.contents[name], store.blockSize, start, read, held, n, buf[..]))
    ensures old(HoldsAt(store, name, off, weather(0))) ==>
              forall o, w :: HoldsAt(store, name, o, w) == old(HoldsAt(store, name, o, w))
  {
    ghost var held, was := HoldsAt(store, name, off, weather(0)), buf[..];
    var bufSize, cacheSize := buf.Length, store.blockSize - off % store.blockSize;
    var end := read + cacheSize;
    if end > bufSize {
      end := bufSize;
    }
    n, failed := ReadAt(store, name, buf, read, end, off, weather);
    if !failed {
      assert buf[..][..read] == buf[..read] == was[..read];
      assert n >= 0 ==> buf[..][read..read + n] == buf[read..read + n];
      RoundFollows(store.ufs.contents[name], store.blockSize, start, read, end, held, n, buf[..]);
    }
  }

  /** The levels have every block of a range, at any of the moments at which a read may ask for it. */
  ghost predicate HoldsAll(store: Store, name: Name, start: nat, len: nat, weather: nat -> nat -> Weather)
    requires store.blockSize > 0
    reads store, store.mem, store.disk
  {
    forall off: nat, i: nat | start <= off < start + len :: HoldsAt(store, name, off, weather(i)(0))
  }

  /** The same round, among blocks that may all be held. */
  method ReadNext(store: Store, name: Name, buf: array<Byte>, read: nat, off: nat, weather: nat -> nat -> Weather,
                  round: nat, ghost start: nat) returns (n: int, failed: bool)
    requires store.Coherent() && name in store.ufs.contents && read < buf.Length && off == start + read
    requires FilledUpTo(buf[..], store.ufs.contents[name], start, read)
    modifies store`meta, store`nextId, store.mem, store.disk, buf
    ensures store.Coherent()
    ensures var held := old(HoldsAt(store, name, off, weather(round)(0)));
            && (failed <==> !held && name in store.ufs.broken)
            && (!failed ==> RoundIs(store.ufs.contents[name], store.blockSize, start, read, held, n, buf[..]))
    ensures old(HoldsAll(store, name, start, buf.Length, weather)) ==>
              !failed && n >= 0 && HoldsAll(store, name, start, buf.Length, weather)
  {
    assert HoldsAll(store, name, start, buf.Length, weather) ==> HoldsAt(store, name, off, weather(round)(0));
    n, failed := ReadPiece(store, name, buf, read, off, weather(round), start);
  }

  /** Read of dataReader: the whole buffer in pieces that never cross a block boundary. The number of bytes
      and the bytes are those of a direct read of the file. The call panics exactly if the read starts past
      the end of the file inside a block, and that block is neither held nor fails to be read. If the levels
      have all the blocks, it does not fail whatever the backing store does. */
  method Read(store: Store, name: Name, buf: array<Byte>, start: nat, weather: nat -> nat -> Weather)
      returns (r: ReadResult)
    requires store.Coherent() && name in store.ufs.contents
    modifies store`meta, store`nextId, store.mem, store.disk, buf
    ensures store.Coherent()
    ensures r.ReadFailed? ==> name in store.ufs.broken
    ensures r.Count? ==> r.n <= buf.Length && buf[..r.n] == Span(store.ufs.contents[name], start, buf.Length)
    ensures r.Panicked? <==>
              && PastEnd(store.ufs.contents[name], store.blockSize, start, buf.Length)
              && !old(HoldsAt(store, name, start, weather(0)(0))) && name !in store.ufs.broken
    ensures old(HoldsAll(store, name, start, buf.Length, weather)) ==> r.Count?
  {
    ghost var all := HoldsAll(store, name, start, buf.Length, weather);
    ghost var held := HoldsAt(store, name, start, weather(0)(0));
    var read, off, round := 0, start, 0;
    while read < buf.Length
      invariant store.Coherent() && 0 <= read <= buf.Length && off == start + read
      invariant FilledUpTo(buf[..], store.ufs.contents[name], start, read)
      invariant read > 0 ==> off <= |store.ufs.contents[name]|
      invariant read == 0 ==> round == 0 && held == HoldsAt(store, name, start, weather(0)(0))
      invariant all ==> HoldsAll(store, name, start, buf.Length, weather)
      decreases buf.Length - read
    {
      var n, err := ReadNext(store, name, buf, read, off, weather, round, start);
      if err {
        return ReadFailed;
      }
      if n < 0 {
        return Panicked; // the next piece would begin before the buffer
      }
      if n == 0 {
        break;
      }
      read, off, round := read + n, off + n, round + 1;
    }
    assert buf[..][..read] == buf[..read];
    r := Count(read);
  }

  /** A block that was missed once is served from the disk afterwards, even by a store without memory whose
      files can no longer be read, if there was room for it and it has not expired. */
  method ReadServedAgain(store: Store, name: Name, buf: array<Byte>, off: nat, weather: nat -> Weather,
                         later: nat -> nat -> Weather) returns (r: ReadResult)
    requires store.Coherent() && name in store.ufs.contents && name !in store.ufs.broken && store.disk != null
    requires 0 < buf.Length <= store.blockSize - off % store.blockSize
    requires !HoldsAt(store, name, off, weather(0))
    requires var fill := FillAt(store, name, off, RoomOf(store), weather); fill.Keeps(0, Rounds(fill))
    requires forall i :: later(i)(0).diskOk && later(i)(0).now < weather(0).now + store.disk.expire
    modifies store`meta, store`nextId, store.mem, store.disk, store.ufs`broken, buf
    ensures store.Coherent() && store.ufs.broken == old(store.ufs.broken) + {name}
    ensures r.Count? && r.n <= buf.Length && buf[..r.n] == Span(store.ufs.contents[name], off, buf.Length)
  {
    ghost var fill := FillAt(store, name, off, RoomOf(store), weather);
    var _, _ := ReadAt(store, name, buf, 0, buf.Length, off, weather);
    StoredIsHeld(store, name, off, fill);
    store.ufs.broken := store.ufs.broken + {name};
    BlockIsAll(store, name, off, buf.Length, later);
    r := Read(store, name, buf, off, later);
  }

  lemma StoredIsHeld(store: Store, name: Name, off: nat, fill: Fill)
    requires store.blockSize > 0 && store.disk != null && fill.first == off / store.blockSize
    requires HasStored(store, name, fill) && fill.Keeps(0, Rounds(fill))
    ensures forall w: Weather | w.diskOk && w.now < fill.weather(0).now + fill.expire :: HoldsAt(store, name, off, w)
  {
    assert fill.Stands(store.disk.Items(), store.meta[name], 0);
    assert Key(store.meta[name], fill.first + 0) == Key(store.meta[name], fill.first);
  }

  lemma BlockIsAll(store: Store, name: Name, start: nat, len: nat, weather: nat -> nat -> Weather)
    requires store.blockSize > 0 && len <= store.blockSize - start % store.blockSize
    requires forall i: nat :: HoldsAt(store, name, start, weather(i)(0))
    ensures HoldsAll(store, name, start, len, weather)
  {
    forall off: nat, i: nat | start <= off < start + len
      ensures HoldsAt(store, name, off, weather(i)(0))
    {
      SameBlock(start, off, store.blockSize);
    }
  }

  lemma FirstOfBlock(index: nat, blockOff: nat, blockSize: nat)
    requires blockOff < blockSize
    ensures (index * blockSize + blockOff) / blockSize == index
  {
    var q, r := (index * blockSize + blockOff) / blockSize, (index * blockSize + blockOff) % blockSize;
    assert q * blockSize + r == index * blockSize + blockOff;
    if q < index {
      MulMono(q + 1, index, blockSize);
    } else if index < q {
      MulMono(index + 1, q, blockSize);
    }
  }

  lemma SameBlock(start: nat, off: nat, blockSize: nat)
    requires blockSize > 0 && start <= off < start + (blockSize - start % blockSize)
    ensures off / blockSize == start / blockSize
  {
    var q := start / blockSize;
    assert start == q * blockSize + start % blockSize;
    FirstOfBlock(q, off - q * blockSize, blockSize);
  }

  // ---- writing ----

  /** WriteAt of the backing store: a gap is filled with zeros, and an empty write changes nothing. */
  function Written(content: Bytes, data: Bytes, off: nat): Bytes {
    if data == [] then content
    else
      (if off <= |content| then content[..off] else content + Zeros(off - |content|)) + data
      + content[Min(off + |data|, |content|)..]
  }

  lemma WrittenIsRead(content: Bytes, data: Bytes, off: nat)
    requires data != []
    ensures var next := Written(content, data, off);
            && Span(next, off, |data|) == data
            && (forall i | 0 <= i < |content| && !(off <= i < off + |data|) :: i < |next| && next[i] == content[i])
            && (forall i | |content| <= i < off :: i < |next| && next[i] == 0)
            && |next| == (if |content| < off + |data| then off + |data| else |content|)
  {
  }

  lemma ContentIsFree(held: map<Key, Bytes>, meta: map<Name, nat>, nextId: nat, blockSize: nat,
                      contents: map<Name, Bytes>, name: Name, content: Bytes)
    requires LevelOk(held, meta, nextId, blockSize, contents) && name !in meta
    ensures LevelOk(held, meta, nextId, blockSize, contents[name := content])
  {
  }

  /** Write of fileWriter: the generation goes first, then the bytes are written. */
  method Write(store: Store, name: Name, data: Bytes, offset: nat) returns (failed: bool)
    requires store.Coherent() && name in store.ufs.contents
    modifies store`meta, store.ufs`contents
    ensures store.Coherent() && (failed <==> name in store.ufs.broken) && name !in store.meta
    ensures store.ufs.contents ==
            if failed then old(store.ufs.contents)
            else old(store.ufs.contents)[name := Written(old(store.ufs.contents[name]), data, offset)]
  {
    var keyID := store.InvalidateCache(name);
    if name in store.ufs.broken {
      return true;
    }
    var next := Written(store.ufs.contents[name], data, offset);
    if store.mem != null {
      ContentIsFree(store.mem.items, store.meta, store.nextId, store.blockSize, store.ufs.contents, name, next);
    }
    if store.disk != null {
      ContentIsFree(store.disk.Held(), store.meta, store.nextId, store.blockSize, store.ufs.contents, name, next);
    }
    store.ufs.contents := store.ufs.contents[name := next];
    failed := false;
  }

  // ---- histories ----

  /** What clients do, and what happens to the cache meanwhile. */
  datatype Op =
    | OpRead(name: Name, off: nat, len: nat, weather: nat -> nat -> Weather)
    | OpWrite(name: Name, data: Bytes, off: nat)
    | OpFlush(name: Name)
    | OpForget(keys: set<Key>)            // eviction and expiry in memory
    | OpLoseFile(key: Key)                // a cache file vanishes
    | OpSweep(sweep: Weather)             // the periodic clean of the disk level
    | OpDeleteBlocks(keyID: nat, length: int) // the background part of some InvalidateCache
    | OpBreak(broken: set<Name>)          // the backing store starts or stops failing

  datatype Result = Failed | Data(bytes: Bytes) | Finished | Crashed

  /** Plain files: nothing but the contents, and which of them fail. */
  datatype Plain = Plain(contents: map<Name, Bytes>, broken: set<Name>)

  predicate OpOk(p: Plain, op: Op) {
    match op
    case OpRead(name, _, _, _) => name in p.contents
    case OpWrite(name, _, _) => name in p.contents
    case _ => true
  }

  function PlainStep(p: Plain, op: Op): Plain
    requires OpOk(p, op)
  {
    match op
    case OpWrite(name, data, off) =>
      if name in p.broken then p else p.(contents := p.contents[name := Written(p.contents[name], data, off)])
    case OpBreak(broken) => p.(broken := broken)
    case _ => p
  }

  /** The result a plain file gives; a failing file may fail to be read, unless the cache has it all, and
      a read from past the end inside a block may crash the client, unless the cache has that block. */
  predicate Agrees(p: Plain, blockSize: nat, op: Op, r: Result)
    requires OpOk(p, op) && blockSize > 0
  {
    match op
    case OpRead(name, off, len, _) =>
      || r == Data(Span(p.contents[name], off, len))
      || (r.Failed? && name in p.broken)
      || (r.Crashed? && PastEnd(p.contents[name], blockSize, off, len) && name !in p.broken)
    case OpWrite(name, _, _) => r == if name in p.broken then Failed else Finished
    case _ => r.Finished?
  }

  predicate HistoryOk(p: Plain, ops: seq<Op>)
    decreases |ops|
  {
    ops == [] || (OpOk(p, ops[0]) && HistoryOk(PlainStep(p, ops[0]), ops[1..]))
  }

  /** All results agree; after a crash there are no more. */
  predicate HistoryAgrees(p: Plain, blockSize: nat, ops: seq<Op>, results: seq<Result>)
    requires HistoryOk(p, ops) && blockSize > 0
    decreases |ops|
  {
    if ops == [] then results == []
    else
      && results != [] && Agrees(p, blockSize, ops[0], results[0])
      && (if results[0].Crashed? then |results| == 1
          else HistoryAgrees(PlainStep(p, ops[0]), blockSize, ops[1..], results[1..]))
  }

  /** No read of the history starts past the end of its file inside a block. */
  predicate WithinFiles(p: Plain, blockSize: nat, ops: seq<Op>)
    requires HistoryOk(p, ops) && blockSize > 0
    decreases |ops|
  {
    ops != [] ==>
      && (ops[0].OpRead? ==> !PastEnd(p.contents[ops[0].name], blockSize, ops[0].off, ops[0].len))
      && WithinFiles(PlainStep(p, ops[0]), blockSize, ops[1..])
  }

  /** Such histories run to their end without a crash. */
  lemma {:induction false} WithinFilesNeverCrash(p: Plain, blockSize: nat, ops: seq<Op>, results: seq<Result>)
    requires HistoryOk(p, ops) && blockSize > 0 && WithinFiles(p, blockSize, ops)
    requires HistoryAgrees(p, blockSize, ops, results)
    ensures |results| == |ops| && forall i | 0 <= i < |results| :: !results[i].Crashed?
    decreases |ops|
  {
    if ops != [] {
      WithinFilesNeverCrash(PlainStep(p, ops[0]), blockSize, ops[1..], results[1..]);
    }
  }

  ghost function View(store: Store): Plain
    reads store.ufs
  {
    Plain(store.ufs.contents, store.ufs.broken)
  }

  method Do(store: Store, op: Op) returns (r: Result)
    requires store.Coherent() && OpOk(View(store), op)
    modifies store, store.mem, store.disk, store.ufs
    ensures store.Coherent()
    ensures View(store) == PlainStep(old(View(store)), op) && Agrees(old(View(store)), store.blockSize, op, r)
    ensures op.OpWrite? || op.OpFlush? ==> op.name !in store.meta
    ensures op.OpDeleteBlocks? ==> forall i: nat | i * store.blockSize <= op.length :: store.Gone(Key(op.keyID, i))
  {
    match op
    case OpRead(name, off, len, weather) => r := DoRead(store, name, off, len, weather);
    case OpWrite(name, data, off) =>
      var failed := Write(store, name, data, off);
      r := if failed then Failed else Finished;
    case OpFlush(name) =>
      var keyID := store.InvalidateCache(name);
      r := Finished;
    case OpDeleteBlocks(keyID, length) =>
      store.DeleteBlocks(keyID, length);
      r := Finished;
    case OpBreak(broken) =>
      store.ufs.broken := broken;
      r := Finished;
    case _ =>
      Disturb(store, op);
      r := Finished;
  }

  method DoRead(store: Store, name: Name, off: nat, len: nat, weather: nat -> nat -> Weather) returns (r: Result)
    requires store.Coherent() && name in store.ufs.contents
    modifies store`meta, store`nextId, store.mem, store.disk
    ensures store.Coherent() && Agrees(View(store), store.blockSize, OpRead(name, off, len, weather), r)
    ensures r.Crashed? <==>
              && PastEnd(store.ufs.contents[name], store.blockSize, off, len)
              && !old(HoldsAt(store, name, off, weather(0)(0))) && name !in store.ufs.broken
  {
    var buf := new Byte[len](_ => 0);
    var got := Read(store, name, buf, off, weather);
    match got
    case ReadFailed => r := Failed;
    case Panicked => r := Crashed;
    case Count(n) => r := Data(buf[..n]);
  }

  /** The cache forgets. */
  method Disturb(store: Store, op: Op)
    requires store.Coherent() && (op.OpForget? || op.OpLoseFile? || op.OpSweep?)
    modifies store.mem, store.disk
    ensures store.Coherent()
  {
    if op.OpForget? && store.mem != null {
      FewerIsOk(store.mem.items, store.mem.items - op.keys, store.meta, store.nextId, store.blockSize,
                store.ufs.contents);
      store.mem.Forget(op.keys);
    }
    if !op.OpForget? && store.disk != null {
      ghost var held := store.disk.Held();
      if op.OpLoseFile? {
        store.disk.LoseFile(op.key);
      } else {
        store.disk.Clean(op.sweep);
      }
      FewerIsOk(held, store.disk.Held(), store.meta, store.nextId, store.blockSize, store.ufs.contents);
    }
  }

  /** Reads through the cache see every write: any history of reads, writes, flushes, evictions, expiries
      and background deletions gives the results that plain files give, up to a crash if there is one. */
  method Run(store: Store, ops: seq<Op>) returns (results: seq<Result>)
    requires store.Coherent() && HistoryOk(View(store), ops)
    modifies store, store.mem, store.disk, store.ufs
    ensures store.Coherent() && HistoryAgrees(old(View(store)), store.blockSize, ops, results)
    decreases |ops|
  {
    if ops == [] {
      return [];
    }
    var r := Do(store, ops[0]);
    if r.Crashed? {
      return [r];
    }
    var rest := Run(store, ops[1..]);
    results := [r] + rest;
    assert results[1..] == rest;
  }
}
