/** The two-level block cache of pkg/fs/client/cache: memory and disk levels that may forget anything at
    any time, and a store that names the blocks of a file by the file's current generation. */
module BlockCache {
  import opened Options

  type Byte = bv8
  type Bytes = seq<Byte>
  type Name = string

  /** The generation of a file and the number of a block. Generation 0 is the empty id of a file that
      has none; the other generations are uuids, never issued twice. */
  datatype Key = Key(id: nat, index: nat)

  const READ_AHEAD: nat := 2

  function Min(a: int, b: int): int { if a < b then a else b }

  /** What ReadAt of the backing store gives: short at the end of the file only. */
  function Span(content: Bytes, off: nat, n: nat): (b: Bytes)
    ensures |b| == if off >= |content| then 0 else Min(n, |content| - off)
    ensures forall i | 0 <= i < |b| :: b[i] == content[off + i]
  {
    content[Min(off, |content|)..Min(off + n, |content|)]
  }

  function Block(content: Bytes, blockSize: nat, index: nat): Bytes { Span(content, index * blockSize, blockSize) }

  // ---- the memory level ----

  /** What eviction, the clock, the disk and df do during one operation; stuck are the files that cannot
      be removed. */
  datatype Weather = Weather(evicted: set<Key>, now: int, diskOk: bool, stuck: set<Key>, df: Option<(int, int)>)

  class MemCache {
    var items: map<Key, Bytes>

    constructor ()
      ensures items == map[]
    {
      items := map[];
    }

    method Load(key: Key) returns (item: Option<Bytes>)
      ensures item == if key in items then Some(items[key]) else None
    {
      item := if key in items then Some(items[key]) else None;
    }

    /** Setting an item may push out any others. */
    method Save(key: Key, buf: Bytes, weather: Weather)
      modifies this
      ensures items == (old(items) - weather.evicted)[key := buf]
    {
      items := (items - weather.evicted)[key := buf];
    }

    method Delete(key: Key)
      modifies this
      ensures items == old(items) - {key}
    {
      items := items - {key};
    }

    /** Eviction and expiry between operations. */
    method Forget(keys: set<Key>)
      modifies this
      ensures items == old(items) - keys
    {
      items := items - keys;
    }
  }

  // ---- the disk level ----

  datatype CacheItem = CacheItem(size: nat, expTime: int)

  /** What load can return under a key, and until when. */
  datatype Item = Item(bytes: Bytes, expTime: int)

  datatype Space = Space(capacity: int, used: int)

  predicate HasRoom(s: Space, n: nat) { s.used + n < s.capacity }

  /** The space after an item of n bytes was to be saved: a full disk is swept, and df is asked again. */
  function SpaceAfter(s: Space, n: nat, weather: Weather): Space {
    if HasRoom(s, n) || weather.df.None? then s else Space(weather.df.value.0, weather.df.value.1)
  }

  class DiskCache {
    var capacity: int
    var used: int
    const expire: int
    var keys: map<Key, CacheItem>
    var files: map<Key, Bytes> // the files below the cache directory

    constructor (expire: int, capacity: int, used: int)
      ensures this.expire == expire && keys == map[] && files == map[]
    {
      this.expire, this.capacity, this.used := expire, capacity, used;
      keys, files := map[], map[];
    }

    /** What load can still return: registered items whose file is there. */
    ghost function Held(): map<Key, Bytes>
      reads `keys, `files
    {
      map k | k in keys && k in files :: files[k]
    }

    ghost function Items(): map<Key, Item>
      reads `keys, `files
    {
      map k | k in keys && k in files :: Item(files[k], keys[k].expTime)
    }

    function Room(): Space
      reads `capacity, `used
    {
      Space(capacity, used)
    }

    predicate Exist(key: Key, now: int)
      reads `keys
    {
      key in keys && keys[key].expTime - now > 0
    }

    method Load(key: Key, weather: Weather) returns (item: Option<Bytes>)
      ensures item.Some? ==> key in Held() && item.value == Held()[key]
      ensures item.Some? <==> key in Held() && keys[key].expTime > weather.now && weather.diskOk
    {
      if !Exist(key, weather.now) {
        return None;
      }
      if key !in files || !weather.diskOk {
        return None;
      }
      item := Some(files[key]);
    }

    /** Forgets the item at once; the file goes later, by LoseFile or in a sweep. */
    method Delete(key: Key)
      modifies `keys
      ensures keys == old(keys) - {key}
    {
      if key in keys {
        keys := keys - {key};
      }
    }

    /** A file is removed in the background, or from outside. */
    method LoseFile(key: Key)
      modifies `files
      ensures files == old(files) - {key}
    {
      files := files - {key};
    }

    method UpdateCapacity(df: Option<(int, int)>)
      modifies `capacity, `used
      ensures (capacity, used) == if df.Some? then df.value else (old(capacity), old(used))
    {
      if df.Some? {
        capacity, used := df.value.0, df.value.1;
      }
    }

    /** clean: drop the expired items, then remove every file without an item, up to the first that cannot
        be removed, then ask df again. What can be loaded afterwards does not depend on where the walk
        stopped. */
    method Clean(weather: Weather)
      modifies this
      ensures forall k :: k in keys <==> k in old(keys) && old(keys[k]).expTime > weather.now
      ensures forall k | k in keys :: keys[k] == old(keys[k])
      ensures forall k :: k in Held() <==> k in old(Held()) && old(keys[k]).expTime > weather.now
      ensures forall k | k in files :: k in old(files) && files[k] == old(files[k])
      ensures forall k | k in old(files) && (k in keys || k in weather.stuck) :: k in files
      ensures (exists k :: k in files && k !in keys) ==> exists k :: k in files && k !in keys && k in weather.stuck
      ensures (capacity, used) == if weather.df.Some? then weather.df.value else (old(capacity), old(used))
    {
      DropExpired(weather.now);
      RemoveLeftovers(weather.stuck);
      UpdateCapacity(weather.df);
    }

    method DropExpired(now: int)
      modifies `keys
      ensures forall k :: k in keys <==> k in old(keys) && old(keys[k]).expTime > now
      ensures forall k | k in keys :: keys[k] == old(keys[k])
    {
      var rest := keys.Keys;
      while rest != {}
        invariant rest <= keys.Keys <= old(keys).Keys
        invariant forall k | k in keys :: keys[k] == old(keys[k])
        invariant forall k | k in old(keys) && k !in rest :: k in keys <==> old(keys[k]).expTime > now
        decreases rest
      {
        var key :| key in rest;
        rest := rest - {key};
        if now - keys[key].expTime >= 0 {
          Delete(key);
        }
      }
    }

    /** The walk over the cache directory. */
    method RemoveLeftovers(stuck: set<Key>)
      modifies `files
      ensures forall k | k in files :: k in old(files) && files[k] == old(files[k])
      ensures forall k | k in old(files) && (k in keys || k in stuck) :: k in files
      ensures (exists k :: k in files && k !in keys) ==> exists k :: k in files && k !in keys && k in stuck
    {
      var walked := files.Keys;
      while walked != {}
        invariant walked <= files.Keys <= old(files).Keys
        invariant forall k | k in files :: files[k] == old(files[k])
        invariant forall k | k in old(files) && (k in keys || k in stuck) :: k in files
        invariant forall k | k in files && k !in walked :: k in keys
        decreases walked
      {
        var key :| key in walked;
        walked := walked - {key};
        if key !in keys {
          if key in stuck {
            return;
          }
          files := files - {key};
        }
      }
    }

    /** save: sweep when the disk is full, and skip the item when that does not help. */
    method Save(key: Key, buf: Bytes, weather: Weather) returns (saved: bool)
      modifies this
      ensures saved <==> used + |buf| < capacity && weather.diskOk
      ensures saved ==> key in Items() && Items()[key] == Item(buf, weather.now + expire)
      ensures Room() == SpaceAfter(old(Room()), |buf|, weather)
      ensures forall k | k != key || !saved ::
                k in Items() <==>
                k in old(Items()) && (HasRoom(old(Room()), |buf|) || old(Items())[k].expTime > weather.now)
      ensures forall k | k in Items() && (k != key || !saved) :: k in old(Items()) && Items()[k] == old(Items())[k]
    {
      if used + |buf| >= capacity {
        Clean(weather);
      }
      if used + |buf| >= capacity {
        return false;
      }
      if !weather.diskOk {
        return false;
      }
      files := files[key := buf];
      keys := keys[key := CacheItem(|buf|, weather.now + expire)];
      saved := true;
    }
  }

  // ---- what the levels may hold ----

  /** Different files have different generations, all of them issued. */
  ghost predicate MetaOk(meta: map<Name, nat>, nextId: nat) {
    && (forall n | n in meta :: 0 < meta[n] < nextId)
    && (forall m, n | m in meta && n in meta && m != n :: meta[m] != meta[n])
  }

  /** Nothing is held under the empty id or an id not yet issued, and whatever is held under the current
      generation of a file is a block of the file as it is now. */
  ghost predicate LevelOk(held: map<Key, Bytes>, meta: map<Name, nat>, nextId: nat, blockSize: nat,
                          contents: map<Name, Bytes>) {
    && (forall k | k in held :: 0 < k.id < nextId)
    && (forall k, n | k in held && n in meta && meta[n] == k.id ::
          n in contents && held[k] == Block(contents[n], blockSize, k.index))
  }

  lemma FewerIsOk(held: map<Key, Bytes>, fewer: map<Key, Bytes>, meta: map<Name, nat>, nextId: nat,
                  blockSize: nat, contents: map<Name, Bytes>)
    requires LevelOk(held, meta, nextId, blockSize, contents)
    requires forall k | k in fewer :: k in held && fewer[k] == held[k]
    ensures LevelOk(fewer, meta, nextId, blockSize, contents)
  {
  }

  lemma SavedIsOk(held: map<Key, Bytes>, next: map<Key, Bytes>, key: Key, meta: map<Name, nat>, nextId: nat,
                  blockSize: nat, contents: map<Name, Bytes>, name: Name)
    requires LevelOk(held, meta, nextId, blockSize, contents) && MetaOk(meta, nextId)
    requires name in meta && key.id == meta[name] && name in contents
    requires forall k | k in next && k != key :: k in held && next[k] == held[k]
    requires key in next ==> next[key] == Block(contents[name], blockSize, key.index)
                             || (key in held && next[key] == held[key])
    ensures LevelOk(next, meta, nextId, blockSize, contents)
  {
  }

  /** A name without a generation gets a new one: nothing is held under it. */
  lemma IssuedIsOk(held: map<Key, Bytes>, meta: map<Name, nat>, nextId: nat,
                   blockSize: nat, contents: map<Name, Bytes>, name: Name)
    requires LevelOk(held, meta, nextId, blockSize, contents) && MetaOk(meta, nextId) && name !in meta && nextId > 0
    ensures LevelOk(held, meta[name := nextId], nextId + 1, blockSize, contents)
    ensures MetaOk(meta[name := nextId], nextId + 1)
  {
  }

  // ---- block arithmetic ----

  function BlockCount(n: nat, blockSize: nat): (count: nat)
    requires blockSize > 0
  {
    if n > 0 then (n - 1) / blockSize + 1 else 1
  }

  lemma BlockStart(n: nat, blockSize: nat, i: nat)
    requires blockSize > 0 && i < BlockCount(n, blockSize)
    ensures i * blockSize <= n && (n > 0 ==> i * blockSize < n) && (i + 1) * blockSize == i * blockSize + blockSize
    ensures Min(Min(i * blockSize, n) + blockSize, n) == Min((i + 1) * blockSize, n)
  {
    if n > 0 {
      var q := (n - 1) / blockSize;
      assert i <= q;
      assert q * blockSize <= n - 1;
      MulMono(i, q, blockSize);
    }
  }

  lemma MulMono(a: nat, b: nat, c: nat)
    requires a <= b
    ensures a * c <= b * c
  {
  }

  lemma Distributes(a: nat, b: nat, c: nat)
    ensures (a + b) * c == a * c + b * c
  {
  }

  lemma PieceFits(n: nat, blockSize: nat, i: nat)
    requires blockSize > 0 && i < BlockCount(n, blockSize) && n <= READ_AHEAD * blockSize
    ensures i * blockSize + blockSize <= READ_AHEAD * blockSize
  {
    BlockStart(n, blockSize, i);
    if i >= READ_AHEAD {
      MulMono(READ_AHEAD, i, blockSize);
    } else {
      MulMono(i + 1, READ_AHEAD, blockSize);
    }
  }

  /** The i-th piece of what was read ahead is the i-th block from there on. */
  lemma PieceIsBlock(content: Bytes, blockSize: nat, index: nat, i: nat, p: Bytes, n: nat)
    requires blockSize > 0 && n <= |p| && i < BlockCount(n, blockSize)
    requires p[..n] == Span(content, index * blockSize, READ_AHEAD * blockSize)
    ensures i * blockSize <= n
    ensures p[i * blockSize..Min(i * blockSize + blockSize, n)] == Block(content, blockSize, index + i)
  {
    BlockStart(n, blockSize, i);
    Distributes(index, i, blockSize);
    PieceFits(n, blockSize, i);
    PieceOfSpan(content, index * blockSize, READ_AHEAD * blockSize, blockSize, i * blockSize, p, n);
  }

  lemma SliceIsBlock(content: Bytes, blockSize: nat, index: nat, i: nat, left: nat, right: nat, p: Bytes, n: nat)
    requires blockSize > 0 && n <= |p| && i < BlockCount(n, blockSize)
    requires p[..n] == Span(content, index * blockSize, READ_AHEAD * blockSize)
    requires left == Min(i * blockSize, n) && right == Min(left + blockSize, n)
    ensures left <= right <= |p| && p[left..right] == Block(content, blockSize, index + i)
  {
    BlockStart(n, blockSize, i);
    PieceIsBlock(content, blockSize, index, i, p, n);
  }

  lemma PieceOfSpan(content: Bytes, base: nat, ahead: nat, blockSize: nat, from: nat, p: Bytes, n: nat)
    requires n <= |p| && p[..n] == Span(content, base, ahead)
    requires from + blockSize <= ahead && (from < n || n == 0 == from)
    ensures p[from..Min(from + blockSize, n)] == Span(content, base + from, blockSize)
  {
    var to := Min(from + blockSize, n);
    assert |Span(content, base + from, blockSize)| == to - from;
    forall j | 0 <= j < to - from
      ensures p[from..to][j] == Span(content, base + from, blockSize)[j]
    {
      assert p[..n][from + j] == content[base + from + j];
    }
  }

  // ---- the store ----

  /** The backing file system; a broken file fails to be read or written. */
  class Ufs {
    var contents: map<Name, Bytes>
    var broken: set<Name>

    constructor (contents: map<Name, Bytes>)
      ensures this.contents == contents && broken == {}
    {
      this.contents, broken := contents, {};
    }
  }

  /** Eviction leaves k alone while the rounds from..to are saved. */
  ghost predicate Spared(weather: nat -> Weather, k: Key, from: nat, to: nat) {
    forall j: nat | from <= j < to :: k !in weather(j).evicted
  }

  /** After count rounds of setCache all blocks from `first` on are in memory, unless a later round has
      pushed them out. */
  ghost predicate Filled(held: set<Key>, id: nat, first: nat, weather: nat -> Weather, count: nat) {
    forall k: Key {:trigger k in held} | k.id == id && first <= k.index < first + count ::
      Spared(weather, k, k.index - first + 1, count) ==> k in held
  }

  /** The rounds of one call of setCache: round j saves the block `first + j`, beginning with this much
      space on the disk. */
  datatype Fill = Fill(space: Space, content: Bytes, blockSize: nat, first: nat, expire: int, weather: nat -> Weather)
  {
    function Piece(j: nat): Bytes { Block(content, blockSize, first + j) }

    /** The space left after j rounds. */
    function SpaceAt(j: nat): Space {
      if j == 0 then space else SpaceAfter(SpaceAt(j - 1), |Piece(j - 1)|, weather(j - 1))
    }

    /** Round j finds room, if need be after a sweep, and the disk works. */
    predicate Saves(j: nat) { HasRoom(SpaceAt(j + 1), |Piece(j)|) && weather(j).diskOk }

    /** What round j saves. */
    function ItemOf(j: nat): Item { Item(Piece(j), weather(j).now + expire) }

    /** Round i does not sweep the item away. */
    predicate Spares(i: nat, item: Item) { HasRoom(SpaceAt(i), |Piece(i)|) || item.expTime > weather(i).now }

    /** Round j saves its block, and no later round before count sweeps it away. */
    ghost predicate Keeps(j: nat, count: nat) {
      Saves(j) && forall i: nat | j < i < count :: Spares(i, ItemOf(j))
    }

    /** The block of round j is on the disk with its bytes. */
    predicate Stands(items: map<Key, Item>, id: nat, j: nat) {
      Key(id, first + j) in items && items[Key(id, first + j)] == ItemOf(j)
    }

    /** After count rounds all blocks that have been saved and kept are on the disk. */
    ghost predicate OnDisk(items: map<Key, Item>, id: nat, count: nat) {
      forall j: nat {:trigger Stands(items, id, j)} | j < count && Keeps(j, count) :: Stands(items, id, j)
    }
  }

  /** What one Save has done to the items. */
  ghost predicate SavedOne(items: map<Key, Item>, next: map<Key, Item>, s: Space, key: Key, buf: Bytes, expire: int,
                           weather: Weather) {
    var saved := HasRoom(SpaceAfter(s, |buf|, weather), |buf|) && weather.diskOk;
    && (saved ==> key in next && next[key] == Item(buf, weather.now + expire))
    && (forall k | k in items && (k != key || !saved) && (HasRoom(s, |buf|) || items[k].expTime > weather.now) ::
          k in next && next[k] == items[k])
  }

  lemma EarlierIsKept(fill: Fill, items: map<Key, Item>, next: map<Key, Item>, id: nat, j: nat, count: nat)
    requires j < count && fill.Spares(count, fill.ItemOf(j)) && fill.Stands(items, id, j)
    requires SavedOne(items, next, fill.SpaceAt(count), Key(id, fill.first + count), fill.Piece(count), fill.expire,
                      fill.weather(count))
    ensures fill.Stands(next, id, j)
  {
  }

  lemma LastIsSaved(fill: Fill, items: map<Key, Item>, next: map<Key, Item>, id: nat, count: nat)
    requires fill.Saves(count)
    requires SavedOne(items, next, fill.SpaceAt(count), Key(id, fill.first + count), fill.Piece(count), fill.expire,
                      fill.weather(count))
    ensures fill.Stands(next, id, count)
  {
    assert fill.SpaceAt(count + 1) == SpaceAfter(fill.SpaceAt(count), |fill.Piece(count)|, fill.weather(count));
  }

  lemma FewerRounds(fill: Fill, j: nat, count: nat)
    requires fill.Keeps(j, count + 1) && j < count
    ensures fill.Keeps(j, count) && fill.Spares(count, fill.ItemOf(j))
  {
  }

  lemma OneStands(fill: Fill, items: map<Key, Item>, next: map<Key, Item>, id: nat, j: nat, count: nat)
    requires j <= count && fill.Keeps(j, count + 1) && (j < count && fill.Keeps(j, count) ==> fill.Stands(items, id, j))
    requires SavedOne(items, next, fill.SpaceAt(count), Key(id, fill.first + count), fill.Piece(count), fill.expire,
                      fill.weather(count))
    ensures fill.Stands(next, id, j)
  {
    if j < count {
      FewerRounds(fill, j, count);
      EarlierIsKept(fill, items, next, id, j, count);
    } else {
      LastIsSaved(fill, items, next, id, count);
    }
  }

  lemma OnDiskOneMore(fill: Fill, items: map<Key, Item>, next: map<Key, Item>, id: nat, count: nat)
    requires fill.OnDisk(items, id, count)
    requires SavedOne(items, next, fill.SpaceAt(count), Key(id, fill.first + count), fill.Piece(count), fill.expire,
                      fill.weather(count))
    ensures fill.OnDisk(next, id, count + 1)
  {
    forall j: nat | j < count + 1 && fill.Keeps(j, count + 1)
      ensures fill.Stands(next, id, j)
    {
      OneStands(fill, items, next, id, j, count);
    }
  }

  lemma FilledOneMore(held: set<Key>, id: nat, first: nat, weather: nat -> Weather, count: nat)
    requires Filled(held, id, first, weather, count)
    ensures Filled((held - weather(count).evicted) + {Key(id, first + count)}, id, first, weather, count + 1)
  {
    var next := (held - weather(count).evicted) + {Key(id, first + count)};
    forall k: Key | k.id == id && first <= k.index < first + count + 1
                    && Spared(weather, k, k.index - first + 1, count + 1)
      ensures k in next
    {
      if k.index < first + count {
        assert Spared(weather, k, k.index - first + 1, count);
        assert k in held && k !in weather(count).evicted;
      } else {
        assert k == Key(id, first + count);
      }
    }
  }

  class Store {
    const blockSize: nat
    const mem: MemCache?
    const disk: DiskCache?
    const ufs: Ufs
    var meta: map<Name, nat>
    var nextId: nat // stands for the uuids issued so far

    constructor (blockSize: nat, mem: MemCache?, disk: DiskCache?, ufs: Ufs)
      requires blockSize > 0
      requires mem != null ==> mem.items == map[]
      requires disk != null ==> disk.keys == map[]
      ensures this.blockSize == blockSize && this.mem == mem && this.disk == disk && this.ufs == ufs
      ensures Coherent() && meta == map[]
    {
      this.blockSize, this.mem, this.disk, this.ufs := blockSize, mem, disk, ufs;
      meta, nextId := map[], 1;
    }

    ghost predicate Coherent()
      reads this, mem, disk, ufs`contents
    {
      && blockSize > 0 && nextId > 0
      && MetaOk(meta, nextId)
      && (mem != null ==> LevelOk(mem.items, meta, nextId, blockSize, ufs.contents))
      && (disk != null ==> LevelOk(disk.Held(), meta, nextId, blockSize, ufs.contents))
    }

    /** rCache.key: the key is made from the generation the file had before the call, so the first call
        for a file returns a key with the empty id, and only later calls see the new generation. */
    method KeyOf(name: Name, index: nat) returns (key: Key)
      requires Coherent()
      modifies `meta, `nextId
      ensures Coherent()
      ensures key == Key(if name in old(meta) then old(meta[name]) else 0, index)
      ensures name in meta && (name in old(meta) ==> meta == old(meta))
      ensures meta == old(meta)[name := meta[name]]
    {
      var keyID := if name in meta then meta[name] else 0;
      if keyID == 0 {
        if mem != null {
          IssuedIsOk(mem.items, meta, nextId, blockSize, ufs.contents, name);
        }
        if disk != null {
          IssuedIsOk(disk.Held(), meta, nextId, blockSize, ufs.contents, name);
        }
        meta, nextId := meta[name := nextId], nextId + 1;
      }
      key := Key(keyID, index);
    }

    /** readCache: memory first, then disk. A hit under a key of the file is the file's block; a key
        with the empty id never hits. */
    method LoadBlock(key: Key, weather: Weather) returns (block: Option<Bytes>)
      requires Coherent()
      ensures key.id == 0 ==> block.None?
      ensures forall n | n in meta && meta[n] == key.id && block.Some? ::
                n in ufs.contents && block.value == Block(ufs.contents[n], blockSize, key.index)
      ensures mem != null && key in mem.items ==> block == Some(mem.items[key])
      ensures mem == null || key !in mem.items ==>
                (block.Some? <==> disk != null && key in disk.Held() && disk.Exist(key, weather.now) && weather.diskOk)
    {
      if mem != null {
        block := mem.Load(key);
        if block.Some? {
          return;
        }
      }
      if disk != null {
        block := disk.Load(key, weather);
        return;
      }
      block := None;
    }

    /** The levels have a block under the current generation of the file, and can give it. */
    ghost predicate Holds(name: Name, index: nat, weather: Weather)
      reads this, mem, disk
    {
      name in meta &&
      var key := Key(meta[name], index);
      || (mem != null && key in mem.items)
      || (disk != null && key in disk.Held() && disk.Exist(key, weather.now) && weather.diskOk)
    }

    /** The key of a block of a file, and what the levels have under it: nothing on the first call for the
        file, and otherwise nothing but that very block. */
    method LookUp(name: Name, index: nat, weather: Weather) returns (block: Option<Bytes>)
      requires Coherent() && name in ufs.contents
      modifies `meta, `nextId
      ensures Coherent() && name in meta
      ensures block.Some? <==> old(Holds(name, index, weather))
      ensures block.Some? ==> forall i, w :: Holds(name, i, w) == old(Holds(name, i, w))
      ensures block.Some? ==> block.value == Block(ufs.contents[name], blockSize, index)
    {
      var key := KeyOf(name, index);
      block := LoadBlock(key, weather);
    }

    /** One round of the loop in setCache. */
    method SaveBlock(name: Name, key: Key, p: Bytes, weather: Weather)
      requires Coherent() && name in meta && key.id == meta[name] && name in ufs.contents
      requires p == Block(ufs.contents[name], blockSize, key.index)
      modifies mem, disk
      ensures Coherent()
      ensures mem != null ==> mem.items.Keys == (old(mem.items.Keys) - weather.evicted) + {key}
      ensures disk != null ==>
                && disk.Room() == SpaceAfter(old(disk.Room()), |p|, weather)
                && SavedOne(old(disk.Items()), disk.Items(), old(disk.Room()), key, p, disk.expire, weather)
    {
      if mem != null {
        SavedIsOk(mem.items, (mem.items - weather.evicted)[key := p], key, meta, nextId, blockSize, ufs.contents, name);
        mem.Save(key, p, weather);
      }
      if disk != null {
        SaveOnDisk(name, key, p, weather);
      }
    }

    method SaveOnDisk(name: Name, key: Key, p: Bytes, weather: Weather)
      requires disk != null && Coherent() && name in meta && key.id == meta[name] && name in ufs.contents
      requires p == Block(ufs.contents[name], blockSize, key.index)
      modifies disk
      ensures Coherent()
      ensures disk.Room() == SpaceAfter(old(disk.Room()), |p|, weather)
      ensures SavedOne(old(disk.Items()), disk.Items(), old(disk.Room()), key, p, disk.expire, weather)
    {
      ghost var held, items := disk.Held(), disk.Items();
      var saved := disk.Save(key, p, weather);
      forall k | k in disk.Held() && k != key
        ensures k in held && disk.Held()[k] == held[k]
      {
        assert k in disk.Items() && k in items && disk.Items()[k] == items[k];
      }
      assert key in disk.Held() && !saved ==> key in items && disk.Items()[key] == items[key];
      assert key in disk.Held() && saved ==> disk.Items()[key].bytes == p;
      SavedIsOk(held, disk.Held(), key, meta, nextId, blockSize, ufs.contents, name);
    }

    /** The rounds of setCache that begin now with the block `first`. */
    ghost function FillFrom(name: Name, first: nat, weather: nat -> Weather): Fill
      requires disk != null && name in ufs.contents
      reads this, disk, ufs`contents
    {
      Fill(disk.Room(), ufs.contents[name], blockSize, first, disk.expire, weather)
    }

    /** What setCache has put into the levels after count rounds. */
    ghost predicate HasFilled(fill: Fill, id: nat, count: nat)
      reads this, mem, disk
    {
      && (mem != null ==> Filled(mem.items.Keys, id, fill.first, fill.weather, count))
      && (disk != null ==> disk.Room() == fill.SpaceAt(count) && fill.OnDisk(disk.Items(), id, count))
    }

    /** setCache: cut the n bytes that were read into blocks. `p` starts at the first byte of the block
        that holds `off`. */
    method SetCache(name: Name, off: nat, p: Bytes, n: nat, weather: nat -> Weather)
      requires Coherent() && name in meta && name in ufs.contents
      requires n <= |p| && p[..n] == Span(ufs.contents[name], off / blockSize * blockSize, READ_AHEAD * blockSize)
      modifies `meta, `nextId, mem, disk
      ensures Coherent() && meta == old(meta)
      ensures mem != null ==>
                Filled(mem.items.Keys, meta[name], off / blockSize, weather, BlockCount(n, blockSize))
      ensures disk != null ==>
                old(FillFrom(name, off / blockSize, weather)).OnDisk(disk.Items(), meta[name], BlockCount(n, blockSize))
    {
      SetBlocks(name, off / blockSize, p, n, weather);
    }

    method SetBlocks(name: Name, index: nat, p: Bytes, n: nat, weather: nat -> Weather)
      requires Coherent() && name in meta && name in ufs.contents
      requires n <= |p| && p[..n] == Span(ufs.contents[name], index * blockSize, READ_AHEAD * blockSize)
      modifies `meta, `nextId, mem, disk
      ensures Coherent() && meta == old(meta)
      ensures mem != null ==> Filled(mem.items.Keys, meta[name], index, weather, BlockCount(n, blockSize))
      ensures disk != null ==>
                old(FillFrom(name, index, weather)).OnDisk(disk.Items(), meta[name], BlockCount(n, blockSize))
    {
      ghost var fill := if disk != null then FillFrom(name, index, weather)
                        else Fill(Space(0, 0), ufs.contents[name], blockSize, index, 0, weather);
      var blockNum := BlockCount(n, blockSize);
      var left := 0;
      for i := 0 to blockNum
        invariant Coherent() && meta == old(meta)
        invariant left == Min(i * blockSize, n)
        invariant HasFilled(fill, meta[name], i)
      {
        BlockStart(n, blockSize, i);
        var right := SetRound(name, index, i, left, p, n, weather, fill);
        left := left + (right - left);
      }
    }

    ghost predicate Fits(name: Name, index: nat, weather: nat -> Weather, fill: Fill)
      reads this, disk, ufs`contents
    {
      && name in ufs.contents && fill.content == ufs.contents[name] && fill.blockSize == blockSize
      && fill.first == index && fill.weather == weather && (disk != null ==> fill.expire == disk.expire)
    }

    /** One round of the loop, and what it adds. */
    method SetRound(name: Name, index: nat, i: nat, left: nat, p: Bytes, n: nat, weather: nat -> Weather,
                    ghost fill: Fill) returns (right: nat)
      requires Coherent() && name in meta && Fits(name, index, weather, fill)
      requires n <= |p| && p[..n] == Span(ufs.contents[name], index * blockSize, READ_AHEAD * blockSize)
      requires i < BlockCount(n, blockSize) && left == Min(i * blockSize, n) && HasFilled(fill, meta[name], i)
      modifies `meta, `nextId, mem, disk
      ensures Coherent() && meta == old(meta)
      ensures right == Min(left + blockSize, n) && HasFilled(fill, meta[name], i + 1)
    {
      ghost var items := if disk != null then disk.Items() else map[];
      if mem != null {
        FilledOneMore(mem.items.Keys, meta[name], index, weather, i);
      }
      right := SetBlock(name, index, i, left, p, n, weather(i));
      if disk != null {
        OnDiskOneMore(fill, items, disk.Items(), meta[name], i);
      }
    }

    method SetBlock(name: Name, index: nat, i: nat, left: nat, p: Bytes, n: nat, weather: Weather) returns (right: nat)
      requires Coherent() && name in meta && name in ufs.contents
      requires n <= |p| && p[..n] == Span(ufs.contents[name], index * blockSize, READ_AHEAD * blockSize)
      requires i < BlockCount(n, blockSize) && left == Min(i * blockSize, n)
      modifies `meta, `nextId, mem, disk
      ensures Coherent() && meta == old(meta)
      ensures right == Min(left + blockSize, n)
      ensures mem != null ==>
                mem.items.Keys == (old(mem.items.Keys) - weather.evicted) + {Key(meta[name], index + i)}
      ensures disk != null ==>
                var block := Block(ufs.contents[name], blockSize, index + i);
                && disk.Room() == SpaceAfter(old(disk.Room()), |block|, weather)
                && SavedOne(old(disk.Items()), disk.Items(), old(disk.Room()), Key(meta[name], index + i), block,
                            disk.expire, weather)
    {
      right := left + blockSize;
      if right > n {
        right := n;
      }
      SliceIsBlock(ufs.contents[name], blockSize, index, i, left, right, p, n);
      var key := KeyOf(name, index + i);
      SaveBlock(name, key, p[left..right], weather);
    }

    /** InvalidateCache drops the generation of the file; the blocks themselves are deleted in the
        background. */
    method InvalidateCache(name: Name) returns (keyID: Option<nat>)
      requires Coherent()
      modifies `meta
      ensures Coherent() && meta == old(meta) - {name}
      ensures keyID == if name in old(meta) then Some(old(meta[name])) else None
    {
      if name !in meta {
        assert meta - {name} == meta;
        return None;
      }
      keyID := Some(meta[name]);
      meta := meta - {name};
    }

    /** The background loop of InvalidateCache. */
    method DeleteBlocks(keyID: nat, length: int)
      requires Coherent()
      modifies mem, disk
      ensures Coherent()
      ensures forall i: nat | i * blockSize <= length :: Gone(Key(keyID, i))
    {
      var write, index := 0, 0;
      while write <= length
        invariant Coherent() && write == index * blockSize && index >= 0
        invariant forall i: nat | i < index :: Gone(Key(keyID, i))
        decreases length - write
      {
        var key := Key(keyID, index);
        DeleteBlock(key);
        write := write + blockSize;
        index := index + 1;
      }
      forall i: nat | i * blockSize <= length
        ensures Gone(Key(keyID, i))
      {
        if index <= i {
          MulMono(index, i, blockSize);
        }
      }
    }

    ghost predicate Gone(key: Key)
      reads mem, disk
    {
      (mem != null ==> key !in mem.items) && (disk != null ==> key !in disk.keys)
    }

    method DeleteBlock(key: Key)
      requires Coherent()
      modifies mem, disk
      ensures Coherent()
      ensures mem != null ==> mem.items == old(mem.items) - {key}
      ensures disk != null ==> disk.keys == old(disk.keys) - {key}
    {
      if mem != null {
        FewerIsOk(mem.items, mem.items - {key}, meta, nextId, blockSize, ufs.contents);
        mem.Delete(key);
      }
      if disk != null {
        ghost var held := disk.Held();
        disk.Delete(key);
        FewerIsOk(held, disk.Held(), meta, nextId, blockSize, ufs.contents);
      }
    }
  }

  /** Where the disk level keeps its files, how long they last, and what df says when it is made. */
  datatype DiskConfig = DiskConfig(dir: string, expire: int, capacity: int, used: int)

  /** NewCacheStore. A level whose configuration is of no use is left out, and a store without any level
      passes every read on. */
  method NewCacheStore(memSize: Option<int>, diskConfig: Option<DiskConfig>, blockSize: nat, ufs: Ufs)
      returns (store: Store?)
    ensures store == null <==> (memSize.None? && diskConfig.None?) || blockSize == 0
    ensures store != null ==>
              && fresh(store) && store.ufs == ufs && store.blockSize == blockSize
              && store.Coherent() && store.meta == map[]
              && (store.mem != null <==> memSize.Some? && memSize.value > 0)
              && (store.disk != null <==> diskConfig.Some? && diskConfig.value.dir !in ["", "/"])
              && (store.mem != null ==> fresh(store.mem) && store.mem.items == map[])
              && (store.disk != null ==> fresh(store.disk) && store.disk.Held() == map[])
  {
    if (memSize.None? && diskConfig.None?) || blockSize == 0 {
      return null;
    }
    var mem: MemCache?, disk: DiskCache? := null, null;
    if memSize.Some? && memSize.value > 0 {
      mem := new MemCache();
    }
    if diskConfig.Some? && diskConfig.value.dir !in ["", "/"] {
      disk := new DiskCache(diskConfig.value.expire, diskConfig.value.capacity, diskConfig.value.used);
    }
    store := new Store(blockSize, mem, disk, ufs);
  }
}
