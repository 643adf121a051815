/**
 * The on-disk FIFO response cache `FileFifoCache`: one JSON file per key, named by the
 * key's digest, and an index file `index.json` holding `{ order: [...] }`, the keys in
 * order of first write. A write evicts from the front of `order` until at most
 * `capacity` keys remain. Every fault is swallowed: a read degrades to `null`, a write
 * to a silent early return.
 */
module Cache {
  import opened Wrappers
  import opened Json
  import opened Disk
  import opened Sequences

  /** A lower-case hexadecimal SHA-1 digest: 40 characters. */
  predicate IsHexDigest(s: string) {
    |s| == 40 && forall i :: 0 <= i < |s| ==> s[i] in "0123456789abcdef"
  }

  type Digest = s: string | IsHexDigest(s) witness "0000000000000000000000000000000000000000"

  /** The faults a `read` can meet: `ensureDir` throws, or `readFile` rejects. */
  datatype ReadFaults = ReadFaults(dirFails: bool, readFails: bool)

  /**
   * The faults a `write` can meet, one flag per step that can throw; `unlinkFails` holds
   * the entry paths whose `unlink` rejects.
   */
  datatype WriteFaults = WriteFaults(
    dirFails: bool,
    indexReadFails: bool,
    entryWriteFails: bool,
    entryRenameFails: bool,
    unlinkFails: set<string>,
    indexWriteFails: bool,
    indexRenameFails: bool)

  /** `{ order: [] }`, what `readIndex` falls back to. */
  const EMPTY_INDEX: seq<(string, Json)> := [("order", Arr([]))]

  /** A write that meets no fault. */
  const NO_WRITE_FAULTS: WriteFaults := WriteFaults(false, false, false, false, {}, false, false)

  /** The index object has an `order` member that is an array. */
  predicate HasOrder(idx: seq<(string, Json)>) {
    Lookup(idx, "order").Some? && Lookup(idx, "order").value.Arr?
  }

  function OrderOf(idx: seq<(string, Json)>): seq<Json>
    requires HasOrder(idx)
  {
    Lookup(idx, "order").value.items
  }

  /**
   * What `readIndex` returns for the index file's contents (`None`: missing or unreadable):
   * the parsed object when it is an object with an `order` array, `{ order: [] }` otherwise.
   */
  function DecodeIndex(raw: Option<Text>): (idx: seq<(string, Json)>)
    ensures HasOrder(idx)
    ensures raw.Some? && raw.value.Encoded? && raw.value.value.Obj? && HasOrder(raw.value.value.members)
            ==> idx == raw.value.value.members
    ensures !(raw.Some? && raw.value.Encoded? && raw.value.value.Obj? && HasOrder(raw.value.value.members))
            ==> idx == EMPTY_INDEX
  {
    if raw.None? then EMPTY_INDEX
    else
      match Parse(raw.value)
      case None => EMPTY_INDEX
      case Some(v) =>
        if Truthy(v) && v.Obj? && HasOrder(v.members) then v.members else EMPTY_INDEX
  }

  /** The file at `path` as `readFile` delivers it, `None` when missing or when the read fails. */
  function ReadRaw(files: map<string, Text>, path: string, fails: bool): (r: Option<Text>)
    ensures r.None? <==> fails || path !in files
    ensures r.Some? ==> r.value == files[path]
  {
    if fails || path !in files then None else Some(files[path])
  }

  /** Step 3 of a write: the key is appended only when the order does not already hold it. */
  function Appended(order: seq<Json>, key: string): (r: seq<Json>)
    ensures Str(key) in r
    ensures |order| <= |r| <= |order| + 1 && r[..|order|] == order
    ensures Str(key) in order ==> |r| == |order|
    ensures NoDups(order) ==> NoDups(r)
  {
    if Str(key) in order then order else order + [Str(key)]
  }

  /** How many keys the eviction loop removes from the front of an order of length `n`. */
  function EvictCount(n: nat, capacity: nat): (k: nat)
    ensures k <= n && n - k <= capacity
    ensures k > 0 ==> n - k == capacity
  {
    if n > capacity then n - capacity else 0
  }

  /**
   * The order a write persists: the key appended when absent, then the oldest keys
   * evicted until at most `capacity` remain. The survivors are a suffix of the appended
   * order, so the evicted keys are exactly a prefix of it.
   */
  function Kept(order: seq<Json>, key: string, capacity: nat): (r: seq<Json>)
    ensures |r| <= capacity
    ensures var a := Appended(order, key); |r| <= |a| && r == a[|a| - |r|..]
    ensures var a := Appended(order, key); |r| == if |a| <= capacity then |a| else capacity
    ensures NoDups(order) ==> NoDups(r)
    ensures capacity >= 1 && (Str(key) !in order || |order| <= capacity) ==> Str(key) in r
  {
    var a := Appended(order, key);
    assert NoDups(order) ==> NoDups(a[EvictCount(|a|, capacity)..]);
    a[EvictCount(|a|, capacity)..]
  }

  /** The effect of `unlink(path)` on the files, failing for the paths in `failing`. */
  function Unlinked(files: map<string, Text>, path: string, failing: set<string>): (r: map<string, Text>)
    ensures r.Keys <= files.Keys
    ensures forall p :: p in files && p != path ==> p in r
    ensures forall p :: p in r ==> r[p] == files[p]
    ensures path in r <==> path in files && path in failing
  {
    if path in files && path !in failing then files - {path} else files
  }

  class FileFifoCache {
    const cacheDir: string
    const indexFile: string
    const capacity: nat
    /** `hashKey`: the hex SHA-1 digest of the key (FIPS 180-4 section 6.1), given, not computed. */
    const hashKey: string -> Digest

    /** `new FileFifoCache(cacheDir, capacity)`: touches no file. */
    constructor (cacheDir: string, capacity: nat, hashKey: string -> Digest)
      ensures this.cacheDir == cacheDir && this.capacity == capacity && this.hashKey == hashKey
      ensures Valid()
    {
      this.cacheDir := cacheDir;
      this.indexFile := PathJoin(cacheDir, "index.json");
      this.capacity := capacity;
      this.hashKey := hashKey;
    }

    predicate Valid() {
      indexFile == PathJoin(cacheDir, "index.json")
    }

    /** `path.join(cacheDir, hashKey(key) + ".json")` */
    function EntryPath(key: string): (p: string)
      ensures |p| == |cacheDir| + 46
    {
      PathJoin(cacheDir, hashKey(key) + ".json")
    }

    function IndexTemp(): string {
      indexFile + ".tmp"
    }

    /** The value held in the entry file of `key`, when that file exists and parses. */
    function Entry(files: map<string, Text>, key: string): Option<Json> {
      var path := EntryPath(key);
      if path in files then Parse(files[path]) else None
    }

    /** The order array `readIndex` sees. */
    function StoredOrder(files: map<string, Text>, readFails: bool): seq<Json> {
      OrderOf(DecodeIndex(ReadRaw(files, indexFile, readFails)))
    }

    /**
     * The files after the eviction loop has shifted `keys` off the front of the order, one
     * by one, and unlinked the entry of every truthy one; the flag is false when a truthy key
     * that is not a string made `hashKey` throw, which ends the write there.
     */
    function Evict(files: map<string, Text>, keys: seq<Json>, failing: set<string>): (map<string, Text>, bool)
      decreases |keys|
    {
      if keys == [] then (files, true)
      else
        var (f, ok) := Evict(files, keys[..|keys| - 1], failing);
        var k := keys[|keys| - 1];
        if !ok || !Truthy(k) then (f, ok)
        else if !k.Str? then (f, false)
        else (Unlinked(f, EntryPath(k.s), failing), true)
    }

    /** The files after `writeIndex(idx)`: the temporary index file, then the rename over `index.json`. */
    function IndexWritten(files: map<string, Text>, idx: seq<(string, Json)>, writeFails: bool, renameFails: bool)
      : map<string, Text>
    {
      if writeFails then files
      else if renameFails then files[IndexTemp() := Stringify(Obj(idx))]
      else (files[IndexTemp() := Stringify(Obj(idx))] - {IndexTemp()})[indexFile := Stringify(Obj(idx))]
    }

    /** The files after the entry of `key` has been written to its temporary file and renamed into place. */
    function EntryWritten(files: map<string, Text>, key: string, data: Json): map<string, Text> {
      var tmp := EntryPath(key) + ".tmp";
      (files[tmp := Stringify(data)] - {tmp})[EntryPath(key) := Stringify(data)]
    }

    /**
     * Steps 3 to 5 of a write, once the entry is in place: append, evict, persist the index
     * `idx` that was read before the entry was written.
     */
    function Commit(files: map<string, Text>, idx: seq<(string, Json)>, key: string, f: WriteFaults): map<string, Text>
      requires HasOrder(idx)
    {
      var order := Appended(OrderOf(idx), key);
      var n := EvictCount(|order|, capacity);
      var evicted := Evict(files, order[..n], f.unlinkFails);
      if !evicted.1 then evicted.0
      else IndexWritten(evicted.0, SetMember(idx, "order", Arr(order[n..])), f.indexWriteFails, f.indexRenameFails)
    }

    /** The whole effect of `write(key, data)` meeting `f`. */
    function WriteResult(files: map<string, Text>, key: string, data: Json, f: WriteFaults): map<string, Text> {
      if f.dirFails || f.entryWriteFails then files
      else if f.entryRenameFails then files[EntryPath(key) + ".tmp" := Stringify(data)]
      else Commit(EntryWritten(files, key, data), DecodeIndex(ReadRaw(files, indexFile, f.indexReadFails)), key, f)
    }

    /** `readIndex()`: never fails; anything but an object with an `order` array reads as `{ order: [] }`. */
    method ReadIndex(disk: Disk, readFails: bool) returns (idx: seq<(string, Json)>)
      ensures idx == DecodeIndex(ReadRaw(disk.files, indexFile, readFails))
    {
      var raw := disk.ReadFile(indexFile, readFails);
      if raw.None? {
        return EMPTY_INDEX;
      }
      var parsed := Parse(raw.value);
      if parsed.None? {
        return EMPTY_INDEX;
      }
      var v := parsed.value;
      var order := Get(v, "order");
      if !Truthy(v) || order.None? || !order.value.Arr? {
        return EMPTY_INDEX;
      }
      idx := v.members;
    }

    /** `writeIndex(idx)`: write `index.json.tmp`, then rename it over `index.json`. */
    method WriteIndex(disk: Disk, idx: seq<(string, Json)>, writeFails: bool, renameFails: bool) returns (ok: bool)
      modifies disk
      ensures disk.files == IndexWritten(old(disk.files), idx, writeFails, renameFails)
    {
      var tmp := indexFile + ".tmp";
      ok := disk.WriteFile(tmp, Stringify(Obj(idx)), writeFails);
      if !ok {
        return;
      }
      ok := disk.Rename(tmp, indexFile, renameFails);
    }

    /** What `read(key)` returns over `files`: the entry's value, or `null` on any fault. */
    function ReadValue(files: map<string, Text>, key: string, faults: ReadFaults): (v: Json)
      ensures v != Null ==> !faults.dirFails && !faults.readFails && Entry(files, key) == Some(v)
    {
      if faults.dirFails || faults.readFails then Null else Entry(files, key).GetOr(Null)
    }

    /** `read(key)`: looks only at the entry file of `key`; every fault reads as `null`. */
    method Read(disk: Disk, key: string, faults: ReadFaults) returns (r: Json)
      ensures faults.dirFails || faults.readFails || Entry(disk.files, key).None? ==> r == Null
      ensures !faults.dirFails && !faults.readFails && Entry(disk.files, key).Some? ==> r == Entry(disk.files, key).value
      ensures r == ReadValue(disk.files, key, faults)
    {
      if faults.dirFails {
        return Null;
      }
      var file := EntryPath(key);
      if !disk.Exists(file) {
        return Null;
      }
      var raw := disk.ReadFile(file, faults.readFails);
      if raw.None? {
        return Null;
      }
      var data := Parse(raw.value);
      if data.None? {
        return Null;
      }
      r := data.value;
    }

    /**
     * `write(key, data)`: write the entry, append the key to the order when absent, evict
     * from the front while the order is longer than `capacity`, persist the index. Returns
     * normally whatever fails.
     */
    method Write(disk: Disk, key: string, data: Json, faults: WriteFaults)
      modifies disk
      ensures disk.files == WriteResult(old(disk.files), key, data, faults)
    {
      if faults.dirFails {
        return;
      }
      var file := EntryPath(key);
      var idx := ReadIndex(disk, faults.indexReadFails);
      var tmp := file + ".tmp";
      var ok := disk.WriteFile(tmp, Stringify(data), faults.entryWriteFails);
      if !ok {
        return;
      }
      ok := disk.Rename(tmp, file, faults.entryRenameFails);
      if !ok {
        return;
      }
      assert disk.files == EntryWritten(old(disk.files), key, data);
      assert idx == DecodeIndex(ReadRaw(old(disk.files), indexFile, faults.indexReadFails));
      ghost var written := disk.files;
      var order := OrderOf(idx);
      if Str(key) !in order {
        order := order + [Str(key)];
      }
      var completed;
      ghost var appended := order;
      assert appended == Appended(OrderOf(idx), key);
      order, completed := EvictOldest(disk, order, faults.unlinkFails);
      if !completed {
        assert disk.files == Commit(written, idx, key, faults);
        return;
      }
      ok := WriteIndex(disk, SetMember(idx, "order", Arr(order)), faults.indexWriteFails, faults.indexRenameFails);
    }

    /**
     * The eviction loop of `write`: shift keys off the front while more than `capacity`
     * remain, unlinking the entry of each truthy one (`if (evictKey)`) and ignoring unlink
     * failures; a truthy key that is not a string makes `hashKey` throw.
     */
    method EvictOldest(disk: Disk, order: seq<Json>, failing: set<string>) returns (kept: seq<Json>, completed: bool)
      modifies disk
      ensures completed ==> kept == order[EvictCount(|order|, capacity)..]
      ensures (disk.files, completed) == Evict(old(disk.files), order[..EvictCount(|order|, capacity)], failing)
    {
      kept := order;
      ghost var n := 0;
      while |kept| > capacity
        invariant 0 <= n <= EvictCount(|order|, capacity)
        invariant kept == order[n..]
        invariant Evict(old(disk.files), order[..n], failing) == (disk.files, true)
      {
        var evictKey := kept[0];
        kept := kept[1..];
        EvictOne(old(disk.files), disk.files, order, n, failing);
        n := n + 1;
        if Truthy(evictKey) {
          if !evictKey.Str? {
            EvictStops(old(disk.files), order[..EvictCount(|order|, capacity)], n, failing);
            assert order[..EvictCount(|order|, capacity)][..n] == order[..n];
            return kept, false;
          }
          var evictFile := EntryPath(evictKey.s);
          var _ := disk.Unlink(evictFile, evictFile in failing);
        }
      }
      completed := true;
    }

    /** One more key of the order: skipped when falsy, a stop when not a string, otherwise its entry is unlinked. */
    lemma EvictOne(start: map<string, Text>, files: map<string, Text>, order: seq<Json>, n: nat, failing: set<string>)
      requires n < |order| && Evict(start, order[..n], failing) == (files, true)
      ensures Evict(start, order[..n + 1], failing) ==
        if !Truthy(order[n]) then (files, true)
        else if !order[n].Str? then (files, false)
        else (Unlinked(files, EntryPath(order[n].s), failing), true)
    {
      assert order[..n + 1][..n] == order[..n];
    }

    /** Once a key has made the loop throw, the keys after it change nothing. */
    lemma {:induction false} EvictStops(files: map<string, Text>, keys: seq<Json>, m: nat, failing: set<string>)
      requires m <= |keys| && !Evict(files, keys[..m], failing).1
      ensures Evict(files, keys, failing) == Evict(files, keys[..m], failing)
      decreases |keys|
    {
      if m < |keys| {
        assert keys[..|keys| - 1][..m] == keys[..m];
        EvictStops(files, keys[..|keys| - 1], m, failing);
      } else {
        assert keys[..m] == keys;
      }
    }
  }

  /** Entry files, their temporary files and the index files have pairwise distinct paths. */
  lemma PathsDistinct(c: FileFifoCache, k: string)
    requires c.Valid()
    ensures c.EntryPath(k) != c.indexFile && c.EntryPath(k) != c.IndexTemp()
    ensures c.EntryPath(k) + ".tmp" != c.indexFile && c.EntryPath(k) + ".tmp" != c.IndexTemp()
    ensures forall j :: c.EntryPath(j) != c.EntryPath(k) + ".tmp"
  {
    assert |c.indexFile| == |c.cacheDir| + 11;
  }

  /** Two keys share an entry file exactly when their digests collide. */
  lemma EntryPathInjective(c: FileFifoCache, j: string, k: string)
    ensures c.EntryPath(j) == c.EntryPath(k) <==> c.hashKey(j) == c.hashKey(k)
  {
    if c.EntryPath(j) == c.EntryPath(k) {
      var d := |c.cacheDir| + 1;
      assert c.EntryPath(j)[d..d + 40] == c.hashKey(j);
      assert c.EntryPath(k)[d..d + 40] == c.hashKey(k);
    }
  }

  /** The eviction loop leaves the file at `p` alone when no evicted key names it or its unlink fails. */
  lemma {:induction false} EvictPreserves(c: FileFifoCache, files: map<string, Text>, keys: seq<Json>, failing: set<string>, p: string)
    requires forall k :: Str(k) in keys ==> c.EntryPath(k) != p || p in failing
    ensures var r := c.Evict(files, keys, failing).0; (p in r <==> p in files) && (p in r ==> r[p] == files[p])
    decreases |keys|
  {
    if keys != [] {
      assert forall x :: x in keys[..|keys| - 1] ==> x in keys;
      EvictPreserves(c, files, keys[..|keys| - 1], failing, p);
    }
  }

  /** The eviction loop runs to its end when every truthy key is a string. */
  lemma {:induction false} EvictCompletes(c: FileFifoCache, files: map<string, Text>, keys: seq<Json>, failing: set<string>)
    requires forall j :: j in keys && Truthy(j) ==> j.Str?
    ensures c.Evict(files, keys, failing).1
    decreases |keys|
  {
    if keys != [] {
      assert forall x :: x in keys[..|keys| - 1] ==> x in keys;
      EvictCompletes(c, files, keys[..|keys| - 1], failing);
    }
  }

  /** `if (evictKey)`: shifting a falsy key, such as the empty string, unlinks nothing. */
  lemma EvictSkipsFalsy(c: FileFifoCache, files: map<string, Text>, keys: seq<Json>, j: Json, failing: set<string>)
    requires !Truthy(j)
    ensures c.Evict(files, keys + [j], failing) == c.Evict(files, keys, failing)
  {
    assert (keys + [j])[..|keys|] == keys;
  }

  /** A key the loop shifts off leaves the order, even when the unlink of its entry fails. */
  lemma EvictedLeaveIndex(order: seq<Json>, key: string, capacity: nat, j: Json)
    requires NoDups(order)
    requires var a := Appended(order, key); j in a[..EvictCount(|a|, capacity)]
    ensures j !in Kept(order, key, capacity)
  {
    var a := Appended(order, key);
    var n := EvictCount(|a|, capacity);
    var i :| 0 <= i < n && a[..n][i] == j;
    assert a[i] == j;
    assert Kept(order, key, capacity) == a[n..];
  }

  /** Writing the entry of `key` changes no file but its entry file and that file's temporary. */
  lemma EntryWrittenElsewhere(c: FileFifoCache, files: map<string, Text>, key: string, data: Json, p: string)
    requires p != c.EntryPath(key) && p != c.EntryPath(key) + ".tmp"
    ensures var r := c.EntryWritten(files, key, data); (p in r <==> p in files) && (p in r ==> r[p] == files[p])
  {
  }

  /** Away from the index files, steps 3 to 5 of a write change only what the eviction loop unlinks. */
  lemma CommitElsewhere(c: FileFifoCache, files: map<string, Text>, idx: seq<(string, Json)>, key: string, f: WriteFaults, p: string)
    requires c.Valid() && HasOrder(idx)
    requires p != c.indexFile && p != c.IndexTemp()
    ensures var a := Appended(OrderOf(idx), key);
      var e := c.Evict(files, a[..EvictCount(|a|, c.capacity)], f.unlinkFails).0;
      var r := c.Commit(files, idx, key, f);
      (p in r <==> p in e) && (p in r ==> r[p] == e[p])
  {
  }

  /** When the eviction loop runs to its end and the index is persisted, `index.json` holds the kept order. */
  lemma CommitIndex(c: FileFifoCache, files: map<string, Text>, idx: seq<(string, Json)>, key: string, f: WriteFaults)
    requires c.Valid() && HasOrder(idx) && !f.indexWriteFails && !f.indexRenameFails
    requires var a := Appended(OrderOf(idx), key); c.Evict(files, a[..EvictCount(|a|, c.capacity)], f.unlinkFails).1
    ensures var a := Appended(OrderOf(idx), key);
      var r := c.Commit(files, idx, key, f);
      c.indexFile in r && r[c.indexFile] == Stringify(Obj(SetMember(idx, "order", Arr(a[EvictCount(|a|, c.capacity)..]))))
  {
  }

  /**
   * The file at `p`, an entry path other than that of `key`, after a write: untouched by the
   * early faults, otherwise as the eviction loop leaves it.
   */
  lemma WriteElsewhere(c: FileFifoCache, files: map<string, Text>, key: string, data: Json, f: WriteFaults, p: string)
    requires c.Valid()
    requires p != c.indexFile && p != c.IndexTemp() && p != c.EntryPath(key) && p != c.EntryPath(key) + ".tmp"
    ensures var idx := DecodeIndex(ReadRaw(files, c.indexFile, f.indexReadFails));
      var a := Appended(OrderOf(idx), key);
      var e := c.Evict(c.EntryWritten(files, key, data), a[..EvictCount(|a|, c.capacity)], f.unlinkFails).0;
      var r := c.WriteResult(files, key, data, f);
      if f.dirFails || f.entryWriteFails || f.entryRenameFails then
        (p in r <==> p in files) && (p in r ==> r[p] == files[p])
      else (p in r <==> p in e) && (p in r ==> r[p] == e[p])
  {
    if !(f.dirFails || f.entryWriteFails || f.entryRenameFails) {
      var idx := DecodeIndex(ReadRaw(files, c.indexFile, f.indexReadFails));
      CommitElsewhere(c, c.EntryWritten(files, key, data), idx, key, f, p);
    }
  }

  /**
   * Round trip: once `write(key, data)` has put the entry in place, the entry file of
   * `key` holds `data`, whatever happens to the unlinks and the index afterwards,
   * provided the key survives eviction and no other key in the index shares its digest.
   */
  lemma ReadAfterWrite(c: FileFifoCache, files: map<string, Text>, key: string, data: Json, f: WriteFaults)
    requires c.Valid() && c.capacity >= 1
    requires !f.dirFails && !f.entryWriteFails && !f.entryRenameFails
    requires var order := c.StoredOrder(files, f.indexReadFails);
      (Str(key) !in order || |order| <= c.capacity) &&
      forall k :: Str(k) in order && k != key ==> c.hashKey(k) != c.hashKey(key)
    ensures c.Entry(c.WriteResult(files, key, data, f), key) == Some(data)
  {
    var p := c.EntryPath(key);
    var idx := DecodeIndex(ReadRaw(files, c.indexFile, f.indexReadFails));
    var order := OrderOf(idx);
    var a := Appended(order, key);
    var n := EvictCount(|a|, c.capacity);
    var written := c.EntryWritten(files, key, data);
    PathsDistinct(c, key);
    assert written[p] == Stringify(data);
    forall k | Str(k) in a[..n] ensures c.EntryPath(k) != p {
      assert Str(k) in order;
      EntryPathInjective(c, k, key);
    }
    EvictPreserves(c, written, a[..n], f.unlinkFails, p);
    CommitElsewhere(c, written, idx, key, f, p);
    ParseStringify(data);
  }

  /**
   * After a write that meets no fault but failing unlinks, the index holds the order
   * `Kept`: the key appended when absent and the oldest keys evicted down to `capacity`.
   */
  lemma IndexAfterWrite(c: FileFifoCache, files: map<string, Text>, key: string, data: Json, unlinkFails: set<string>)
    requires c.Valid()
    requires forall j :: j in c.StoredOrder(files, false) && Truthy(j) ==> j.Str?
    ensures var f := NO_WRITE_FAULTS.(unlinkFails := unlinkFails);
      c.StoredOrder(c.WriteResult(files, key, data, f), false) == Kept(c.StoredOrder(files, false), key, c.capacity)
  {
    var f := NO_WRITE_FAULTS.(unlinkFails := unlinkFails);
    var idx := DecodeIndex(ReadRaw(files, c.indexFile, false));
    var a := Appended(OrderOf(idx), key);
    var n := EvictCount(|a|, c.capacity);
    var written := c.EntryWritten(files, key, data);
    assert forall j :: j in a[..n] ==> j in a;
    EvictCompletes(c, written, a[..n], unlinkFails);
    CommitIndex(c, written, idx, key, f);
    IndexReadsBack(c.Commit(written, idx, key, f), c.indexFile, SetMember(idx, "order", Arr(a[n..])));
  }

  /** An index file holding an object with an `order` array reads back as that object. */
  lemma IndexReadsBack(files: map<string, Text>, path: string, members: seq<(string, Json)>)
    requires path in files && files[path] == Stringify(Obj(members)) && HasOrder(members)
    ensures DecodeIndex(ReadRaw(files, path, false)) == members
  {
  }

  /**
   * An evicted key whose unlink fails keeps its entry file, so `read` still finds the
   * value, although the index no longer holds the key.
   */
  lemma StaleEntryAfterFailedUnlink(c: FileFifoCache, files: map<string, Text>, key: string, data: Json, f: WriteFaults, k: string)
    requires c.Valid()
    requires !f.dirFails && !f.entryWriteFails && !f.entryRenameFails
    requires c.EntryPath(k) in f.unlinkFails && c.hashKey(k) != c.hashKey(key)
    ensures c.Entry(c.WriteResult(files, key, data, f), k) == c.Entry(files, k)
  {
    var p := c.EntryPath(k);
    var idx := DecodeIndex(ReadRaw(files, c.indexFile, f.indexReadFails));
    var a := Appended(OrderOf(idx), key);
    var n := EvictCount(|a|, c.capacity);
    var written := c.EntryWritten(files, key, data);
    PathsDistinct(c, k);
    PathsDistinct(c, key);
    EntryPathInjective(c, k, key);
    EvictPreserves(c, written, a[..n], f.unlinkFails, p);
    EntryWrittenElsewhere(c, files, key, data, p);
    WriteElsewhere(c, files, key, data, f, p);
  }

  /** A write leaves the entry of `k` alone when neither the written key nor an evicted key shares its digest. */
  lemma OtherEntryKept(c: FileFifoCache, files: map<string, Text>, key: string, data: Json, f: WriteFaults, k: string)
    requires c.Valid() && c.hashKey(k) != c.hashKey(key)
    requires var a := Appended(c.StoredOrder(files, f.indexReadFails), key);
      forall j :: Str(j) in a[..EvictCount(|a|, c.capacity)] ==> c.hashKey(j) != c.hashKey(k)
    ensures c.Entry(c.WriteResult(files, key, data, f), k) == c.Entry(files, k)
  {
    var p := c.EntryPath(k);
    var idx := DecodeIndex(ReadRaw(files, c.indexFile, f.indexReadFails));
    var a := Appended(OrderOf(idx), key);
    var n := EvictCount(|a|, c.capacity);
    PathsDistinct(c, k);
    PathsDistinct(c, key);
    EntryPathInjective(c, k, key);
    forall j | Str(j) in a[..n] ensures c.EntryPath(j) != p {
      EntryPathInjective(c, j, k);
    }
    EvictPreserves(c, c.EntryWritten(files, key, data), a[..n], f.unlinkFails, p);
    EntryWrittenElsewhere(c, files, key, data, p);
    WriteElsewhere(c, files, key, data, f, p);
  }

  /** If the entry cannot be written or renamed into place, the index file is untouched. */
  lemma FailedEntryWriteKeepsIndex(c: FileFifoCache, files: map<string, Text>, key: string, data: Json, f: WriteFaults)
    requires c.Valid()
    requires f.dirFails || f.entryWriteFails || f.entryRenameFails
    ensures var r := c.WriteResult(files, key, data, f);
      (c.indexFile in r <==> c.indexFile in files) && (c.indexFile in r ==> r[c.indexFile] == files[c.indexFile])
    ensures c.StoredOrder(c.WriteResult(files, key, data, f), false) == c.StoredOrder(files, false)
  {
    PathsDistinct(c, key);
  }

  /** `read` never consults the index: rewriting `index.json` does not change what it returns. */
  lemma ReadIgnoresIndex(c: FileFifoCache, files: map<string, Text>, key: string, t: Text)
    requires c.Valid()
    ensures c.Entry(files[c.indexFile := t], key) == c.Entry(files, key)
  {
    PathsDistinct(c, key);
  }

  /**
   * Once the loop has run to its end, the entry of every evicted non-empty key whose unlink
   * succeeds is gone (the empty key is falsy and skipped, see `EvictSkipsFalsy`).
   */
  lemma {:induction false} EvictRemoves(c: FileFifoCache, files: map<string, Text>, keys: seq<Json>, failing: set<string>, k: string)
    requires k != "" && Str(k) in keys && c.EntryPath(k) !in failing
    requires c.Evict(files, keys, failing).1
    ensures c.EntryPath(k) !in c.Evict(files, keys, failing).0
    decreases |keys|
  {
    var init := keys[..|keys| - 1];
    var last := keys[|keys| - 1];
    assert keys == init + [last];
    var before := c.Evict(files, init, failing);
    assert before.1;
    if last == Str(k) {
      assert c.Evict(files, keys, failing).0 == Unlinked(before.0, c.EntryPath(k), failing);
    } else {
      assert Str(k) in init;
      EvictRemoves(c, files, init, failing, k);
      assert c.Evict(files, keys, failing).0.Keys <= before.0.Keys;
    }
  }

  /**
   * An evicted key whose unlink succeeds can no longer be read, provided the loop runs to
   * its end (every truthy key in the index is a string) and the written key has another digest.
   */
  lemma EvictedEntryRemoved(c: FileFifoCache, files: map<string, Text>, key: string, data: Json, f: WriteFaults, k: string)
    requires c.Valid()
    requires !f.dirFails && !f.entryWriteFails && !f.entryRenameFails
    requires var order := c.StoredOrder(files, f.indexReadFails);
      (forall j :: j in order && Truthy(j) ==> j.Str?) &&
      var a := Appended(order, key); Str(k) in a[..EvictCount(|a|, c.capacity)]
    requires k != "" && c.EntryPath(k) !in f.unlinkFails && c.hashKey(k) != c.hashKey(key)
    ensures c.Entry(c.WriteResult(files, key, data, f), k) == None
  {
    var idx := DecodeIndex(ReadRaw(files, c.indexFile, f.indexReadFails));
    var a := Appended(OrderOf(idx), key);
    var n := EvictCount(|a|, c.capacity);
    var written := c.EntryWritten(files, key, data);
    assert forall j :: j in a[..n] ==> j in a;
    EvictCompletes(c, written, a[..n], f.unlinkFails);
    EvictRemoves(c, written, a[..n], f.unlinkFails, k);
    PathsDistinct(c, k);
    PathsDistinct(c, key);
    EntryPathInjective(c, k, key);
    WriteElsewhere(c, files, key, data, f, c.EntryPath(k));
  }

  /** One fault-free write of a key that survives eviction: the index and the entry both reflect it. */
  lemma FaultFreeWrite(c: FileFifoCache, files: map<string, Text>, key: string, data: Json)
    requires c.Valid() && c.capacity >= 1
    requires var order := c.StoredOrder(files, false);
      (forall j :: j in order && Truthy(j) ==> j.Str?) &&
      (Str(key) !in order || |order| <= c.capacity) &&
      forall k :: Str(k) in order && k != key ==> c.hashKey(k) != c.hashKey(key)
    ensures var w := c.WriteResult(files, key, data, NO_WRITE_FAULTS);
      c.StoredOrder(w, false) == Kept(c.StoredOrder(files, false), key, c.capacity) &&
      c.Entry(w, key) == Some(data)
  {
    IndexAfterWrite(c, files, key, data, {});
    ReadAfterWrite(c, files, key, data, NO_WRITE_FAULTS);
  }

  /**
   * The cache's invariant: the index holds at most `capacity` distinct keys, each a string
   * whose entry file exists and parses.
   */
  predicate Consistent(c: FileFifoCache, files: map<string, Text>) {
    var o := c.StoredOrder(files, false);
    |o| <= c.capacity && NoDups(o) && forall j :: j in o ==> j.Str? && c.Entry(files, j.s).Some?
  }

  /** A key surviving eviction is not among the evicted ones when the appended order has no duplicates. */
  lemma SurvivorNotEvicted(a: seq<Json>, n: nat, j: Json)
    requires n <= |a| && NoDups(a) && j in a[n..]
    ensures j !in a[..n]
  {
    var m :| n <= m < |a| && a[m] == j;
    assert forall i :: 0 <= i < n ==> a[i] != a[m];
  }

  /** Pairwise distinct digests among the indexed keys and the written key. */
  ghost predicate DistinctDigests(c: FileFifoCache, files: map<string, Text>, key: string) {
    var a := Appended(c.StoredOrder(files, false), key);
    forall j, k :: Str(j) in a && Str(k) in a && j != k ==> c.hashKey(j) != c.hashKey(k)
  }

  /** One key that survives the write's eviction still has a readable entry file. */
  lemma SurvivorReadable(c: FileFifoCache, files: map<string, Text>, key: string, data: Json, unlinkFails: set<string>, j: Json)
    requires c.Valid() && Consistent(c, files) && DistinctDigests(c, files, key)
    requires j in Kept(c.StoredOrder(files, false), key, c.capacity)
    ensures j.Str? && c.Entry(c.WriteResult(files, key, data, NO_WRITE_FAULTS.(unlinkFails := unlinkFails)), j.s).Some?
  {
    var f := NO_WRITE_FAULTS.(unlinkFails := unlinkFails);
    var o := c.StoredOrder(files, false);
    var a := Appended(o, key);
    var n := EvictCount(|a|, c.capacity);
    assert Kept(o, key, c.capacity) == a[n..];
    assert j in a;
    SurvivorNotEvicted(a, n, j);
    if j == Str(key) {
      assert forall k :: Str(k) in o ==> Str(k) in a;
      ReadAfterWrite(c, files, key, data, f);
    } else {
      assert j in o;
      forall i | Str(i) in a[..n] ensures c.hashKey(i) != c.hashKey(j.s) {
        assert Str(i) in a;
      }
      OtherEntryKept(c, files, key, data, f, j.s);
    }
  }

  /**
   * A write that meets no fault but failing unlinks keeps the cache consistent, provided
   * the indexed keys and the written key have pairwise distinct digests: every key of the
   * new index still has a readable entry file.
   */
  lemma WriteKeepsConsistent(c: FileFifoCache, files: map<string, Text>, key: string, data: Json, unlinkFails: set<string>)
    requires c.Valid() && Consistent(c, files) && DistinctDigests(c, files, key)
    ensures Consistent(c, c.WriteResult(files, key, data, NO_WRITE_FAULTS.(unlinkFails := unlinkFails)))
  {
    var w := c.WriteResult(files, key, data, NO_WRITE_FAULTS.(unlinkFails := unlinkFails));
    var kept := Kept(c.StoredOrder(files, false), key, c.capacity);
    IndexAfterWrite(c, files, key, data, unlinkFails);
    forall j | j in kept ensures j.Str? && c.Entry(w, j.s).Some? {
      SurvivorReadable(c, files, key, data, unlinkFails, j);
    }
  }

  /** Below capacity nothing is evicted: a new key is simply appended to the index. */
  lemma WriteBelowCapacity(c: FileFifoCache, files: map<string, Text>, key: string, data: Json)
    requires c.Valid()
    requires var order := c.StoredOrder(files, false);
      (forall j :: j in order ==> j.Str? && c.hashKey(j.s) != c.hashKey(key)) && |order| < c.capacity
    ensures var w := c.WriteResult(files, key, data, NO_WRITE_FAULTS);
      c.StoredOrder(w, false) == c.StoredOrder(files, false) + [Str(key)] && c.Entry(w, key) == Some(data)
  {
    FaultFreeWrite(c, files, key, data);
  }

  /** A new key appended to a full order evicts exactly the oldest key. */
  lemma FullOrderEvictsOldest(order: seq<Json>, key: string, capacity: nat)
    requires |order| == capacity >= 1 && Str(key) !in order
    ensures var x := Appended(order, key); x[..EvictCount(|x|, capacity)] == [order[0]]
    ensures Kept(order, key, capacity) == order[1..] + [Str(key)]
  {
    var x := Appended(order, key);
    assert x == order + [Str(key)];
    assert x[1..] == order[1..] + [Str(key)];
  }

  /** The index is full, every key in it is a string, and none shares a digest with `key`. */
  predicate FullOfOthers(c: FileFifoCache, files: map<string, Text>, key: string) {
    var o := c.StoredOrder(files, false);
    |o| == c.capacity >= 1 && forall j :: j in o ==> j.Str? && c.hashKey(j.s) != c.hashKey(key)
  }

  /** A fault-free write of a new key into a full index makes the index its old keys but the oldest, then the key; the key reads back. */
  lemma WriteAtCapacityIndex(c: FileFifoCache, files: map<string, Text>, key: string, data: Json)
    requires c.Valid() && FullOfOthers(c, files, key)
    ensures var o := c.StoredOrder(files, false);
      var w := c.WriteResult(files, key, data, NO_WRITE_FAULTS);
      c.StoredOrder(w, false) == o[1..] + [Str(key)] && c.Entry(w, key) == Some(data)
  {
    var o := c.StoredOrder(files, false);
    assert Str(key) !in o;
    FullOrderEvictsOldest(o, key, c.capacity);
    FaultFreeWrite(c, files, key, data);
  }

  /**
   * A fault-free write of a new key into a full index leaves the oldest key unreadable (when
   * it is not empty) and the entry of every other indexed key whose digest differs from the
   * oldest one's untouched.
   */
  lemma WriteAtCapacityEntries(c: FileFifoCache, files: map<string, Text>, key: string, data: Json)
    requires c.Valid() && FullOfOthers(c, files, key)
    ensures var o := c.StoredOrder(files, false);
      var w := c.WriteResult(files, key, data, NO_WRITE_FAULTS);
      (o[0] != Str("") ==> c.Entry(w, o[0].s) == None) &&
      forall j :: Str(j) in o[1..] && c.hashKey(j) != c.hashKey(o[0].s) ==> c.Entry(w, j) == c.Entry(files, j)
  {
    var o := c.StoredOrder(files, false);
    var f := NO_WRITE_FAULTS;
    assert !f.indexReadFails && f.unlinkFails == {};
    assert Str(key) !in o;
    FullOrderEvictsOldest(o, key, c.capacity);
    var oldest := o[0].s;
    if oldest != "" {
      EvictedEntryRemoved(c, files, key, data, f, oldest);
    }
    forall j | Str(j) in o[1..] && c.hashKey(j) != c.hashKey(oldest)
      ensures c.Entry(c.WriteResult(files, key, data, f), j) == c.Entry(files, j)
    {
      assert Str(j) in o;
      OtherEntryKept(c, files, key, data, f, j);
    }
  }

  /**
   * FIFO eviction: a fault-free write of a new key into a full index pushes the oldest key
   * out. The index becomes the other keys followed by the new one, the oldest key can no
   * longer be read, the other keys are untouched and the new key reads back.
   */
  lemma WriteAtCapacityEvictsOldest(c: FileFifoCache, files: map<string, Text>, key: string, data: Json)
    requires c.Valid() && FullOfOthers(c, files, key)
    ensures var o := c.StoredOrder(files, false);
      var w := c.WriteResult(files, key, data, NO_WRITE_FAULTS);
      c.StoredOrder(w, false) == o[1..] + [Str(key)] && c.Entry(w, key) == Some(data) &&
      (o[0] != Str("") ==> c.Entry(w, o[0].s) == None) &&
      forall j :: Str(j) in o[1..] && c.hashKey(j) != c.hashKey(o[0].s) ==> c.Entry(w, j) == c.Entry(files, j)
  {
    WriteAtCapacityIndex(c, files, key, data);
    WriteAtCapacityEntries(c, files, key, data);
  }
}
