/**
 * The two-tier audio cache of src/speak/cache.ts.
 *
 * The memory tier (`audioCache`) maps a hash to its audio; the disk tier is
 * the cache directory, modelled as a map from file name to the file's bytes
 * and modification time. The MD5 digest is an uninterpreted parameter
 * `digest`; only the string it is applied to is modelled.
 */
module AudioCache {
  import opened Common

  /** Default retention of `cleanupCache`: seven days in milliseconds. */
  const DefaultMaxAgeMs: int := 7 * 24 * 60 * 60 * 1000

  /** Suffix of every file the cache writes. */
  const Extension: string := ".mp3"

  /** A file in the cache directory. */
  datatype DiskFile = DiskFile(data: Bytes, mtime: int)

  /** Both tiers: memory by hash, disk by file name. */
  datatype Cache = Cache(memory: map<string, Bytes>, disk: map<string, DiskFile>)

  /** Which tier answered a lookup (`Neither` on a full miss). */
  datatype Tier = Memory | Disk | Neither

  /** What `getFromCache` returns, which tier served it, and the cache afterwards. */
  datatype Lookup = Lookup(audio: Option<Bytes>, servedBy: Tier, cache: Cache)

  /** What `cleanupCache` leaves behind and how many files it deleted. */
  datatype Cleanup = Cleanup(cache: Cache, deletedCount: nat)

  /** The name of the file that holds the audio for `hash`. */
  function FileName(hash: string): (name: string)
    ensures |name| == |hash| + 4 && name[..|hash|] == hash && name[|hash|..] == ".mp3"
  {
    hash + Extension
  }

  /** Distinct hashes never share a file. */
  lemma FileNameInjective(a: string, b: string)
    requires FileName(a) == FileName(b)
    ensures a == b
  {
  }

  /** The string fed to the digest: the three parts joined by unescaped dashes. */
  function JoinKey(text: string, voice: string, language: string): (joined: string)
    ensures |joined| == |text| + |voice| + |language| + 2
    ensures joined[..|text|] == text && joined[|text|] == '-'
    ensures joined[|text| + 1..|text| + 1 + |voice|] == voice && joined[|text| + 1 + |voice|] == '-'
    ensures joined[|text| + |voice| + 2..] == language
  {
    text + "-" + voice + "-" + language
  }

  /** `generateHash`: the digest of the joined key. */
  function GenerateHash(digest: string -> string, text: string, voice: string, language: string): (key: string)
    ensures key == digest(JoinKey(text, voice, language))
  {
    digest(JoinKey(text, voice, language))
  }

  /** The key depends on the joined string alone, whatever the digest. */
  lemma HashDependsOnlyOnJoin(digest: string -> string, t1: string, v1: string, l1: string,
                              t2: string, v2: string, l2: string)
    requires JoinKey(t1, v1, l1) == JoinKey(t2, v2, l2)
    ensures GenerateHash(digest, t1, v1, l1) == GenerateHash(digest, t2, v2, l2)
  {
  }

  /**
   * Because the dash is not escaped, two different triples can share a key
   * under every digest: ("a-b", "c", "d") and ("a", "b-c", "d") both join to
   * "a-b-c-d".
   */
  lemma SeparatorIsAmbiguous(digest: string -> string)
    ensures ("a-b", "c", "d") != ("a", "b-c", "d")
    ensures GenerateHash(digest, "a-b", "c", "d") == GenerateHash(digest, "a", "b-c", "d")
  {
    assert JoinKey("a-b", "c", "d") == "a-b-c-d" == JoinKey("a", "b-c", "d");
  }

  /** Whether either tier holds audio for `hash`. */
  predicate Holds(c: Cache, hash: string)
  {
    hash in c.memory || FileName(hash) in c.disk
  }

  /**
   * `getFromCache(hash)`: a memory hit is returned as is and consults nothing
   * else; a disk hit returns the file's bytes and copies them into memory; a
   * full miss returns nothing. The disk is never changed.
   */
  function GetFromCache(c: Cache, hash: string): (r: Lookup)
    ensures r.cache.disk == c.disk
    ensures r.audio.Some? <==> Holds(c, hash)
    ensures hash in c.memory ==> r.audio == Some(c.memory[hash]) && r.servedBy == Memory && r.cache == c
    ensures hash !in c.memory && FileName(hash) in c.disk ==>
              && r.audio == Some(c.disk[FileName(hash)].data)
              && r.servedBy == Disk
              && r.cache.memory.Keys == c.memory.Keys + {hash}
              && r.cache.memory[hash] == c.disk[FileName(hash)].data
              && (forall k :: k in c.memory ==> r.cache.memory[k] == c.memory[k])
    ensures !Holds(c, hash) ==> r.servedBy == Neither && r.cache == c
  {
    if hash in c.memory then
      Lookup(Some(c.memory[hash]), Memory, c)
    else if FileName(hash) in c.disk then
      var data := c.disk[FileName(hash)].data;
      Lookup(Some(data), Disk, c.(memory := c.memory[hash := data]))
    else
      Lookup(None, Neither, c)
  }

  /**
   * `saveToCache(hash, buffer)`: both tiers map the hash to the buffer, and
   * the written file carries `mtime`, the timestamp the filesystem gives the
   * write (it need not equal any `Date.now()` reading); every other memory
   * key and every other file is left exactly as it was.
   */
  function SaveToCache(c: Cache, hash: string, data: Bytes, mtime: int): (r: Cache)
    ensures r.memory.Keys == c.memory.Keys + {hash} && r.memory[hash] == data
    ensures forall k :: k in c.memory && k != hash ==> r.memory[k] == c.memory[k]
    ensures r.disk.Keys == c.disk.Keys + {FileName(hash)} && r.disk[FileName(hash)] == DiskFile(data, mtime)
    ensures forall f :: f in c.disk && f != FileName(hash) ==> r.disk[f] == c.disk[f]
  {
    Cache(c.memory[hash := data], c.disk[FileName(hash) := DiskFile(data, mtime)])
  }

  /** Saving and then looking up the same hash returns the saved audio from memory. */
  lemma SaveThenGet(c: Cache, hash: string, data: Bytes, mtime: int)
    ensures var saved := SaveToCache(c, hash, data, mtime);
            GetFromCache(saved, hash) == Lookup(Some(data), Memory, saved)
  {
  }

  /** Saving one hash does not change what a lookup of any other hash returns. */
  lemma SaveKeepsOtherLookups(c: Cache, hash: string, data: Bytes, mtime: int, other: string)
    requires other != hash
    ensures GetFromCache(SaveToCache(c, hash, data, mtime), other).audio == GetFromCache(c, other).audio
  {
  }

  /**
   * Promotion: after a lookup served from disk, the next lookup of the same
   * hash is served from memory, returns the same bytes and changes nothing.
   */
  lemma Promotion(c: Cache, hash: string)
    requires GetFromCache(c, hash).servedBy == Disk
    ensures var first := GetFromCache(c, hash);
            GetFromCache(first.cache, hash) == Lookup(first.audio, Memory, first.cache)
  {
  }

  /** A file is deleted by the clean-up when it is strictly older than `maxAgeMs`. */
  predicate Stale(file: DiskFile, now: int, maxAgeMs: int)
  {
    now - file.mtime > maxAgeMs
  }

  /** The files a clean-up at `now` removes. */
  function Evicted(disk: map<string, DiskFile>, now: int, maxAgeMs: int): (gone: set<string>)
    ensures forall f :: f in gone <==> f in disk && Stale(disk[f], now, maxAgeMs)
  {
    set f | f in disk && Stale(disk[f], now, maxAgeMs)
  }

  /** The cache a clean-up leaves: the stale files are gone, memory is untouched. */
  function AfterCleanup(c: Cache, now: int, maxAgeMs: int): (r: Cache)
    ensures r.memory == c.memory
    ensures r.disk.Keys == c.disk.Keys - Evicted(c.disk, now, maxAgeMs)
    ensures forall f :: f in r.disk ==> r.disk[f] == c.disk[f]
  {
    c.(disk := map f | f in c.disk && !Stale(c.disk[f], now, maxAgeMs) :: c.disk[f])
  }

  /**
   * The sweep of `cleanupCache` with retention `maxAgeMs` at time `now`:
   * visits every file of the cache directory, deletes the stale ones and
   * counts the deletions.
   */
  method SweepDisk(c: Cache, now: int, maxAgeMs: int) returns (r: Cleanup)
    ensures r.cache == AfterCleanup(c, now, maxAgeMs)
    ensures r.deletedCount == |Evicted(c.disk, now, maxAgeMs)|
  {
    var disk := c.disk;
    var files := c.disk.Keys;
    var deletedCount := 0;
    ghost var deleted: set<string> := {};
    while files != {}
      invariant files <= c.disk.Keys
      invariant forall f :: f in deleted <==> f in c.disk && f !in files && Stale(c.disk[f], now, maxAgeMs)
      invariant forall f :: f in disk <==> f in c.disk && f !in deleted
      invariant forall f :: f in disk ==> disk[f] == c.disk[f]
      invariant deletedCount == |deleted|
      decreases files
    {
      var file :| file in files;
      if Stale(disk[file], now, maxAgeMs) {
        disk := disk - {file};
        deleted := deleted + {file};
        deletedCount := deletedCount + 1;
      }
      files := files - {file};
    }
    assert deleted == Evicted(c.disk, now, maxAgeMs);
    r := Cleanup(c.(disk := disk), deletedCount);
  }

  /** `cleanupCache(maxAgeMs)`: an omitted `maxAgeMs` keeps files up to seven days old. */
  method CleanupCache(c: Cache, now: int, maxAge: Option<int>) returns (r: Cleanup)
    ensures r.cache == AfterCleanup(c, now, maxAge.GetOr(DefaultMaxAgeMs))
    ensures r.deletedCount == |Evicted(c.disk, now, maxAge.GetOr(DefaultMaxAgeMs))|
    ensures maxAge.None? ==>
              forall f :: f in r.cache.disk <==> f in c.disk && now - c.disk[f].mtime <= 604_800_000
  {
    r := SweepDisk(c, now, maxAge.GetOr(DefaultMaxAgeMs));
  }

  /** The number of deletions is the number of files the directory lost. */
  lemma EvictedCount(c: Cache, now: int, maxAgeMs: int)
    ensures |Evicted(c.disk, now, maxAgeMs)| == |c.disk| - |AfterCleanup(c, now, maxAgeMs).disk|
  {
  }

  /** A file aged exactly `maxAgeMs` survives; one a millisecond older is removed. */
  lemma CleanupBoundary(c: Cache, now: int, maxAgeMs: int, kept: string, gone: string)
    requires kept in c.disk && c.disk[kept].mtime == now - maxAgeMs
    requires gone in c.disk && c.disk[gone].mtime == now - maxAgeMs - 1
    ensures kept in AfterCleanup(c, now, maxAgeMs).disk
    ensures gone !in AfterCleanup(c, now, maxAgeMs).disk
  {
  }

  /**
   * Clean-up only trims the disk: a hash that was in memory is still served,
   * unchanged, from memory afterwards, even if its file was deleted.
   */
  lemma CleanupKeepsMemoryHits(c: Cache, now: int, maxAgeMs: int, hash: string)
    requires hash in c.memory
    ensures GetFromCache(AfterCleanup(c, now, maxAgeMs), hash).audio == Some(c.memory[hash])
    ensures GetFromCache(AfterCleanup(c, now, maxAgeMs), hash).servedBy == Memory
  {
  }

  /**
   * A saved file survives a later clean-up at `now` exactly when its age by
   * the filesystem's timestamp, `now - mtime`, is at most `maxAgeMs`; its
   * bytes are then still the saved ones.
   */
  lemma SavedFileCleanupAge(c: Cache, hash: string, data: Bytes, mtime: int, now: int, maxAgeMs: int)
    ensures var cleaned := AfterCleanup(SaveToCache(c, hash, data, mtime), now, maxAgeMs);
            FileName(hash) in cleaned.disk <==> now - mtime <= maxAgeMs
    ensures var cleaned := AfterCleanup(SaveToCache(c, hash, data, mtime), now, maxAgeMs);
            FileName(hash) in cleaned.disk ==> cleaned.disk[FileName(hash)].data == data
  {
  }
}
