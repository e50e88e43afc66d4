/**
 * The content-hash cache of parse results (src/utils/cache.ts): a map from
 * file path to the hash of the file's content when it was cached, the
 * cached record and the time it was stored. A lookup misses when caching
 * is disabled, when there is no entry, when the file's content changed
 * (the entry is evicted) or when the entry is older than an hour (also
 * evicted).
 *
 * The configuration flag, the file system (a map from path to content; a
 * path that is absent cannot be read), the clock and the content digest
 * (SHA-256 in hex in the source) are parameters; the extension's persisted
 * global state is a ghost snapshot.
 */
module Cache {
  import opened Wrappers
  import opened ParserTypes

  /** One hour in milliseconds. */
  const MaxAge: int := 1000 * 60 * 60

  datatype CacheEntry = CacheEntry(hash: string, data: ParseResult, timestamp: int)

  /** An entry older than `MaxAge` at time `now`; an age of exactly `MaxAge` is still fresh. */
  predicate Expired(e: CacheEntry, now: int) {
    now - e.timestamp > MaxAge
  }

  /** `getFileHash`: the digest of the file's content, or "" when the file cannot be read. */
  function FileHash(digest: string -> string, fs: map<string, string>, path: string): string {
    if path in fs then digest(fs[path]) else ""
  }

  /** The entries `cleanExpired` keeps. */
  function Unexpired(entries: map<string, CacheEntry>, now: int): (r: map<string, CacheEntry>)
    ensures forall k :: k in r <==> k in entries && !Expired(entries[k], now)
    ensures forall k :: k in r ==> r[k] == entries[k]
  {
    map k | k in entries && !Expired(entries[k], now) :: entries[k]
  }

  /** What `get` returns and the map it leaves behind. */
  datatype GetResult = GetResult(value: Option<ParseResult>, entries: map<string, CacheEntry>)

  /**
   * `get` for a file whose current hash is `currentHash`: a hit exactly when
   * caching is on, the entry exists, its hash is current and it has not
   * expired; a hit changes nothing, and a miss evicts the entry exactly when
   * it exists but is stale or expired.
   */
  function Lookup(entries: map<string, CacheEntry>, path: string, enabled: bool, currentHash: string, now: int): (r: GetResult)
    ensures r.value.Some? <==>
              enabled && path in entries && entries[path].hash == currentHash && !Expired(entries[path], now)
    ensures r.value.Some? ==> r.value.value == entries[path].data && r.entries == entries
    ensures r.value.None? ==>
              if enabled && path in entries then r.entries == entries - {path} else r.entries == entries
  {
    if !enabled then GetResult(None, entries)
    else if path !in entries then GetResult(None, entries)
    else if currentHash != entries[path].hash then GetResult(None, entries - {path})
    else if Expired(entries[path], now) then GetResult(None, entries - {path})
    else GetResult(Some(entries[path].data), entries)
  }

  class CacheManager {
    var entries: map<string, CacheEntry>
    /** The snapshot in the extension's global state; `None` when nothing is stored. */
    ghost var stored: Option<map<string, CacheEntry>>
    /** The content digest `getFileHash` applies. */
    const digest: string -> string

    /** The constructor with `loadCache`: the stored snapshot, less expired entries, when caching is on. */
    constructor(digest: string -> string, enabled: bool, saved: Option<map<string, CacheEntry>>, now: int)
      ensures this.digest == digest && stored == saved
      ensures entries == if enabled && saved.Some? then Unexpired(saved.value, now) else map[]
    {
      this.digest := digest;
      entries := map[];
      stored := saved;
      new;
      if enabled && saved.Some? {
        entries := saved.value;
        CleanExpired(now);
      }
    }

    /** `saveCache`: write the map to the global state when caching is on. */
    method SaveCache(enabled: bool)
      modifies this
      ensures entries == old(entries)
      ensures stored == if enabled then Some(entries) else old(stored)
    {
      if enabled {
        stored := Some(entries);
      }
    }

    /** `cleanExpired`: delete every expired entry; the global state is not written. */
    method CleanExpired(now: int)
      modifies this
      ensures entries == Unexpired(old(entries), now)
      ensures stored == old(stored)
    {
      var keys := entries.Keys;
      ghost var start := entries;
      while keys != {}
        invariant keys <= start.Keys
        invariant stored == old(stored)
        invariant forall k :: k in entries <==> k in start && (k in keys || !Expired(start[k], now))
        invariant forall k :: k in entries ==> entries[k] == start[k]
        decreases keys
      {
        var key :| key in keys;
        if now - entries[key].timestamp > MaxAge {
          entries := entries - {key};
        }
        keys := keys - {key};
      }
    }

    /** `get` */
    method Get(path: string, enabled: bool, fs: map<string, string>, now: int) returns (r: Option<ParseResult>)
      modifies this
      ensures var g := Lookup(old(entries), path, enabled, FileHash(digest, fs, path), now);
              r == g.value && entries == g.entries
      ensures stored == old(stored)
    {
      if !enabled {
        return None;
      }
      if path !in entries {
        return None;
      }
      var entry := entries[path];
      var currentHash := FileHash(digest, fs, path);
      if currentHash != entry.hash {
        entries := entries - {path};
        return None;
      }
      if now - entry.timestamp > MaxAge {
        entries := entries - {path};
        return None;
      }
      return Some(entry.data);
    }

    /** `set`: store the record under the file's current hash and the current time, and persist. */
    method Set(path: string, data: ParseResult, enabled: bool, fs: map<string, string>, now: int)
      modifies this
      ensures enabled ==> entries == old(entries)[path := CacheEntry(FileHash(digest, fs, path), data, now)]
                          && stored == Some(entries)
      ensures !enabled ==> entries == old(entries) && stored == old(stored)
    {
      if !enabled {
        return;
      }
      var hash := FileHash(digest, fs, path);
      entries := entries[path := CacheEntry(hash, data, now)];
      SaveCache(enabled);
    }

    /** `invalidate`: drop one entry and persist. */
    method Invalidate(path: string, enabled: bool)
      modifies this
      ensures entries == old(entries) - {path}
      ensures stored == if enabled then Some(entries) else old(stored)
    {
      entries := entries - {path};
      SaveCache(enabled);
    }

    /** `clear`: empty the map and remove the snapshot, whether or not caching is on. */
    method Clear()
      modifies this
      ensures entries == map[] && stored == None
    {
      entries := map[];
      stored := None;
    }

    /** The `entries` field of `getStats`. */
    method EntryCount() returns (n: nat)
      ensures n == |entries|
    {
      n := |entries|;
    }
  }

  // ---------------------------------------------------------------------------
  // Properties of the transitions
  // ---------------------------------------------------------------------------

  /** A record just stored is found again while the file is unchanged and the entry is at most an hour old. */
  lemma SetThenGet(entries: map<string, CacheEntry>, path: string, data: ParseResult, hash: string, stamp: int, now: int)
    requires stamp <= now <= stamp + MaxAge
    ensures var stored := entries[path := CacheEntry(hash, data, stamp)];
            Lookup(stored, path, true, hash, now) == GetResult(Some(data), stored)
  {
  }

  /** After the file's content changes to one with another digest, the entry misses and is evicted. */
  lemma ChangedContentMisses(entries: map<string, CacheEntry>, path: string, data: ParseResult,
                             digest: string -> string, before: string, after: string, stamp: int, now: int)
    requires digest(before) != digest(after)
    ensures var stored := entries[path := CacheEntry(digest(before), data, stamp)];
            Lookup(stored, path, true, FileHash(digest, map[path := after], path), now) == GetResult(None, stored - {path})
  {
  }

  /** An entry exactly `MaxAge` old still hits; one millisecond later it misses and is evicted. */
  lemma ExpiryBoundary(entries: map<string, CacheEntry>, path: string, e: CacheEntry)
    requires path in entries && entries[path] == e
    ensures Lookup(entries, path, true, e.hash, e.timestamp + MaxAge) == GetResult(Some(e.data), entries)
    ensures Lookup(entries, path, true, e.hash, e.timestamp + MaxAge + 1) == GetResult(None, entries - {path})
  {
  }

  /** With caching off, `get` misses and changes nothing. */
  lemma DisabledMisses(entries: map<string, CacheEntry>, path: string, currentHash: string, now: int)
    ensures Lookup(entries, path, false, currentHash, now) == GetResult(None, entries)
  {
  }

  /**
   * An unreadable file hashes to "": an entry stored while the file could
   * not be read keeps hitting as long as it still cannot be read.
   */
  lemma UnreadableFileHits(entries: map<string, CacheEntry>, path: string, data: ParseResult,
                           digest: string -> string, fs: map<string, string>, stamp: int, now: int)
    requires path !in fs
    requires stamp <= now <= stamp + MaxAge
    ensures FileHash(digest, fs, path) == ""
    ensures var stored := entries[path := CacheEntry(FileHash(digest, fs, path), data, stamp)];
            Lookup(stored, path, true, FileHash(digest, fs, path), now).value == Some(data)
  {
  }

  /** Removing expired entries first does not change what `get` returns at the same time. */
  lemma CleanExpiredInvisible(entries: map<string, CacheEntry>, path: string, currentHash: string, now: int)
    ensures Lookup(Unexpired(entries, now), path, true, currentHash, now).value
            == Lookup(entries, path, true, currentHash, now).value
  {
  }

  /** A second `get` right after the first returns the same thing and leaves the same map. */
  lemma LookupIdempotent(entries: map<string, CacheEntry>, path: string, enabled: bool, currentHash: string, now: int)
    ensures var g := Lookup(entries, path, enabled, currentHash, now);
            Lookup(g.entries, path, enabled, currentHash, now) == g
  {
  }
}
