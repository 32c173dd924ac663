/** The state database over its journal: the shared account cache, updated in place. */
module StateDb {
  import opened Primitives
  import opened WorldState
  import opened AccountCache

  /** The cache that all clones of the database share. */
  class SharedCache {
    var accounts: CachedAccounts
    var modifications: seq<BlockChanges>

    constructor ()
      ensures Contents() == EMPTY_CACHE
    {
      accounts, modifications := map[], [];
    }

    ghost function Contents(): Cache
      reads this
    {
      Cache(accounts, modifications)
    }
  }

  class StateDB {
    const cache: SharedCache
    var localCache: seq<CacheQueueItem>
    const parentHash: Option<Hash>
    var commitHash: Option<Hash>
    var commitNumber: Option<nat>

    /** A clone on top of `parent`, or one with the cache disabled. */
    constructor BoxedClone(cache: SharedCache, parent: Option<Hash>)
      ensures this.cache == cache && parentHash == parent
      ensures localCache == [] && commitHash == None && commitNumber == None
    {
      this.cache, parentHash := cache, parent;
      localCache, commitHash, commitNumber := [], None, None;
    }

    method JournalUnder(now: nat, id: Hash)
      modifies this`commitHash, this`commitNumber
      ensures commitHash == Some(id) && commitNumber == Some(now)
    {
      commitHash, commitNumber := Some(id), Some(now);
    }

    method AddToAccountCache(address: Address, account: Option<Account>, modified: bool)
      modifies this`localCache
      ensures localCache == old(localCache) + [CacheQueueItem(address, account, modified)]
    {
      localCache := localCache + [CacheQueueItem(address, account, modified)];
    }

    /** The block that this clone commits, if it does. */
    ghost function Committing(): Option<Commit>
      reads this
    {
      if commitNumber.Some? && commitHash.Some? && parentHash.Some? then
        Some(Commit(commitNumber.value, commitHash.value, parentHash.value))
      else None
    }

    /** The shared cache after `sync_cache` of this clone. */
    ghost function Synced(enacted: seq<Hash>, retracted: seq<Hash>, isBest: bool): Cache
      reads this, cache
    {
      var purged := Purge(cache.Contents(), Skipping(enacted, commitHash), retracted);
      if Committing().Some? then Add(purged, Committing().value, localCache, isBest) else purged
    }

    /** Marks the blocks one by one; stops and reports when one is not in the list. */
    method MarkBlocks(hashes: seq<Hash>, isCanon: bool, skip: Option<Hash>) returns (clear: bool)
      modifies cache
      ensures var marked := MarkAll(old(cache.Contents()), Skipping(hashes, skip), isCanon);
              clear == marked.None? && (!clear ==> cache.Contents() == marked.value)
    {
      hide MarkAll, Skipping, Find;
      clear := false;
      var k := 0;
      assert hashes[0..] == hashes;
      while k < |hashes|
        invariant k <= |hashes|
        invariant MarkAll(old(cache.Contents()), Skipping(hashes, skip), isCanon)
                  == if clear then None else MarkAll(cache.Contents(), Skipping(hashes[k..], skip), isCanon)
      {
        MarkNext(cache.Contents(), hashes, k, skip, isCanon);
        var h := hashes[k];
        if skip != Some(h) && !clear {
          var i := FindEntry(cache.modifications, h);
          if i < |cache.modifications| {
            var m := cache.modifications[i];
            cache.modifications := cache.modifications[i := m.(isCanon := isCanon)];
            cache.accounts := cache.accounts - m.accounts;
          } else {
            clear := true;
          }
        }
        k := k + 1;
      }
      NothingToMark(cache.Contents(), hashes[k..], skip, isCanon);
    }

    static method FindEntry(mods: seq<BlockChanges>, h: Hash) returns (i: nat)
      ensures i == Find(mods, h)
    {
      i := 0;
      while i < |mods| && mods[i].hash != h
        invariant i <= |mods| && Find(mods, h) == i + Find(mods[i..], h)
      {
        i := i + 1;
      }
    }

    static method FindInsertion(mods: seq<BlockChanges>, number: nat) returns (i: nat)
      ensures i == InsertAt(mods, number)
    {
      i := 0;
      while i < |mods| && mods[i].number >= number
        invariant i <= |mods| && InsertAt(mods, number) == i + InsertAt(mods[i..], number)
      {
        i := i + 1;
      }
    }

    /** Drains the local cache: collects the modified addresses and, for the best block, updates the
        shared accounts. */
    method DrainLocalCache(isBest: bool) returns (modified: set<Address>)
      modifies this`localCache, cache`accounts
      ensures localCache == [] && modified == Modified(old(localCache))
      ensures cache.accounts
              == if isBest then PropagateAll(old(cache.accounts), old(localCache)) else old(cache.accounts)
    {
      modified := {};
      var k := 0;
      while k < |localCache|
        invariant k <= |localCache| && localCache == old(localCache)
        invariant modified == Modified(localCache[..k])
        invariant cache.accounts
                  == if isBest then PropagateAll(old(cache.accounts), localCache[..k]) else old(cache.accounts)
      {
        var item := localCache[k];
        assert localCache[..k + 1] == localCache[..k] + [item];
        if item.modified {
          modified := modified + {item.address};
        }
        if isBest {
          if item.address in cache.accounts && cache.accounts[item.address].Some? && item.account.Some? {
            if item.modified {
              cache.accounts := cache.accounts[item.address := item.account];
            }
          } else {
            cache.accounts := cache.accounts[item.address := item.account];
          }
        }
        k := k + 1;
      }
      assert localCache[..k] == localCache;
      localCache := [];
    }

    /** Propagate the local cache into the shared cache and synchronise it with the best block. */
    method SyncCache(enacted: seq<Hash>, retracted: seq<Hash>, isBest: bool)
      modifies this`localCache, cache
      ensures cache.Contents() == old(Synced(enacted, retracted, isBest))
      ensures localCache == if old(Committing()).Some? then [] else old(localCache)
    {
      hide MarkAll, PropagateAll, Modified, Without;
      var clear := MarkBlocks(enacted, true, commitHash);
      if !clear {
        clear := MarkBlocks(retracted, false, None);
      }
      if clear {
        cache.accounts, cache.modifications := map[], [];
      }
      if commitNumber.Some? && commitHash.Some? && parentHash.Some? {
        if |cache.modifications| == STATE_CACHE_BLOCKS {
          cache.modifications := cache.modifications[..|cache.modifications| - 1];
        }
        var modified := DrainLocalCache(isBest);
        var changes := BlockChanges(commitNumber.value, commitHash.value, parentHash.value, modified, isBest);
        var at := FindInsertion(cache.modifications, commitNumber.value);
        cache.modifications := cache.modifications[..at] + [changes] + cache.modifications[at..];
      }
    }

    static method CheckAllowed(mods: seq<BlockChanges>, a: Address, parentHash: Hash) returns (allowed: bool)
      ensures allowed == IsAllowed(mods, a, parentHash)
    {
      if mods == [] {
        return true;
      }
      var parent := parentHash;
      var i := 0;
      while i < |mods|
        invariant i <= |mods| && Allowed(mods, a, parentHash) == Allowed(mods[i..], a, parent)
      {
        var m := mods[i];
        assert mods[i..][1..] == mods[i + 1..];
        if m.hash == parent {
          if m.isCanon {
            return true;
          }
          parent := m.parent;
        }
        if a in m.accounts {
          return false;
        }
        i := i + 1;
      }
      return false;
    }

    /** The cached account of `a`, as seen from the block this clone sits on. */
    method GetCached(a: Address) returns (account: Option<Option<Account>>)
      ensures account == if parentHash.Some? then GetCachedAccount(cache.Contents(), parentHash.value, a) else None
    {
      if parentHash.None? {
        return None;
      }
      var allowed := CheckAllowed(cache.modifications, a, parentHash.value);
      if !allowed || a !in cache.accounts {
        return None;
      }
      return Some(cache.accounts[a]);
    }
  }
}
