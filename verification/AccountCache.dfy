/** The shared canonical account cache and its synchronisation with the block tree. */
module AccountCache {
  import opened Primitives
  import opened WorldState
  import opened BlockTree

  const STATE_CACHE_BLOCKS: nat := 12

  /** The accounts changed in one block. */
  datatype BlockChanges = BlockChanges(number: nat, hash: Hash, parent: Hash, accounts: set<Address>, isCanon: bool)

  datatype CacheQueueItem = CacheQueueItem(address: Address, account: Option<Account>, modified: bool)

  /** `None` says that the account is known to be missing. */
  type CachedAccounts = map<Address, Option<Account>>

  datatype Cache = Cache(accounts: CachedAccounts, modifications: seq<BlockChanges>)

  const EMPTY_CACHE := Cache(map[], [])

  /** The block that a clone of the database is about to add. */
  datatype Commit = Commit(number: nat, hash: Hash, parent: Hash)

  // ----- purging

  /** Index of the first entry of block `h`, or the length of the list. */
  function Find(mods: seq<BlockChanges>, h: Hash): (i: nat)
    ensures i <= |mods|
    ensures i < |mods| ==> mods[i].hash == h
    ensures forall j | 0 <= j < i :: mods[j].hash != h
  {
    if mods == [] || mods[0].hash == h then 0 else 1 + Find(mods[1..], h)
  }

  /** Marks block `h` and drops the accounts it changed; `None` when the block is not in the list. */
  function Mark(c: Cache, h: Hash, isCanon: bool): Option<Cache> {
    var i := Find(c.modifications, h);
    if i == |c.modifications| then None
    else
      var m := c.modifications[i];
      Some(Cache(c.accounts - m.accounts, c.modifications[i := m.(isCanon := isCanon)]))
  }

  function MarkAll(c: Cache, hashes: seq<Hash>, isCanon: bool): Option<Cache>
    decreases |hashes|
  {
    if hashes == [] then Some(c)
    else
      match Mark(c, hashes[0], isCanon)
      case None => None
      case Some(c') => MarkAll(c', hashes[1..], isCanon)
  }

  /** Marks the enacted and retracted blocks; an unknown block wipes the cache. */
  function Purge(c: Cache, enacted: seq<Hash>, retracted: seq<Hash>): Cache {
    match MarkAll(c, enacted, true)
    case None => EMPTY_CACHE
    case Some(c') =>
      match MarkAll(c', retracted, false)
      case None => EMPTY_CACHE
      case Some(c'') => c''
  }

  // ----- committing

  function Propagate(accounts: CachedAccounts, item: CacheQueueItem): CachedAccounts {
    if item.address in accounts && accounts[item.address].Some? && item.account.Some? then
      if item.modified then accounts[item.address := item.account] else accounts
    else
      accounts[item.address := item.account]
  }

  function PropagateAll(accounts: CachedAccounts, items: seq<CacheQueueItem>): CachedAccounts {
    if items == [] then accounts else Propagate(PropagateAll(accounts, items[..|items| - 1]), items[|items| - 1])
  }

  function Modified(items: seq<CacheQueueItem>): set<Address> {
    set item | item in items && item.modified :: item.address
  }

  /** Index of the first entry with a smaller number, or the length of the list. */
  function InsertAt(mods: seq<BlockChanges>, number: nat): (i: nat)
    ensures i <= |mods|
    ensures i < |mods| ==> mods[i].number < number
    ensures forall j | 0 <= j < i :: mods[j].number >= number
  {
    if mods == [] || mods[0].number < number then 0 else 1 + InsertAt(mods[1..], number)
  }

  function PopOldest(mods: seq<BlockChanges>): seq<BlockChanges> {
    if |mods| == STATE_CACHE_BLOCKS then mods[..|mods| - 1] else mods
  }

  function Insert(mods: seq<BlockChanges>, m: BlockChanges): seq<BlockChanges> {
    var i := InsertAt(mods, m.number);
    mods[..i] + [m] + mods[i..]
  }

  function Add(c: Cache, commit: Commit, items: seq<CacheQueueItem>, isBest: bool): Cache {
    Cache(
      if isBest then PropagateAll(c.accounts, items) else c.accounts,
      Insert(PopOldest(c.modifications),
             BlockChanges(commit.number, commit.hash, commit.parent, Modified(items), isBest)))
  }

  function Without(hashes: seq<Hash>, h: Hash): (r: seq<Hash>)
    ensures forall x :: x in r <==> x in hashes && x != h
  {
    if hashes == [] then []
    else if hashes[0] == h then Without(hashes[1..], h)
    else [hashes[0]] + Without(hashes[1..], h)
  }

  function Skipping(hashes: seq<Hash>, skip: Option<Hash>): seq<Hash> {
    if skip.Some? then Without(hashes, skip.value) else hashes
  }

  lemma NothingToMark(c: Cache, hashes: seq<Hash>, skip: Option<Hash>, isCanon: bool)
    requires hashes == []
    ensures MarkAll(c, Skipping(hashes, skip), isCanon) == Some(c)
  {
  }

  lemma MarkNext(c: Cache, hashes: seq<Hash>, k: nat, skip: Option<Hash>, isCanon: bool)
    requires k < |hashes|
    ensures MarkAll(c, Skipping(hashes[k..], skip), isCanon) ==
            if skip == Some(hashes[k]) then MarkAll(c, Skipping(hashes[k + 1..], skip), isCanon)
            else match Mark(c, hashes[k], isCanon)
                 case None => None
                 case Some(c') => MarkAll(c', Skipping(hashes[k + 1..], skip), isCanon)
  {
    hide Mark;
    var rest := hashes[k..];
    assert rest[0] == hashes[k] && rest[1..] == hashes[k + 1..];
    if skip != Some(hashes[k]) {
      var todo := Skipping(rest, skip);
      assert todo[0] == hashes[k] && todo[1..] == Skipping(rest[1..], skip);
    }
  }

  /** `sync_cache` of a clone that commits a block, and of one that does not. */
  function SyncCommit(c: Cache, enacted: seq<Hash>, retracted: seq<Hash>, commit: Commit, items: seq<CacheQueueItem>,
                      isBest: bool): Cache {
    Add(Purge(c, Without(enacted, commit.hash), retracted), commit, items, isBest)
  }

  // ----- lookup

  function Allowed(mods: seq<BlockChanges>, a: Address, parent: Hash): bool {
    if mods == [] then false
    else if mods[0].hash == parent && mods[0].isCanon then true
    else if a in mods[0].accounts then false
    else Allowed(mods[1..], a, if mods[0].hash == parent then mods[0].parent else parent)
  }

  predicate IsAllowed(mods: seq<BlockChanges>, a: Address, parent: Hash) {
    mods == [] || Allowed(mods, a, parent)
  }

  function GetCachedAccount(c: Cache, parent: Hash, a: Address): Option<Option<Account>> {
    if IsAllowed(c.modifications, a, parent) && a in c.accounts then Some(c.accounts[a]) else None
  }

  // ----- the invariant

  ghost predicate Ordered(mods: seq<BlockChanges>) {
    && (forall i, j | 0 <= i < j < |mods| :: mods[i].number >= mods[j].number)
    && (forall i, j | 0 <= i < j < |mods| :: mods[i].hash != mods[j].hash)
  }

  /** An entry tells the truth about its block. */
  ghost predicate Describes(tree: Tree, m: BlockChanges) {
    && m.hash in tree && m.number == tree[m.hash].number && m.parent == tree[m.hash].parent
    && (forall a | a !in m.accounts :: Untouched(tree, m.hash, a))
  }

  predicate Listed(mods: seq<BlockChanges>, h: Hash) {
    exists i | 0 <= i < |mods| :: mods[i].hash == h
  }

  /** `is_canon` marks the blocks of `chain`, and every block of `chain` above a marked entry, other than
      `except`, has an entry. */
  ghost predicate TracksChain(tree: Tree, mods: seq<BlockChanges>, chain: set<Hash>, except: set<Hash>) {
    && (forall i | 0 <= i < |mods| :: mods[i].isCanon <==> mods[i].hash in chain)
    && (forall i, b | 0 <= i < |mods| && mods[i].isCanon && b in chain - except && b in tree
         && tree[b].number >= mods[i].number ::
          Listed(mods, b))
  }

  ghost predicate AgreesWith(tree: Tree, accounts: CachedAccounts, h: Hash) {
    h in tree && forall a | a in accounts :: accounts[a] == At(tree, h, a)
  }

  ghost predicate Inv(tree: Tree, root: Hash, head: Hash, c: Cache) {
    && ValidTree(tree, root) && head in tree
    && |c.modifications| <= STATE_CACHE_BLOCKS
    && Ordered(c.modifications)
    && (forall i | 0 <= i < |c.modifications| :: Describes(tree, c.modifications[i]))
    && TracksChain(tree, c.modifications, Chain(tree, root, head), {})
    && AgreesWith(tree, c.accounts, head)
    && (c.modifications == [] ==> c.accounts == map[])
  }

  // ----- lookups are sound

  /** A block of the chain above the canonical entry `i` has its own entry in front of it. */
  lemma ListedInFront(tree: Tree, mods: seq<BlockChanges>, chain: set<Hash>, i: nat, b: Hash) returns (j: nat)
    requires Ordered(mods) && TracksChain(tree, mods, chain, {}) && i < |mods| && mods[i].isCanon
    requires forall k | 0 <= k < |mods| :: Describes(tree, mods[k])
    requires b in chain && b in tree && tree[b].number > mods[i].number
    ensures j < i && mods[j].hash == b
  {
    assert b in chain - {};
    assert Listed(mods, b);
    j :| 0 <= j < |mods| && mods[j].hash == b;
    assert Describes(tree, mods[j]);
  }

  /** Above a canonical entry nothing touched an account that no entry before it lists. */
  lemma CanonicalEntryAgrees(tree: Tree, root: Hash, head: Hash, c: Cache, i: nat, a: Address)
    requires Inv(tree, root, head, c) && i < |c.modifications| && c.modifications[i].isCanon
    requires forall j | 0 <= j < i :: a !in c.modifications[j].accounts
    ensures c.modifications[i].hash in tree && At(tree, head, a) == At(tree, c.modifications[i].hash, a)
  {
    var mods := c.modifications;
    var low := mods[i].hash;
    assert Describes(tree, mods[i]);
    forall b | b in Chain(tree, root, head) && b in tree && tree[b].number > tree[low].number
      ensures Untouched(tree, b, a)
    {
      var j := ListedInFront(tree, mods, Chain(tree, root, head), i, b);
      assert Describes(tree, mods[j]);
    }
    hide TracksChain, Ordered, Describes;
    UntouchedChain(tree, root, head, low, a);
  }

  /** The walk of `is_allowed` from entry `i` on, looking for `parent`. */
  lemma {:induction false} AllowedAgrees(tree: Tree, root: Hash, head: Hash, c: Cache, i: nat, a: Address, parent: Hash)
    requires Inv(tree, root, head, c) && i <= |c.modifications|
    requires forall j | 0 <= j < i :: a !in c.modifications[j].accounts
    requires Allowed(c.modifications[i..], a, parent)
    ensures parent in tree && At(tree, parent, a) == At(tree, head, a)
    decreases |c.modifications| - i
  {
    var m := c.modifications[i];
    assert c.modifications[i..][0] == m && c.modifications[i..][1..] == c.modifications[i + 1..];
    if m.hash == parent && m.isCanon {
      CanonicalEntryAgrees(tree, root, head, c, i, a);
    } else {
      AllowedAgrees(tree, root, head, c, i + 1, a, if m.hash == parent then m.parent else parent);
      assert Describes(tree, m);
      assert m.hash == parent ==> Untouched(tree, parent, a);
    }
  }

  /** A cached account that a clone on top of `parent` is given is the account in the state of `parent`. */
  lemma LookupSound(tree: Tree, root: Hash, head: Hash, c: Cache, parent: Hash, a: Address)
    requires Inv(tree, root, head, c) && GetCachedAccount(c, parent, a).Some?
    ensures parent in tree && GetCachedAccount(c, parent, a).value == At(tree, parent, a)
  {
    assert c.modifications[0..] == c.modifications;
    AllowedAgrees(tree, root, head, c, 0, a, parent);
  }

  /** On a canonical parent the answer is given exactly when no entry in front of it lists the account. */
  lemma {:induction false} AllowedOnCanonical(mods: seq<BlockChanges>, i: nat, a: Address)
    requires Ordered(mods) && i < |mods| && mods[i].isCanon
    ensures Allowed(mods, a, mods[i].hash) <==> forall j | 0 <= j < i :: a !in mods[j].accounts
  {
    if i > 0 {
      AllowedOnCanonical(mods[1..], i - 1, a);
      assert forall j | 0 < j < i :: mods[1..][j - 1] == mods[j];
      assert (forall j | 0 <= j < i - 1 :: a !in mods[1..][j].accounts) <==>
        (forall j | 0 < j < i :: a !in mods[j].accounts);
    }
  }

  // ----- synchronisation keeps the invariant

  /** The lists differ in the canonical marks only. */
  ghost predicate SameEntries(mods: seq<BlockChanges>, mods': seq<BlockChanges>) {
    |mods| == |mods'| && forall i | 0 <= i < |mods| :: mods'[i] == mods[i].(isCanon := mods'[i].isCanon)
  }

  /** What is left in `accounts` was there before and is not listed by a block of `hashes`. */
  ghost predicate Purged(c: Cache, accounts: CachedAccounts, hashes: seq<Hash>) {
    forall a | a in accounts ::
      && a in c.accounts && accounts[a] == c.accounts[a]
      && forall i | 0 <= i < |c.modifications| && c.modifications[i].hash in hashes :: a !in c.modifications[i].accounts
  }

  ghost predicate Marked(c: Cache, hashes: seq<Hash>, isCanon: bool, c': Cache) {
    && SameEntries(c.modifications, c'.modifications)
    && (forall i | 0 <= i < |c.modifications| ::
          c'.modifications[i].isCanon
            == if c.modifications[i].hash in hashes then isCanon else c.modifications[i].isCanon)
    && Purged(c, c'.accounts, hashes)
    && (forall h | h in hashes :: Listed(c.modifications, h))
  }

  lemma MarkEffect(c: Cache, h: Hash, isCanon: bool)
    requires Ordered(c.modifications) && Mark(c, h, isCanon).Some?
    ensures Marked(c, [h], isCanon, Mark(c, h, isCanon).value)
    ensures Ordered(Mark(c, h, isCanon).value.modifications)
  {
    assert c.modifications[Find(c.modifications, h)].hash == h;
  }

  lemma MarkedCompose(c: Cache, c1: Cache, c2: Cache, h: Hash, rest: seq<Hash>, isCanon: bool)
    requires Marked(c, [h], isCanon, c1) && Marked(c1, rest, isCanon, c2)
    ensures Marked(c, [h] + rest, isCanon, c2)
  {
    var hashes := [h] + rest;
    assert forall x :: x in hashes <==> x == h || x in rest;
    assert forall i | 0 <= i < |c.modifications| :: c1.modifications[i].hash == c.modifications[i].hash;
    assert forall i | 0 <= i < |c.modifications| :: c1.modifications[i].accounts == c.modifications[i].accounts;
    forall x | x in hashes
      ensures Listed(c.modifications, x)
    {
      if x in rest {
        assert Listed(c1.modifications, x);
        var j :| 0 <= j < |c1.modifications| && c1.modifications[j].hash == x;
        assert c.modifications[j].hash == x;
      }
    }
  }

  lemma {:induction false} MarkAllEffect(c: Cache, hashes: seq<Hash>, isCanon: bool)
    requires Ordered(c.modifications) && MarkAll(c, hashes, isCanon).Some?
    ensures Marked(c, hashes, isCanon, MarkAll(c, hashes, isCanon).value)
    decreases |hashes|
  {
    if hashes != [] {
      hide Marked, Ordered, Mark;
      var h, rest := hashes[0], hashes[1..];
      var c1 := Mark(c, h, isCanon).value;
      MarkEffect(c, h, isCanon);
      MarkAllEffect(c1, rest, isCanon);
      MarkedCompose(c, c1, MarkAll(c1, rest, isCanon).value, h, rest, isCanon);
      assert [h] + rest == hashes;
    }
  }

  /** The route from head `from` to block `to`: what has to be enacted and what retracted. */
  ghost predicate IsRoute(tree: Tree, root: Hash, from: Hash, to: Hash, enacted: seq<Hash>, retracted: seq<Hash>)
    requires ValidTree(tree, root) && from in tree && to in tree
  {
    && (forall x :: x in enacted <==> x in Chain(tree, root, to) && x !in Chain(tree, root, from))
    && (forall x :: x in retracted <==> x in Chain(tree, root, from) && x !in Chain(tree, root, to))
  }

  /** All blocks of the route are listed, and the account is in none of their entries. */
  ghost predicate RouteAvoids(mods: seq<BlockChanges>, hashes: seq<Hash>, a: Address) {
    forall h | h in hashes :: exists i :: 0 <= i < |mods| && mods[i].hash == h && a !in mods[i].accounts
  }

  /** An account that no block of the route touched is the same on both ends. */
  lemma RouteKeepsAccount(tree: Tree, root: Hash, from: Hash, to: Hash, mods: seq<BlockChanges>, enacted: seq<Hash>,
                          retracted: seq<Hash>, a: Address)
    requires ValidTree(tree, root) && from in tree && to in tree && IsRoute(tree, root, from, to, enacted, retracted)
    requires forall i | 0 <= i < |mods| :: Describes(tree, mods[i])
    requires RouteAvoids(mods, enacted, a) && RouteAvoids(mods, retracted, a)
    ensures At(tree, from, a) == At(tree, to, a)
  {
    var m := Fork(tree, root, from, to);
    forall b | b in tree && tree[b].number > tree[m].number
      && (b in Chain(tree, root, from) || b in Chain(tree, root, to))
      ensures Untouched(tree, b, a)
    {
      assert b in enacted || b in retracted;
      var i :| 0 <= i < |mods| && mods[i].hash == b && a !in mods[i].accounts;
      assert Describes(tree, mods[i]);
    }
    UntouchedChain(tree, root, from, m, a);
    UntouchedChain(tree, root, to, m, a);
  }

  /** Re-marking along a route tracks the new chain. */
  lemma RouteTracksChain(tree: Tree, root: Hash, from: Hash, to: Hash, mods: seq<BlockChanges>,
                         mods': seq<BlockChanges>, enacted: seq<Hash>, retracted: seq<Hash>)
    requires ValidTree(tree, root) && from in tree && to in tree && IsRoute(tree, root, from, to, enacted, retracted)
    requires forall i | 0 <= i < |mods| :: Describes(tree, mods[i])
    requires TracksChain(tree, mods, Chain(tree, root, from), {}) && SameEntries(mods, mods')
    requires forall h | h in enacted :: Listed(mods, h)
    requires forall i | 0 <= i < |mods| ::
               mods'[i].isCanon == (mods[i].hash !in retracted && (mods[i].hash in enacted || mods[i].isCanon))
    ensures TracksChain(tree, mods', Chain(tree, root, to), {})
  {
    var before, after := Chain(tree, root, from), Chain(tree, root, to);
    forall i, b | 0 <= i < |mods'| && mods'[i].isCanon && b in after && b in tree && tree[b].number >= mods'[i].number
      ensures Listed(mods', b)
    {
      var e := mods[i].hash;
      assert Describes(tree, mods[i]) && e in after;
      if b in before {
        ChainLinear(tree, root, to, e, b);
        ChainClosed(tree, root, from, b);
        assert mods[i].isCanon;
      }
      assert Listed(mods, b);
      var j :| 0 <= j < |mods| && mods[j].hash == b;
      assert mods'[j].hash == b;
    }
  }

  lemma EmptyCacheInv(tree: Tree, root: Hash, head: Hash)
    requires ValidTree(tree, root) && head in tree
    ensures Inv(tree, root, head, EMPTY_CACHE)
  {
  }

  lemma PurgedAvoids(c: Cache, accounts: CachedAccounts, hashes: seq<Hash>, a: Address)
    requires Purged(c, accounts, hashes) && a in accounts
    requires forall h | h in hashes :: Listed(c.modifications, h)
    ensures RouteAvoids(c.modifications, hashes, a)
  {
    forall h | h in hashes
      ensures exists i ::
                0 <= i < |c.modifications| && c.modifications[i].hash == h && a !in c.modifications[i].accounts
    {
      assert Listed(c.modifications, h);
    }
  }

  /** Both markings, seen from the cache before them. */
  lemma MarkedTwice(c: Cache, c1: Cache, c2: Cache, enacted: seq<Hash>, retracted: seq<Hash>)
    requires Marked(c, enacted, true, c1) && Marked(c1, retracted, false, c2)
    ensures SameEntries(c.modifications, c2.modifications)
    ensures forall i | 0 <= i < |c.modifications| ::
              var m := c.modifications[i];
              c2.modifications[i].isCanon == (m.hash !in retracted && (m.hash in enacted || m.isCanon))
    ensures Purged(c, c2.accounts, enacted) && Purged(c, c2.accounts, retracted)
    ensures forall h | h in enacted || h in retracted :: Listed(c.modifications, h)
  {
    forall h | h in retracted
      ensures Listed(c.modifications, h)
    {
      assert Listed(c1.modifications, h);
      var i :| 0 <= i < |c1.modifications| && c1.modifications[i].hash == h;
      assert c.modifications[i].hash == h;
    }
    forall a | a in c2.accounts
      ensures a in c.accounts && c2.accounts[a] == c.accounts[a]
      ensures forall i | 0 <= i < |c.modifications| && c.modifications[i].hash in retracted ::
              a !in c.modifications[i].accounts
    {
      assert a in c1.accounts;
      forall i | 0 <= i < |c.modifications| && c.modifications[i].hash in retracted
        ensures a !in c.modifications[i].accounts
      {
        assert c1.modifications[i].hash in retracted && c1.modifications[i].accounts == c.modifications[i].accounts;
      }
    }
  }

  /** Purging along the route from the old head to `to` leaves a cache that fits `to`. */
  lemma PurgeReroutes(tree: Tree, root: Hash, head: Hash, c: Cache, to: Hash, enacted: seq<Hash>, retracted: seq<Hash>)
    requires Inv(tree, root, head, c) && to in tree && IsRoute(tree, root, head, to, enacted, retracted)
    ensures Inv(tree, root, to, Purge(c, enacted, retracted))
  {
    hide Inv, MarkAll, Marked, Ordered, IsRoute;
    InvOrdered(tree, root, head, c);
    EmptyCacheInv(tree, root, to);
    if MarkAll(c, enacted, true).Some? {
      var c1 := MarkAll(c, enacted, true).value;
      MarkAllEffect(c, enacted, true);
      MarkedOrdered(c, c1, enacted, true);
      if MarkAll(c1, retracted, false).Some? {
        MarkAllEffect(c1, retracted, false);
        MarkingReroutes(tree, root, head, c, c1, MarkAll(c1, retracted, false).value, to, enacted, retracted);
      }
    }
  }

  lemma InvOrdered(tree: Tree, root: Hash, head: Hash, c: Cache)
    requires Inv(tree, root, head, c)
    ensures ValidTree(tree, root) && Ordered(c.modifications)
  {
  }

  lemma MarkedOrdered(c: Cache, c': Cache, hashes: seq<Hash>, isCanon: bool)
    requires Ordered(c.modifications) && Marked(c, hashes, isCanon, c')
    ensures Ordered(c'.modifications)
  {
    assert SameEntries(c.modifications, c'.modifications);
  }

  lemma MarkingReroutes(tree: Tree, root: Hash, head: Hash, c: Cache, c1: Cache, c2: Cache, to: Hash,
                        enacted: seq<Hash>, retracted: seq<Hash>)
    requires Inv(tree, root, head, c) && to in tree && IsRoute(tree, root, head, to, enacted, retracted)
    requires Marked(c, enacted, true, c1) && Marked(c1, retracted, false, c2)
    ensures Inv(tree, root, to, c2)
  {
    hide IsRoute;
    MarkedOrdered(c, c1, enacted, true);
    MarkedOrdered(c1, c2, retracted, false);
    MarkedTwice(c, c1, c2, enacted, retracted);
    hide Marked, Ordered;
    RouteTracksChain(tree, root, head, to, c.modifications, c2.modifications, enacted, retracted);
    forall a | a in c2.accounts
      ensures c2.accounts[a] == At(tree, to, a)
    {
      PurgedAvoids(c, c2.accounts, enacted, a);
      PurgedAvoids(c, c2.accounts, retracted, a);
      RouteKeepsAccount(tree, root, head, to, c.modifications, enacted, retracted, a);
    }
    forall i | 0 <= i < |c2.modifications|
      ensures Describes(tree, c2.modifications[i])
    {
      assert Describes(tree, c.modifications[i]);
    }
  }

  /** A later synchronisation along a route that the head has already taken keeps the cache in step. */
  lemma ResyncKeeps(tree: Tree, root: Hash, head: Hash, c: Cache, enacted: seq<Hash>, retracted: seq<Hash>)
    requires Inv(tree, root, head, c)
    requires forall h | h in enacted :: h in Chain(tree, root, head)
    requires forall h | h in retracted :: h !in Chain(tree, root, head)
    ensures Inv(tree, root, head, Purge(c, enacted, retracted))
  {
    EmptyCacheInv(tree, root, head);
    if MarkAll(c, enacted, true).Some? {
      var c1 := MarkAll(c, enacted, true).value;
      MarkAllEffect(c, enacted, true);
      assert c1.modifications == c.modifications;
      if MarkAll(c1, retracted, false).Some? {
        var c2 := MarkAll(c1, retracted, false).value;
        MarkAllEffect(c1, retracted, false);
        assert c2.modifications == c.modifications;
      }
    }
  }

  ghost predicate NewBlock(tree: Tree, root: Hash, commit: Commit) {
    && ValidTree(tree, root)
    && commit.hash !in tree && commit.hash != tree[root].parent && commit.parent in tree
    && commit.number == tree[commit.parent].number + 1
  }

  /** What a committing clone guarantees about its block: it is new, it sits on a known parent, the local
      cache holds the state after the block, once per address, and marks every change. */
  ghost predicate ValidCommit(tree: Tree, root: Hash, commit: Commit, state: Accounts, items: seq<CacheQueueItem>) {
    NewBlock(tree, root, commit) && ValidItems(tree[commit.parent].state, state, items)
  }

  /** The items hold accounts of `state`, one per address, and mark every change since `base`.
      `AccountJournal.State.Drop` produces such items. */
  ghost predicate ValidItems(base: Accounts, state: Accounts, items: seq<CacheQueueItem>) {
    && (forall i | 0 <= i < |items| :: items[i].account == Get(state, items[i].address))
    && (forall i, j | 0 <= i < j < |items| :: items[i].address != items[j].address)
    && (forall a | Get(state, a) != Get(base, a) ::
          exists i :: 0 <= i < |items| && items[i].address == a && items[i].modified)
  }

  function Grown(tree: Tree, commit: Commit, state: Accounts): Tree {
    tree[commit.hash := Block(commit.number, commit.parent, state)]
  }

  predicate Mentions(items: seq<CacheQueueItem>, a: Address) {
    exists i | 0 <= i < |items| :: items[i].address == a
  }

  /** An address that is not marked keeps its account. */
  lemma UnmarkedIsUnchanged(tree: Tree, root: Hash, commit: Commit, state: Accounts, items: seq<CacheQueueItem>,
                            a: Address)
    requires ValidCommit(tree, root, commit, state, items) && a !in Modified(items)
    ensures Get(state, a) == At(tree, commit.parent, a)
  {
  }

  /** After the first `k` items, the items' addresses show the new state and the others what they showed. */
  lemma {:induction false} PropagateAgrees(tree: Tree, root: Hash, commit: Commit, state: Accounts,
                                           items: seq<CacheQueueItem>, accounts: CachedAccounts, k: nat)
    requires ValidCommit(tree, root, commit, state, items) && k <= |items|
    requires AgreesWith(tree, accounts, commit.parent)
    ensures forall a | a in PropagateAll(accounts, items[..k]) ::
              if Mentions(items[..k], a) then PropagateAll(accounts, items[..k])[a] == Get(state, a)
              else a in accounts && PropagateAll(accounts, items[..k])[a] == accounts[a]
  {
    if k > 0 {
      PropagateAgrees(tree, root, commit, state, items, accounts, k - 1);
      LastItem(tree, root, commit, state, items, k);
      MentionsLast(items, k);
      hide ValidCommit, Mentions, Modified;
    }
  }

  lemma MentionsLast(items: seq<CacheQueueItem>, k: nat)
    requires 0 < k <= |items|
    ensures items[..k][..k - 1] == items[..k - 1]
    ensures forall a :: Mentions(items[..k], a) <==> Mentions(items[..k - 1], a) || a == items[k - 1].address
  {
    assert items[..k][k - 1] == items[k - 1];
    assert forall i | 0 <= i < k - 1 :: items[..k][i] == items[..k - 1][i];
  }

  /** An item speaks of an address for the first time, and of an unchanged account unless it is marked. */
  lemma LastItem(tree: Tree, root: Hash, commit: Commit, state: Accounts, items: seq<CacheQueueItem>, k: nat)
    requires ValidCommit(tree, root, commit, state, items) && 0 < k <= |items|
    ensures var item := items[k - 1];
            && !Mentions(items[..k - 1], item.address) && item.account == Get(state, item.address)
            && (!item.modified ==> Get(state, item.address) == At(tree, commit.parent, item.address))
  {
    var item := items[k - 1];
    if !item.modified {
      assert forall i | 0 <= i < |items| && items[i].address == item.address :: i == k - 1;
      assert item.address !in Modified(items);
      UnmarkedIsUnchanged(tree, root, commit, state, items, item.address);
    }
  }

  /** The local cache of the new best block brings the shared cache to its state. */
  lemma PropagateAllAgrees(tree: Tree, root: Hash, commit: Commit, state: Accounts, items: seq<CacheQueueItem>,
                           accounts: CachedAccounts)
    requires ValidCommit(tree, root, commit, state, items) && AgreesWith(tree, accounts, commit.parent)
    ensures AgreesWith(Grown(tree, commit, state), PropagateAll(accounts, items), commit.hash)
  {
    var r := PropagateAll(accounts, items);
    PropagateAgrees(tree, root, commit, state, items, accounts, |items|);
    assert items[..|items|] == items;
    forall a | a in r
      ensures r[a] == Get(state, a)
    {
      if !Mentions(items, a) {
        assert a !in Modified(items);
        UnmarkedIsUnchanged(tree, root, commit, state, items, a);
      }
    }
  }

  lemma PopTracks(tree: Tree, mods: seq<BlockChanges>, chain: set<Hash>, except: set<Hash>)
    requires Ordered(mods) && TracksChain(tree, mods, chain, except)
    requires forall i | 0 <= i < |mods| :: Describes(tree, mods[i])
    requires forall b, d | b in chain && d in chain && b in tree && d in tree && tree[b].number == tree[d].number ::
             b == d
    ensures TracksChain(tree, PopOldest(mods), chain, except)
  {
    var n := |mods| - 1;
    if |mods| == STATE_CACHE_BLOCKS {
      forall i, b | 0 <= i < n && mods[i].isCanon && b in chain - except && b in tree
        && tree[b].number >= mods[i].number
        ensures Listed(mods[..n], b)
      {
        assert Listed(mods, b);
        var j :| 0 <= j < |mods| && mods[j].hash == b;
        assert Describes(tree, mods[j]) && Describes(tree, mods[i]);
        assert j != n;
        assert mods[..n][j].hash == b;
      }
    }
  }

  lemma InsertTracks(tree: Tree, mods: seq<BlockChanges>, m: BlockChanges, chain: set<Hash>)
    requires TracksChain(tree, mods, chain, {m.hash}) && !Listed(mods, m.hash)
    requires m.isCanon <==> m.hash in chain
    requires m.isCanon ==> forall b | b in chain && b in tree && b != m.hash :: tree[b].number < m.number
    ensures TracksChain(tree, Insert(mods, m), chain, {})
  {
    var k := InsertAt(mods, m.number);
    var r := Insert(mods, m);
    assert r[k] == m;
    assert forall i | 0 <= i < k :: r[i] == mods[i];
    assert forall i | k < i < |r| :: r[i] == mods[i - 1];
    forall i, b | 0 <= i < |r| && r[i].isCanon && b in chain && b in tree && tree[b].number >= r[i].number
      ensures Listed(r, b)
    {
      if b != m.hash {
        assert Listed(mods, b);
        var j :| 0 <= j < |mods| && mods[j].hash == b;
        assert r[if j < k then j else j + 1].hash == b;
      }
    }
  }

  lemma InsertOrdered(mods: seq<BlockChanges>, m: BlockChanges)
    requires Ordered(mods) && !Listed(mods, m.hash)
    ensures Ordered(Insert(mods, m))
    ensures forall i | 0 <= i < |Insert(mods, m)| :: Insert(mods, m)[i] == m || Insert(mods, m)[i] in mods
  {
    var k := InsertAt(mods, m.number);
    var r := Insert(mods, m);
    forall i, j | 0 <= i < j < |r|
      ensures r[i].number >= r[j].number && r[i].hash != r[j].hash
    {
      var x, y := if i < k then i else i - 1, if j < k then j else j - 1;
      assert i != k ==> r[i] == mods[x];
      assert j != k ==> r[j] == mods[y];
      if i == k {
        assert !(mods[y].hash == m.hash) && mods[k].number < m.number;
      } else if j == k {
        assert !(mods[x].hash == m.hash);
      }
    }
  }

  /** A new leaf leaves everything that is known about the older blocks in place. */
  lemma GrownKeepsInv(tree: Tree, root: Hash, head: Hash, c: Cache, commit: Commit, state: Accounts)
    requires Inv(tree, root, head, c) && NewBlock(tree, root, commit)
    ensures Inv(Grown(tree, commit, state), root, head, c)
  {
    var tree' := Grown(tree, commit, state);
    ChainExtends(tree, root, commit.hash, tree'[commit.hash], head);
    ChainInTree(tree, root, head);
    forall i | 0 <= i < |c.modifications|
      ensures Describes(tree', c.modifications[i])
    {
      assert Describes(tree, c.modifications[i]);
      var h := c.modifications[i].hash;
      forall a | a !in c.modifications[i].accounts
        ensures Untouched(tree', h, a)
      {
        assert Untouched(tree, h, a);
        assert h == root || tree[h].parent in tree;
      }
    }
  }

  /** Adding the entry of the new block to a list that tracks `chain` up to that block. */
  lemma AddEntry(tree: Tree, mods: seq<BlockChanges>, m: BlockChanges, chain: set<Hash>)
    requires Ordered(mods) && |mods| <= STATE_CACHE_BLOCKS && !Listed(mods, m.hash) && Describes(tree, m)
    requires forall i | 0 <= i < |mods| :: Describes(tree, mods[i])
    requires TracksChain(tree, mods, chain, {m.hash})
    requires forall b, d | b in chain && d in chain && b in tree && d in tree && tree[b].number == tree[d].number ::
             b == d
    requires m.isCanon <==> m.hash in chain
    requires m.isCanon ==> forall b | b in chain && b in tree && b != m.hash :: tree[b].number < m.number
    ensures var r := Insert(PopOldest(mods), m);
            && |r| <= STATE_CACHE_BLOCKS && Ordered(r) && TracksChain(tree, r, chain, {})
            && forall i | 0 <= i < |r| :: Describes(tree, r[i])
  {
    var popped := PopOldest(mods);
    PopTracks(tree, mods, chain, {m.hash});
    assert Ordered(popped);
    assert !Listed(popped, m.hash) by {
      assert forall i | 0 <= i < |popped| :: popped[i] == mods[i];
    }
    InsertOrdered(popped, m);
    InsertTracks(tree, popped, m, chain);
    var r := Insert(popped, m);
    forall i | 0 <= i < |r|
      ensures Describes(tree, r[i])
    {
      assert r[i] == m || r[i] in popped;
    }
  }

  lemma NewEntryDescribes(tree: Tree, root: Hash, commit: Commit, state: Accounts, items: seq<CacheQueueItem>,
                          isBest: bool)
    requires ValidCommit(tree, root, commit, state, items)
    ensures Describes(Grown(tree, commit, state),
                      BlockChanges(commit.number, commit.hash, commit.parent, Modified(items), isBest))
  {
    forall a | a !in Modified(items)
      ensures Untouched(Grown(tree, commit, state), commit.hash, a)
    {
      UnmarkedIsUnchanged(tree, root, commit, state, items, a);
    }
  }

  lemma UniqueNumbers(tree: Tree, root: Hash, h: Hash)
    requires ValidTree(tree, root) && h in tree
    ensures var chain := Chain(tree, root, h);
            forall b, d | b in chain && d in chain && b in tree && d in tree && tree[b].number == tree[d].number ::
              b == d
  {
    var chain := Chain(tree, root, h);
    forall b, d | b in chain && d in chain && b in tree && d in tree && tree[b].number == tree[d].number
      ensures b == d
    {
      ChainLinear(tree, root, h, b, d);
    }
  }

  /** Committing a block that does not become the head. */
  lemma AddSideBlock(tree: Tree, root: Hash, head: Hash, c: Cache, commit: Commit, state: Accounts,
                     items: seq<CacheQueueItem>)
    requires Inv(tree, root, head, c) && ValidCommit(tree, root, commit, state, items)
    ensures Inv(Grown(tree, commit, state), root, head, Add(c, commit, items, false))
  {
    var tree' := Grown(tree, commit, state);
    GrownKeepsInv(tree, root, head, c, commit, state);
    ChainExtends(tree, root, commit.hash, tree'[commit.hash], head);
    ChainInTree(tree, root, head);
    UniqueNumbers(tree', root, head);
    NewEntryDescribes(tree, root, commit, state, items, false);
    var m := BlockChanges(commit.number, commit.hash, commit.parent, Modified(items), false);
    assert !Listed(c.modifications, m.hash) by {
      assert forall i | 0 <= i < |c.modifications| :: Describes(tree, c.modifications[i]);
    }
    AddEntry(tree', c.modifications, m, Chain(tree', root, head));
  }

  /** Committing the new head on top of a cache that fits its parent. */
  lemma AddBestBlock(tree: Tree, root: Hash, c: Cache, commit: Commit, state: Accounts, items: seq<CacheQueueItem>)
    requires Inv(tree, root, commit.parent, c) && ValidCommit(tree, root, commit, state, items)
    ensures Inv(Grown(tree, commit, state), root, commit.hash, Add(c, commit, items, true))
  {
    var tree' := Grown(tree, commit, state);
    GrownKeepsInv(tree, root, commit.parent, c, commit, state);
    ChainExtends(tree, root, commit.hash, tree'[commit.hash], commit.parent);
    ChainInTree(tree, root, commit.parent);
    UniqueNumbers(tree', root, commit.hash);
    NewEntryDescribes(tree, root, commit, state, items, true);
    var m := BlockChanges(commit.number, commit.hash, commit.parent, Modified(items), true);
    assert !Listed(c.modifications, m.hash) by {
      assert forall i | 0 <= i < |c.modifications| :: Describes(tree, c.modifications[i]);
    }
    var chain := Chain(tree', root, commit.hash);
    assert chain == {commit.hash} + Chain(tree', root, commit.parent);
    assert TracksChain(tree', c.modifications, chain, {m.hash}) by {
      assert TracksChain(tree', c.modifications, Chain(tree', root, commit.parent), {});
    }
    AddEntry(tree', c.modifications, m, chain);
    PropagateAllAgrees(tree, root, commit, state, items, c.accounts);
  }

  // ----- whole runs

  /** The block tree, its head, the block that the cache was last synchronised with, and the cache. */
  datatype Node = Node(tree: Tree, head: Hash, synced: Hash, cache: Cache)

  /** A detached commit is made by a clone without a parent hash, as the clone of a reopened block is; its
      local cache is not used. */
  datatype Event =
    | Commits(commit: Commit, state: Accounts, items: seq<CacheQueueItem>, isBest: bool,
              enacted: seq<Hash>, retracted: seq<Hash>)
    | CommitsDetached(commit: Commit, state: Accounts, isBest: bool, enacted: seq<Hash>, retracted: seq<Hash>)
    | Resyncs(enacted: seq<Hash>, retracted: seq<Hash>)
    | Evicts(addresses: set<Address>)

  /** The route that the chain reports: to the new block when it becomes the head, else none. */
  ghost predicate IsReported(n: Node, root: Hash, commit: Commit, isBest: bool, enacted: seq<Hash>,
                             retracted: seq<Hash>)
    requires ValidTree(n.tree, root) && n.head in n.tree && commit.parent in n.tree
  {
    if isBest then IsRoute(n.tree, root, n.head, commit.parent, Without(enacted, commit.hash), retracted)
    else enacted == [] && retracted == []
  }

  /** A second synchronisation repeats a route that the head has taken. It follows a detached commit of the
      head, under the same lock, and then names the head. */
  ghost predicate Legal(n: Node, root: Hash, e: Event) {
    ValidTree(n.tree, root) && n.head in n.tree &&
    match e
    case Commits(commit, state, items, isBest, enacted, retracted) =>
      && n.synced == n.head && ValidCommit(n.tree, root, commit, state, items)
      && IsReported(n, root, commit, isBest, enacted, retracted)
    case CommitsDetached(commit, state, isBest, enacted, retracted) =>
      && n.synced == n.head && NewBlock(n.tree, root, commit)
      && IsReported(n, root, commit, isBest, enacted, retracted)
    case Resyncs(enacted, retracted) =>
      && (forall h | h in enacted :: h in Chain(n.tree, root, n.head))
      && (forall h | h in retracted :: h !in Chain(n.tree, root, n.head))
      && (n.synced == n.head || n.head in enacted)
    case Evicts(_) => true
  }

  function Apply(n: Node, e: Event): Node {
    match e
    case Commits(commit, state, items, isBest, enacted, retracted) =>
      var head := if isBest then commit.hash else n.head;
      Node(Grown(n.tree, commit, state), head, head,
           SyncCommit(n.cache, enacted, retracted, commit, items, isBest))
    case CommitsDetached(commit, state, isBest, enacted, retracted) =>
      Node(Grown(n.tree, commit, state),
           if isBest then commit.hash else n.head,
           if isBest then commit.parent else n.head,
           Purge(n.cache, Without(enacted, commit.hash), retracted))
    case Resyncs(enacted, retracted) => n.(synced := n.head, cache := Purge(n.cache, enacted, retracted))
    case Evicts(addresses) => n.(cache := n.cache.(accounts := n.cache.accounts - addresses))
  }

  /** The cache fits the block it was synchronised with; a head that it has not seen is not in its list. */
  ghost predicate InvNode(n: Node, root: Hash) {
    && Inv(n.tree, root, n.synced, n.cache)
    && n.head in n.tree
    && (n.synced != n.head ==> !Listed(n.cache.modifications, n.head))
  }

  /** A commit without a parent hash leaves a cache that fits the parent and does not know the block. */
  lemma DetachedKeeps(n: Node, root: Hash, e: Event)
    requires InvNode(n, root) && Legal(n, root, e) && e.CommitsDetached?
    ensures InvNode(Apply(n, e), root)
  {
    var to := if e.isBest then e.commit.parent else n.head;
    var purged := Purge(n.cache, Without(e.enacted, e.commit.hash), e.retracted);
    if e.isBest {
      PurgeReroutes(n.tree, root, n.head, n.cache, to, Without(e.enacted, e.commit.hash), e.retracted);
    } else {
      assert Purge(n.cache, [], []) == n.cache;
    }
    assert !Listed(purged.modifications, e.commit.hash) by {
      assert forall i | 0 <= i < |purged.modifications| :: Describes(n.tree, purged.modifications[i]);
    }
    GrownKeepsInv(n.tree, root, to, purged, e.commit, e.state);
  }

  /** The synchronisation after a detached commit of the head finds the head unknown and wipes the cache. */
  lemma UnknownHeadWipes(c: Cache, enacted: seq<Hash>, retracted: seq<Hash>, head: Hash)
    requires Ordered(c.modifications) && head in enacted && !Listed(c.modifications, head)
    ensures Purge(c, enacted, retracted) == EMPTY_CACHE
  {
    if MarkAll(c, enacted, true).Some? {
      MarkAllEffect(c, enacted, true);
      assert false;
    }
  }

  lemma EventKeepsInv(n: Node, root: Hash, e: Event)
    requires InvNode(n, root) && Legal(n, root, e)
    ensures InvNode(Apply(n, e), root)
  {
    match e
    case Commits(commit, state, items, isBest, enacted, retracted) =>
      if isBest {
        PurgeReroutes(n.tree, root, n.head, n.cache, commit.parent, Without(enacted, commit.hash), retracted);
        AddBestBlock(n.tree, root, Purge(n.cache, Without(enacted, commit.hash), retracted), commit, state, items);
      } else {
        assert Purge(n.cache, [], []) == n.cache;
        AddSideBlock(n.tree, root, n.head, n.cache, commit, state, items);
      }
    case CommitsDetached(_, _, _, _, _) => DetachedKeeps(n, root, e);
    case Resyncs(enacted, retracted) =>
      if n.synced == n.head {
        ResyncKeeps(n.tree, root, n.head, n.cache, enacted, retracted);
      } else {
        UnknownHeadWipes(n.cache, enacted, retracted, n.head);
        EmptyCacheInv(n.tree, root, n.head);
      }
    case Evicts(_) =>
  }

  /** The node after a sequence of events. */
  function Run(n: Node, events: seq<Event>): Node
    decreases |events|
  {
    if events == [] then n else Run(Apply(n, events[0]), events[1..])
  }

  ghost predicate LegalRun(n: Node, root: Hash, events: seq<Event>)
    decreases |events|
  {
    events == [] || (Legal(n, root, events[0]) && LegalRun(Apply(n, events[0]), root, events[1..]))
  }

  lemma {:induction false} RunKeepsInv(n: Node, root: Hash, events: seq<Event>)
    requires InvNode(n, root) && LegalRun(n, root, events)
    ensures InvNode(Run(n, events), root)
    decreases |events|
  {
    if events != [] {
      EventKeepsInv(n, root, events[0]);
      RunKeepsInv(Apply(n, events[0]), root, events[1..]);
    }
  }

  /** From an empty cache, after any sequence of commits by clones with and without a parent hash,
      reorganisations, repeated synchronisations and evictions: an account found in the cache for a clone
      on top of `parent`, canonical or not, is the account in the state of `parent`. */
  lemma CacheIsSound(tree: Tree, root: Hash, head: Hash, events: seq<Event>, parent: Hash, a: Address)
    requires ValidTree(tree, root) && head in tree
    requires LegalRun(Node(tree, head, head, EMPTY_CACHE), root, events)
    ensures var n := Run(Node(tree, head, head, EMPTY_CACHE), events);
            var found := GetCachedAccount(n.cache, parent, a);
            found.Some? ==> parent in n.tree && found.value == At(n.tree, parent, a)
  {
    EmptyCacheInv(tree, root, head);
    RunKeepsInv(Node(tree, head, head, EMPTY_CACHE), root, events);
    var n := Run(Node(tree, head, head, EMPTY_CACHE), events);
    if GetCachedAccount(n.cache, parent, a).Some? {
      LookupSound(n.tree, root, n.synced, n.cache, parent, a);
    }
  }
}
