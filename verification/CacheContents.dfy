/** What the shared account cache holds and for whom it answers: commits fill it, and nothing but routes,
    unknown blocks and evictions empties it. */
module CacheContents {
  import opened Primitives
  import opened WorldState
  import opened BlockTree
  import opened AccountCache

  // ----- filling

  /** Propagating items adds their addresses to those that are cached. */
  lemma {:induction false} PropagateFills(accounts: CachedAccounts, items: seq<CacheQueueItem>, a: Address)
    ensures a in PropagateAll(accounts, items) <==> a in accounts || Mentions(items, a)
    decreases |items|
  {
    if items != [] {
      var n := |items| - 1;
      PropagateFills(accounts, items[..n], a);
      assert items[..|items|] == items;
      MentionsLast(items, |items|);
      hide Mentions;
    }
  }

  // ----- purging

  /** The route leaves the address in the cache: all its blocks are listed, and none of them changed it. */
  ghost predicate Spared(mods: seq<BlockChanges>, hashes: seq<Hash>, a: Address) {
    forall h | h in hashes :: Listed(mods, h) && a !in mods[Find(mods, h)].accounts
  }

  lemma FindListed(mods: seq<BlockChanges>, h: Hash)
    ensures Find(mods, h) < |mods| <==> Listed(mods, h)
  {
  }

  lemma MarkSpares(c: Cache, h: Hash, isCanon: bool, a: Address)
    ensures Mark(c, h, isCanon).Some? <==> Listed(c.modifications, h)
    ensures Mark(c, h, isCanon).Some? ==>
              var c' := Mark(c, h, isCanon).value;
              && (a in c'.accounts <==> a in c.accounts && a !in c.modifications[Find(c.modifications, h)].accounts)
              && SameEntries(c.modifications, c'.modifications)
  {
    FindListed(c.modifications, h);
  }

  lemma {:induction false} SameEntriesFind(mods: seq<BlockChanges>, mods': seq<BlockChanges>, h: Hash)
    requires SameEntries(mods, mods')
    ensures Find(mods', h) == Find(mods, h) && (Listed(mods', h) <==> Listed(mods, h))
  {
    FindListed(mods, h);
    FindListed(mods', h);
    var i, j := Find(mods, h), Find(mods', h);
    assert i < |mods| ==> mods'[i].hash == h;
    assert j < |mods| ==> mods[j].hash == h;
  }

  /** A marking pass succeeds if and only if all blocks are listed, and drops exactly what they changed. */
  lemma {:induction false} MarkAllSpares(c: Cache, hashes: seq<Hash>, isCanon: bool, a: Address)
    ensures MarkAll(c, hashes, isCanon).Some? <==> forall h | h in hashes :: Listed(c.modifications, h)
    ensures MarkAll(c, hashes, isCanon).Some? ==>
              var c' := MarkAll(c, hashes, isCanon).value;
              && (a in c'.accounts <==> a in c.accounts && Spared(c.modifications, hashes, a))
              && SameEntries(c.modifications, c'.modifications)
    decreases |hashes|
  {
    if hashes != [] {
      var h, rest := hashes[0], hashes[1..];
      assert forall x :: x in hashes <==> x == h || x in rest;
      MarkSpares(c, h, isCanon, a);
      if Mark(c, h, isCanon).Some? {
        var c1 := Mark(c, h, isCanon).value;
        MarkAllSpares(c1, rest, isCanon, a);
        forall x
          ensures Find(c1.modifications, x) == Find(c.modifications, x)
          ensures Listed(c1.modifications, x) <==> Listed(c.modifications, x)
        {
          SameEntriesFind(c.modifications, c1.modifications, x);
        }
        forall x | Find(c.modifications, x) < |c.modifications|
          ensures c1.modifications[Find(c.modifications, x)].accounts
                  == c.modifications[Find(c.modifications, x)].accounts
        {
        }
        assert forall x | Listed(c.modifications, x) :: Find(c.modifications, x) < |c.modifications| by {
          forall x | Listed(c.modifications, x) ensures Find(c.modifications, x) < |c.modifications| {
            FindListed(c.modifications, x);
          }
        }
        hide Listed, Mark, Find;
      }
    }
  }

  /** What is left after a synchronisation: what was cached, unless a block of the route changed it or is not
      listed. */
  lemma PurgeSpares(c: Cache, enacted: seq<Hash>, retracted: seq<Hash>, a: Address)
    ensures var spared := Spared(c.modifications, enacted, a) && Spared(c.modifications, retracted, a);
            a in Purge(c, enacted, retracted).accounts <==> a in c.accounts && spared
  {
    hide Listed, MarkAll, Find;
    MarkAllSpares(c, enacted, true, a);
    if MarkAll(c, enacted, true).Some? {
      var c1 := MarkAll(c, enacted, true).value;
      MarkAllSpares(c1, retracted, false, a);
      SparedAlike(c.modifications, c1.modifications, retracted, a);
    }
  }

  lemma SparedAlike(mods: seq<BlockChanges>, mods': seq<BlockChanges>, hashes: seq<Hash>, a: Address)
    requires SameEntries(mods, mods')
    ensures Spared(mods, hashes, a) <==> Spared(mods', hashes, a)
    ensures (forall h | h in hashes :: Listed(mods, h)) <==> (forall h | h in hashes :: Listed(mods', h))
  {
    forall h | h in hashes
      ensures Find(mods', h) == Find(mods, h) && (Listed(mods', h) <==> Listed(mods, h))
      ensures Listed(mods, h) ==>
                Find(mods, h) < |mods| && mods'[Find(mods, h)].accounts == mods[Find(mods, h)].accounts
    {
      SameEntriesFind(mods, mods', h);
      FindListed(mods, h);
    }
    hide Listed, Find, SameEntries;
  }

  // ----- events and runs

  /** The event is a commit of the new head that brings the address along. */
  predicate Brings(e: Event, a: Address) {
    e.Commits? && e.isBest && Mentions(e.items, a)
  }

  /** The event does not drop the address from the cache. */
  ghost predicate Keeps(n: Node, e: Event, a: Address) {
    var mods := n.cache.modifications;
    match e
    case Commits(commit, _, _, _, enacted, retracted) =>
      Spared(mods, Without(enacted, commit.hash), a) && Spared(mods, retracted, a)
    case CommitsDetached(commit, _, _, enacted, retracted) =>
      Spared(mods, Without(enacted, commit.hash), a) && Spared(mods, retracted, a)
    case Resyncs(enacted, retracted) => Spared(mods, enacted, a) && Spared(mods, retracted, a)
    case Evicts(addresses) => a !in addresses
  }

  lemma EventCachesIff(n: Node, e: Event, a: Address)
    ensures a in Apply(n, e).cache.accounts <==> Brings(e, a) || (a in n.cache.accounts && Keeps(n, e, a))
  {
    hide Spared, Mentions, Purge, PropagateAll;
    match e
    case Commits(commit, _, items, _, enacted, retracted) =>
      PurgeSpares(n.cache, Without(enacted, commit.hash), retracted, a);
      PropagateFills(Purge(n.cache, Without(enacted, commit.hash), retracted).accounts, items, a);
    case CommitsDetached(commit, _, _, enacted, retracted) =>
      PurgeSpares(n.cache, Without(enacted, commit.hash), retracted, a);
    case Resyncs(enacted, retracted) => PurgeSpares(n.cache, enacted, retracted, a);
    case Evicts(_) =>
  }

  /** No event of the run drops the address. */
  ghost predicate KeptThrough(n: Node, events: seq<Event>, a: Address)
    decreases |events|
  {
    events == [] || (Keeps(n, events[0], a) && KeptThrough(Apply(n, events[0]), events[1..], a))
  }

  /** Some commit of the run brought the address, and no later event dropped it. */
  ghost predicate BroughtAndKept(n: Node, events: seq<Event>, a: Address) {
    exists k | 0 <= k < |events| :: Brings(events[k], a) && KeptThrough(Run(n, events[..k + 1]), events[k + 1..], a)
  }

  lemma BroughtFirstOrLater(n: Node, events: seq<Event>, a: Address)
    requires events != []
    ensures var n', rest := Apply(n, events[0]), events[1..];
            BroughtAndKept(n, events, a) <==>
              (Brings(events[0], a) && KeptThrough(n', rest, a)) || BroughtAndKept(n', rest, a)
  {
    hide Brings, KeptThrough, Apply;
    var n', rest := Apply(n, events[0]), events[1..];
    assert events[..1][0] == events[0] && events[..1][1..] == [];
    assert Run(n, events[..1]) == n';
    forall k | 0 <= k < |rest|
      ensures events[k + 1] == rest[k] && events[k + 2..] == rest[k + 1..]
      ensures Run(n, events[..k + 2]) == Run(n', rest[..k + 1])
    {
      assert events[..k + 2][0] == events[0] && events[..k + 2][1..] == rest[..k + 1];
    }
    if BroughtAndKept(n, events, a) {
      var k :| 0 <= k < |events| && Brings(events[k], a) && KeptThrough(Run(n, events[..k + 1]), events[k + 1..], a);
      if k > 0 {
        assert rest[k - 1] == events[k] && Brings(rest[k - 1], a);
      }
    }
    if BroughtAndKept(n', rest, a) {
      var k :| 0 <= k < |rest| && Brings(rest[k], a) && KeptThrough(Run(n', rest[..k + 1]), rest[k + 1..], a);
      assert Brings(events[k + 1], a);
    }
    if Brings(events[0], a) && KeptThrough(n', rest, a) {
      assert KeptThrough(Run(n, events[..0 + 1]), events[0 + 1..], a);
    }
  }

  /** After any run, legal or not, exactly the addresses are cached that some commit of a head brought and
      nothing dropped since, and those that were there from the start and never dropped. */
  lemma {:induction false} RunCachesIff(n: Node, events: seq<Event>, a: Address)
    ensures a in Run(n, events).cache.accounts <==>
              (a in n.cache.accounts && KeptThrough(n, events, a)) || BroughtAndKept(n, events, a)
    decreases |events|
  {
    if events != [] {
      hide Brings, Keeps, Apply;
      EventCachesIff(n, events[0], a);
      RunCachesIff(Apply(n, events[0]), events[1..], a);
      BroughtFirstOrLater(n, events, a);
      hide BroughtAndKept;
    }
  }

  // ----- answers on the head

  /** The block is listed, and no entry in front of it names the address. */
  ghost predicate Shows(mods: seq<BlockChanges>, h: Hash, a: Address) {
    Find(mods, h) < |mods| && forall j | 0 <= j < Find(mods, h) :: a !in mods[j].accounts
  }

  lemma {:induction false} UnlistedIsRefused(mods: seq<BlockChanges>, a: Address, parent: Hash)
    requires forall i | 0 <= i < |mods| :: mods[i].hash != parent
    ensures !Allowed(mods, a, parent)
  {
    if mods != [] {
      UnlistedIsRefused(mods[1..], a, parent);
    }
  }

  /** A clone on top of a block of the chain is told of exactly the cached accounts that no entry in front of
      the block's own names, and is told the truth. */
  lemma CanonicalAnswerIs(tree: Tree, root: Hash, head: Hash, c: Cache, parent: Hash, a: Address)
    requires Inv(tree, root, head, c) && parent in Chain(tree, root, head)
    ensures parent in tree
    ensures GetCachedAccount(c, parent, a) ==
            if a in c.accounts && Shows(c.modifications, parent, a) then Some(At(tree, parent, a)) else None
  {
    ChainInTree(tree, root, head);
    var mods, i := c.modifications, Find(c.modifications, parent);
    if i < |mods| {
      assert mods[i].isCanon;
      AllowedOnCanonical(mods, i, a);
    } else {
      UnlistedIsRefused(mods, a, parent);
    }
    if GetCachedAccount(c, parent, a).Some? {
      LookupSound(tree, root, head, c, parent, a);
    }
  }

  lemma {:induction false} HeadOnChain(tree: Tree, root: Hash, h: Hash)
    requires ValidTree(tree, root) && h in tree
    ensures h in Chain(tree, root, h)
  {
  }

  /** No listed block that is at least as high names the address. */
  ghost predicate NobodyAbove(mods: seq<BlockChanges>, number: nat, a: Address) {
    forall i | 0 <= i < |mods| && mods[i].number >= number :: a !in mods[i].accounts
  }

  lemma InsertedShows(mods: seq<BlockChanges>, m: BlockChanges, a: Address)
    requires Ordered(mods) && forall i | 0 <= i < |mods| :: mods[i].hash != m.hash
    ensures Shows(Insert(mods, m), m.hash, a) <==> NobodyAbove(mods, m.number, a)
  {
    var k, r := InsertAt(mods, m.number), Insert(mods, m);
    assert r[k] == m;
    assert forall i | 0 <= i < k :: r[i] == mods[i];
    assert Find(r, m.hash) == k;
    assert forall i | k <= i < |mods| :: mods[i].number < m.number;
  }

  /** The blocks that are listed when the entry of a new block is added. */
  function EntriesBelow(n: Node, e: Event): seq<BlockChanges>
    requires e.Commits?
  {
    PopOldest(Purge(n.cache, Without(e.enacted, e.commit.hash), e.retracted).modifications)
  }

  lemma EntriesAreOld(n: Node, root: Hash, e: Event)
    requires InvNode(n, root) && Legal(n, root, e) && e.Commits? && e.isBest
    ensures Ordered(EntriesBelow(n, e))
    ensures forall i | 0 <= i < |EntriesBelow(n, e)| :: EntriesBelow(n, e)[i].hash != e.commit.hash
  {
    var purged := Purge(n.cache, Without(e.enacted, e.commit.hash), e.retracted);
    PurgeReroutes(n.tree, root, n.head, n.cache, e.commit.parent, Without(e.enacted, e.commit.hash), e.retracted);
    hide Purge;
    assert forall i | 0 <= i < |purged.modifications| :: Describes(n.tree, purged.modifications[i]);
  }

  /** What a clone on top of a newly committed head is told: the state of the new block, for every address that
      the block brought along and every address that was cached and not dropped, if and only if no listed
      block at the same height or above names the address. */
  lemma BestCommitAnswers(n: Node, root: Hash, e: Event, a: Address)
    requires InvNode(n, root) && Legal(n, root, e) && e.Commits? && e.isBest
    ensures var n' := Apply(n, e);
            && e.commit.hash in n'.tree
            && GetCachedAccount(n'.cache, e.commit.hash, a) ==
               if (Mentions(e.items, a) || (a in n.cache.accounts && Keeps(n, e, a)))
                  && NobodyAbove(EntriesBelow(n, e), e.commit.number, a)
               then Some(At(n'.tree, e.commit.hash, a)) else None
  {
    var n' := Apply(n, e);
    EventKeepsInv(n, root, e);
    EventCachesIff(n, e, a);
    EntriesAreOld(n, root, e);
    var m := BlockChanges(e.commit.number, e.commit.hash, e.commit.parent, Modified(e.items), true);
    assert n'.cache.modifications == Insert(EntriesBelow(n, e), m);
    InsertedShows(EntriesBelow(n, e), m, a);
    HeadOnChain(n'.tree, root, n'.head);
    CanonicalAnswerIs(n'.tree, root, n'.head, n'.cache, n'.head, a);
  }

  /** The usual case: a new head that is higher than every listed block answers for everything it brought. */
  lemma HighestBlockAnswers(n: Node, root: Hash, e: Event, item: CacheQueueItem)
    requires InvNode(n, root) && Legal(n, root, e) && e.Commits? && e.isBest && item in e.items
    requires forall i | 0 <= i < |EntriesBelow(n, e)| :: EntriesBelow(n, e)[i].number < e.commit.number
    ensures var n' := Apply(n, e);
            && e.commit.hash in n'.tree
            && GetCachedAccount(n'.cache, e.commit.hash, item.address) == Some(At(n'.tree, e.commit.hash, item.address))
            && GetCachedAccount(n'.cache, e.commit.hash, item.address) == Some(item.account)
  {
    BestCommitAnswers(n, root, e, item.address);
    hide EntriesBelow;
    assert ValidItems(n.tree[e.commit.parent].state, e.state, e.items);
    var i :| 0 <= i < |e.items| && e.items[i] == item;
    assert Mentions(e.items, item.address);
  }

  const GENESIS: Tree := map[0 := Block(0, 9, map[])]
  const RICH := Account(5, 0, [], map[])
  const ITEM := CacheQueueItem(7, Some(RICH), true)
  const SIDE := Commits(Commit(1, 1, 0), map[7 := RICH], [ITEM], false, [], [])
  const BEST := Commits(Commit(1, 2, 0), map[7 := RICH], [ITEM], true, [2], [])

  /** The condition is needed: a side block of the same height that changed the account hides it from clones on
      top of the head, although the cache holds it. */
  lemma SideBlockHides()
    ensures var n := Node(GENESIS, 0, 0, EMPTY_CACHE);
            var n' := Run(n, [SIDE, BEST]);
            && ValidTree(GENESIS, 0) && LegalRun(n, 0, [SIDE, BEST])
            && n'.head == n'.synced == 2 && Get(n'.cache.accounts, 7) == Some(Some(RICH))
            && GetCachedAccount(n'.cache, 2, 7) == None
  {
    var n := Node(GENESIS, 0, 0, EMPTY_CACHE);
    var n1, n2 := Apply(n, SIDE), Apply(Apply(n, SIDE), BEST);
    SideIsCommitted();
    BestIsLegal();
    assert [SIDE, BEST][1..] == [BEST] && [BEST][1..] == [];
    assert Run(n, [SIDE, BEST]) == Run(n1, [BEST]) == Run(n2, []) == n2;
    assert LegalRun(n1, 0, [BEST]);
    assert n2.cache == Cache(map[7 := Some(RICH)], [ENTRY, ENTRY.(hash := 2, isCanon := true)]) by {
      BestIsCommitted();
    }
  }

  const ENTRY := BlockChanges(1, 1, 0, {7}, false)

  lemma ItemIsModified()
    ensures Modified([ITEM]) == {7} && PropagateAll(map[], [ITEM]) == map[7 := Some(RICH)]
  {
    assert ITEM in [ITEM];
    assert [ITEM][..0] == [];
  }

  lemma SideIsCommitted()
    ensures var n := Node(GENESIS, 0, 0, EMPTY_CACHE);
            && ValidTree(GENESIS, 0) && Legal(n, 0, SIDE)
            && Apply(n, SIDE) == Node(Grown(GENESIS, SIDE.commit, SIDE.state), 0, 0, Cache(map[], [ENTRY]))
  {
    ItemIsModified();
    assert [ITEM][0] == ITEM;
  }

  lemma BestIsLegal()
    ensures var n := Node(Grown(GENESIS, SIDE.commit, SIDE.state), 0, 0, Cache(map[], [ENTRY])); Legal(n, 0, BEST)
  {
    var tree := Grown(GENESIS, SIDE.commit, SIDE.state);
    assert ValidTree(tree, 0);
    assert [ITEM][0] == ITEM;
    assert Without([2], 2) == [];
  }

  lemma BestIsCommitted()
    ensures var n := Node(Grown(GENESIS, SIDE.commit, SIDE.state), 0, 0, Cache(map[], [ENTRY]));
            Apply(n, BEST).cache == Cache(map[7 := Some(RICH)], [ENTRY, ENTRY.(hash := 2, isCanon := true)])
  {
    ItemIsModified();
    assert Without([2], 2) == [];
    assert Purge(Cache(map[], [ENTRY]), [], []) == Cache(map[], [ENTRY]);
    assert InsertAt([ENTRY], 1) == 1;
  }

  /** From an empty cache, after every legal run: on the head, once the cache is in step with it, exactly those
      addresses are answered for that a commit of a head brought and nothing dropped since, and that no entry
      in front of the head's own names. */
  lemma HeadAnswersIff(tree: Tree, root: Hash, head: Hash, events: seq<Event>, a: Address)
    requires ValidTree(tree, root) && head in tree
    requires LegalRun(Node(tree, head, head, EMPTY_CACHE), root, events)
    ensures var start := Node(tree, head, head, EMPTY_CACHE);
            var n := Run(start, events);
            n.synced == n.head ==>
              && n.head in n.tree
              && GetCachedAccount(n.cache, n.head, a) ==
                 if BroughtAndKept(start, events, a) && Shows(n.cache.modifications, n.head, a)
                 then Some(At(n.tree, n.head, a)) else None
  {
    hide BroughtAndKept, Shows, KeptThrough, Inv;
    var start := Node(tree, head, head, EMPTY_CACHE);
    EmptyCacheInv(tree, root, head);
    RunKeepsInv(start, root, events);
    RunCachesIff(start, events, a);
    var n := Run(start, events);
    if n.synced == n.head {
      InvOrdered(n.tree, root, n.head, n.cache);
      HeadOnChain(n.tree, root, n.head);
      CanonicalAnswerIs(n.tree, root, n.head, n.cache, n.head, a);
    }
  }

  // ----- answers on forks

  /** Every block of the chain of `parent` that is higher than entry `i` is listed, and entry `i` is a canonical
      block of that chain. */
  ghost predicate LeadsTo(tree: Tree, root: Hash, mods: seq<BlockChanges>, parent: Hash, i: nat)
    requires ValidTree(tree, root) && parent in tree && i < |mods|
  {
    && mods[i].isCanon && mods[i].hash in Chain(tree, root, parent)
    && forall b | b in Chain(tree, root, parent) && b in tree && tree[b].number > mods[i].number :: Listed(mods, b)
  }

  ghost predicate Entries(tree: Tree, mods: seq<BlockChanges>) {
    Ordered(mods) && forall i | 0 <= i < |mods| :: Describes(tree, mods[i])
  }

  ghost predicate ListedFrom(mods: seq<BlockChanges>, p: nat, b: Hash) {
    exists j :: p <= j < |mods| && mods[j].hash == b
  }

  /** Every block of the chain of `cur` that is higher than entry `i` is listed from entry `p` on. */
  ghost predicate AboveListed(tree: Tree, root: Hash, mods: seq<BlockChanges>, p: nat, cur: Hash, i: nat)
    requires ValidTree(tree, root) && cur in tree && i < |mods|
  {
    forall b | b in Chain(tree, root, cur) && b in tree && tree[b].number > mods[i].number :: ListedFrom(mods, p, b)
  }

  lemma EntryBelow(tree: Tree, root: Hash, mods: seq<BlockChanges>, p: nat, cur: Hash, b: Hash)
    requires ValidTree(tree, root) && cur in tree && Entries(tree, mods) && p < |mods|
    requires b in Chain(tree, root, cur) && b in tree && b != cur && ListedFrom(mods, p, cur)
    ensures mods[p].hash != b
  {
    hide Chain, Entries, ValidTree;
    LowerOnChain(tree, root, cur, b);
    var j :| p <= j < |mods| && mods[j].hash == cur;
    EntryNumber(tree, mods, j);
    EntryNumber(tree, mods, p);
    if mods[p].hash == b {
      HigherIsBefore(tree, mods, j, p);
    }
  }

  lemma LowerOnChain(tree: Tree, root: Hash, cur: Hash, b: Hash)
    requires ValidTree(tree, root) && cur in tree && b in Chain(tree, root, cur) && b != cur
    ensures b in tree && tree[b].number < tree[cur].number
  {
    HeadOnChain(tree, root, cur);
    ChainInTree(tree, root, cur);
    ChainLinear(tree, root, cur, b, cur);
  }

  /** A block above entry `i` of its own chain is listed before that entry. */
  lemma ListedBefore(tree: Tree, root: Hash, mods: seq<BlockChanges>, p: nat, cur: Hash, i: nat)
    requires ValidTree(tree, root) && cur in tree && Entries(tree, mods) && p <= i < |mods|
    requires mods[i].hash in Chain(tree, root, cur) && mods[i].hash != cur && AboveListed(tree, root, mods, p, cur, i)
    ensures p < i && ListedFrom(mods, p, cur)
  {
    LowerOnChain(tree, root, cur, mods[i].hash);
    HeadOnChain(tree, root, cur);
    EntryNumber(tree, mods, i);
    hide Chain, Entries, ValidTree;
    assert tree[cur].number > mods[i].number;
    assert ListedFrom(mods, p, cur);
    var k :| p <= k < |mods| && mods[k].hash == cur;
    EntryNumber(tree, mods, k);
    HigherIsBefore(tree, mods, k, i);
  }

  lemma EntryNumber(tree: Tree, mods: seq<BlockChanges>, k: nat)
    requires Entries(tree, mods) && k < |mods|
    ensures mods[k].hash in tree && mods[k].number == tree[mods[k].hash].number
  {
    assert Describes(tree, mods[k]);
  }

  lemma HigherIsBefore(tree: Tree, mods: seq<BlockChanges>, k: nat, i: nat)
    requires Entries(tree, mods) && k < |mods| && i < |mods| && mods[k].number > mods[i].number
    ensures k < i
  {
  }

  lemma ListedFurther(mods: seq<BlockChanges>, p: nat, b: Hash)
    requires ListedFrom(mods, p, b) && p < |mods| && mods[p].hash != b
    ensures ListedFrom(mods, p + 1, b)
  {
  }

  /** One step of the walk that is not stopped. */
  lemma WalkStep(tree: Tree, root: Hash, mods: seq<BlockChanges>, p: nat, cur: Hash, i: nat)
    requires ValidTree(tree, root) && cur in tree && Entries(tree, mods) && p < i < |mods|
    requires mods[i].hash in Chain(tree, root, cur) && mods[i].hash != cur && AboveListed(tree, root, mods, p, cur, i)
    requires ListedFrom(mods, p, cur)
    ensures var next := if mods[p].hash == cur then mods[p].parent else cur;
            next in tree && mods[i].hash in Chain(tree, root, next) && AboveListed(tree, root, mods, p + 1, next, i)
  {
    assert Describes(tree, mods[p]);
    assert cur != root;
    var next := if mods[p].hash == cur then mods[p].parent else cur;
    assert Chain(tree, root, cur) == {cur} + Chain(tree, root, tree[cur].parent);
    ChainInTree(tree, root, tree[cur].parent);
    hide Chain, Describes, Entries;
    forall b | b in Chain(tree, root, next) && b in tree && tree[b].number > mods[i].number
      ensures ListedFrom(mods, p + 1, b)
    {
      if mods[p].hash != cur && b != cur {
        EntryBelow(tree, root, mods, p, cur, b);
      }
      ListedFurther(mods, p, b);
    }
  }

  lemma UnfoldAllowed(mods: seq<BlockChanges>, p: nat, a: Address, cur: Hash)
    requires p < |mods|
    ensures Allowed(mods[p..], a, cur) <==>
              || (mods[p].hash == cur && mods[p].isCanon)
              || (a !in mods[p].accounts
                  && Allowed(mods[p + 1..], a, if mods[p].hash == cur then mods[p].parent else cur))
  {
    assert mods[p..][0] == mods[p] && mods[p..][1..] == mods[p + 1..];
  }

  /** From entry `p` on, the walk for `cur` gets to the canonical entry `i` if nothing stops it. */
  lemma {:induction false} WalkArrives(tree: Tree, root: Hash, mods: seq<BlockChanges>, p: nat, a: Address, cur: Hash,
                                       i: nat)
    requires ValidTree(tree, root) && cur in tree && Entries(tree, mods) && p <= i < |mods|
    requires forall j | p <= j < i :: a !in mods[j].accounts
    requires mods[i].isCanon && mods[i].hash in Chain(tree, root, cur) && AboveListed(tree, root, mods, p, cur, i)
    ensures Allowed(mods[p..], a, cur)
    decreases |mods| - p
  {
    UnfoldAllowed(mods, p, a, cur);
    if cur == mods[i].hash {
      if p < i {
        NothingAbove(tree, root, mods, p + 1, i);
        hide *;
        DistinctEntries(tree, mods, p, i);
        WalkArrives(tree, root, mods, p + 1, a, cur, i);
      }
    } else {
      hide *;
      ListedBefore(tree, root, mods, p, cur, i);
      WalkStep(tree, root, mods, p, cur, i);
      WalkArrives(tree, root, mods, p + 1, a, if mods[p].hash == cur then mods[p].parent else cur, i);
    }
  }

  lemma DistinctEntries(tree: Tree, mods: seq<BlockChanges>, p: nat, i: nat)
    requires Entries(tree, mods) && p < i < |mods|
    ensures mods[p].hash != mods[i].hash
  {
  }

  lemma NothingAbove(tree: Tree, root: Hash, mods: seq<BlockChanges>, p: nat, i: nat)
    requires ValidTree(tree, root) && i < |mods| && mods[i].hash in tree && Entries(tree, mods)
    ensures AboveListed(tree, root, mods, p, mods[i].hash, i)
  {
    ChainInTree(tree, root, mods[i].hash);
    assert Describes(tree, mods[i]);
  }

  /** A walk that succeeds got to a canonical entry, over entries of the chain of `cur` only. */
  lemma {:induction false} WalkCameFrom(tree: Tree, root: Hash, mods: seq<BlockChanges>, p: nat, a: Address, cur: Hash)
    returns (i: nat)
    requires ValidTree(tree, root) && cur in tree && Entries(tree, mods) && p <= |mods|
    requires Allowed(mods[p..], a, cur)
    ensures p <= i < |mods| && (forall j | p <= j < i :: a !in mods[j].accounts)
    ensures LeadsTo(tree, root, mods, cur, i)
    decreases |mods| - p
  {
    assert mods[p..] != [];
    UnfoldAllowed(mods, p, a, cur);
    var m := mods[p];
    assert Describes(tree, m);
    if m.hash == cur && m.isCanon {
      i := p;
      HeadOnChain(tree, root, cur);
      ChainInTree(tree, root, cur);
    } else if m.hash == cur {
      RootHasNoParent(tree, root, mods, p + 1, a, cur);
      i := WalkCameFrom(tree, root, mods, p + 1, a, m.parent);
      assert Listed(mods, cur);
    } else {
      i := WalkCameFrom(tree, root, mods, p + 1, a, cur);
    }
  }

  lemma RootHasNoParent(tree: Tree, root: Hash, mods: seq<BlockChanges>, p: nat, a: Address, cur: Hash)
    requires ValidTree(tree, root) && cur in tree && Entries(tree, mods) && p <= |mods|
    requires Allowed(mods[p..], a, tree[cur].parent)
    ensures cur != root
  {
    if cur == root {
      assert forall i | 0 <= i < |mods[p..]| :: Describes(tree, mods[p..][i]);
      UnlistedIsRefused(mods[p..], a, tree[cur].parent);
    }
  }

  /** What a clone on top of any block is told, on the chain or on a fork: the account in the state of that block
      if it is cached, and the walk back from the block over listed blocks reaches the chain before any entry
      names the address; otherwise nothing. */
  lemma AnswerIs(tree: Tree, root: Hash, head: Hash, c: Cache, parent: Hash, a: Address)
    requires Inv(tree, root, head, c) && parent in tree
    ensures GetCachedAccount(c, parent, a).Some? <==>
              && a in c.accounts
              && exists i | 0 <= i < |c.modifications| ::
                   && LeadsTo(tree, root, c.modifications, parent, i)
                   && forall j | 0 <= j < i :: a !in c.modifications[j].accounts
    ensures GetCachedAccount(c, parent, a).Some? ==> GetCachedAccount(c, parent, a).value == At(tree, parent, a)
  {
    var mods := c.modifications;
    assert mods[0..] == mods && Entries(tree, mods);
    if GetCachedAccount(c, parent, a).Some? {
      LookupSound(tree, root, head, c, parent, a);
      var i := WalkCameFrom(tree, root, mods, 0, a, parent);
    }
    if i :| 0 <= i < |mods| && LeadsTo(tree, root, mods, parent, i) && forall j | 0 <= j < i :: a !in mods[j].accounts {
      assert forall b :: Listed(mods, b) ==> ListedFrom(mods, 0, b);
      WalkArrives(tree, root, mods, 0, a, parent, i);
    }
  }

  // ----- the list of blocks

  /** The entry of a block names exactly the addresses that its local cache marks. */
  lemma EntryNamesModified(items: seq<CacheQueueItem>, a: Address)
    ensures a in Modified(items) <==> exists i | 0 <= i < |items| :: items[i].address == a && items[i].modified
  {
  }

  /** The list grows by one block up to twelve, and then loses its last entry for each new one. */
  lemma AddKeepsTwelve(c: Cache, commit: Commit, items: seq<CacheQueueItem>, isBest: bool)
    requires |c.modifications| <= 12
    ensures var mods := Add(c, commit, items, isBest).modifications;
            var entry := BlockChanges(commit.number, commit.hash, commit.parent, Modified(items), isBest);
            && |mods| == Min(|c.modifications| + 1, 12)
            && multiset(mods) == multiset(if |c.modifications| == 12 then c.modifications[..11] else c.modifications)
                                 + multiset{entry}
  {
    hide PropagateAll, Modified;
    var popped := PopOldest(c.modifications);
    var m := BlockChanges(commit.number, commit.hash, commit.parent, Modified(items), isBest);
    var i := InsertAt(popped, m.number);
    assert popped == popped[..i] + popped[i..];
  }
}
