/** The local account cache with its checkpoint journal. Each checkpoint records the entries that were
    overwritten since it was made; this implements the stack of saved states of `World`. */
module AccountJournal {
  import opened Primitives
  import opened WorldState
  import AccountCache

  datatype AccountState = CleanFresh | CleanCached | Dirty | Committed

  /** `account` is `None` for an account that is known not to exist; `oldBalance` is the balance with which
      the entry was made. */
  datatype AccountEntry = AccountEntry(account: Option<Account>, oldBalance: Option<U256>, state: AccountState) {
    predicate Modified() {
      state.Dirty? || state.Committed?
    }

    /** Takes over the account and the state of another entry, but not its old balance. */
    function OverwriteWith(other: AccountEntry): AccountEntry {
      this.(account := other.account, state := other.state)
    }
  }

  function NewEntry(account: Option<Account>, state: AccountState): AccountEntry {
    AccountEntry(account, if account.Some? then Some(account.value.balance) else None, state)
  }

  type Cache = map<Address, AccountEntry>

  /** Who answers for an address that is not in the cache: the cache that the clones share, the bloom of
      existing accounts, or the trie. */
  datatype Answer = Shared | KnownNull | Trie

  /** The overwritten entry of each address; `None` when the address was not in the cache. */
  type Checkpoint = map<Address, Option<AccountEntry>>

  function Lookup(db: Accounts, cache: Cache, a: Address): Option<Account> {
    if a in cache then cache[a].account else Get(db, a)
  }

  /** The account that a checkpoint brings back for an address. */
  function Recorded(db: Accounts, a: Address, previous: Option<AccountEntry>): Option<Account> {
    if previous.Some? then previous.value.account else Get(db, a)
  }

  /** The accounts that the cache shows on top of the database. */
  function View(db: Accounts, cache: Cache): Accounts {
    map a | a in db.Keys + cache.Keys && Lookup(db, cache, a).Some? :: Lookup(db, cache, a).value
  }

  function UndoAt(db: Accounts, view: Accounts, c: Checkpoint, a: Address): Option<Account> {
    if a in c then Recorded(db, a, c[a]) else Get(view, a)
  }

  /** The accounts before everything that checkpoint `c` recorded. */
  function Undo(db: Accounts, view: Accounts, c: Checkpoint): Accounts {
    map a | a in view.Keys + c.Keys && UndoAt(db, view, c, a).Some? :: UndoAt(db, view, c, a).value
  }

  /** The states that the open checkpoints stand for, oldest first. */
  function Snapshots(db: Accounts, view: Accounts, checkpoints: seq<Checkpoint>): (r: seq<Accounts>)
    ensures |r| == |checkpoints|
    decreases |checkpoints|
  {
    if checkpoints == [] then []
    else
      var n := |checkpoints| - 1;
      var before := Undo(db, view, checkpoints[n]);
      Snapshots(db, before, checkpoints[..n]) + [before]
  }

  /** A clean entry shows what the database holds. */
  predicate CleanIsStored(db: Accounts, a: Address, e: AccountEntry) {
    !e.state.Dirty? ==> e.account == Get(db, a)
  }

  ghost predicate Coherent(db: Accounts, cache: Cache, checkpoints: seq<Checkpoint>) {
    && (forall a | a in cache :: CleanIsStored(db, a, cache[a]))
    && (forall i, a | 0 <= i < |checkpoints| && a in checkpoints[i] && checkpoints[i][a].Some? ::
          CleanIsStored(db, a, checkpoints[i][a].value))
  }

  /** What the database holds beyond `base` went through a commit, so the cache and the checkpoints know it
      as modified. */
  ghost predicate Tracked(base: Accounts, db: Accounts, cache: Cache, checkpoints: seq<Checkpoint>) {
    forall a | Get(db, a) != Get(base, a) ::
      && a in cache && cache[a].Modified()
      && forall i | 0 <= i < |checkpoints| && a in checkpoints[i] ::
           checkpoints[i][a].Some? && checkpoints[i][a].value.Modified()
  }

  lemma DirtyEntryFits(base: Accounts, db: Accounts, cache: Cache, checkpoints: seq<Checkpoint>, a: Address,
                       e: AccountEntry)
    requires Coherent(db, cache, checkpoints) && Tracked(base, db, cache, checkpoints) && e.state.Dirty?
    ensures Coherent(db, cache[a := e], checkpoints) && Tracked(base, db, cache[a := e], checkpoints)
  {
  }

  /** Every change since `base` is marked by a modified entry. */
  lemma ChangesAreModified(base: Accounts, db: Accounts, cache: Cache, checkpoints: seq<Checkpoint>, a: Address)
    requires Coherent(db, cache, checkpoints) && Tracked(base, db, cache, checkpoints)
    requires Lookup(db, cache, a) != Get(base, a)
    ensures a in cache && cache[a].Modified()
  {
    assert a in cache ==> CleanIsStored(db, a, cache[a]);
  }

  lemma StoredDetermines<V>(m: map<Address, V>, m': map<Address, V>)
    requires forall a :: Get(m, a) == Get(m', a)
    ensures m == m'
  {
    forall a
      ensures a in m <==> a in m'
      ensures a in m ==> m[a] == m'[a]
    {
      assert Get(m, a) == Get(m', a);
    }
  }

  lemma ViewAt(db: Accounts, cache: Cache, a: Address)
    ensures Get(View(db, cache), a) == Lookup(db, cache, a)
  {
  }

  lemma UndoneAt(db: Accounts, view: Accounts, c: Checkpoint, a: Address)
    ensures Get(Undo(db, view, c), a) == UndoAt(db, view, c, a)
  {
  }

  lemma UndoEqual(db: Accounts, view: Accounts, c: Checkpoint, view': Accounts, c': Checkpoint)
    requires forall a :: UndoAt(db, view, c, a) == UndoAt(db, view', c', a)
    ensures Undo(db, view, c) == Undo(db, view', c')
  {
    forall a ensures Get(Undo(db, view, c), a) == Get(Undo(db, view', c'), a) {
      UndoneAt(db, view, c, a);
      UndoneAt(db, view', c', a);
      assert UndoAt(db, view, c, a) == UndoAt(db, view', c', a);
    }
    StoredDetermines(Undo(db, view, c), Undo(db, view', c'));
  }

  /** Checkpoint `c` with the current entry of `a` noted, unless an older one is there already. */
  function Noted(c: Checkpoint, cache: Cache, a: Address): Checkpoint {
    if a in c then c else c[a := if a in cache then Some(cache[a]) else None]
  }

  function NotedLast(checkpoints: seq<Checkpoint>, cache: Cache, a: Address): seq<Checkpoint> {
    var n := |checkpoints| - 1;
    if checkpoints == [] then [] else checkpoints[n := Noted(checkpoints[n], cache, a)]
  }

  lemma NotedUndoes(db: Accounts, cache: Cache, c: Checkpoint, a: Address, e: AccountEntry)
    ensures Undo(db, View(db, cache[a := e]), Noted(c, cache, a)) == Undo(db, View(db, cache), c)
  {
    var view, view' := View(db, cache), View(db, cache[a := e]);
    forall b ensures UndoAt(db, view', Noted(c, cache, a), b) == UndoAt(db, view, c, b) {
      ViewAt(db, cache, b);
      ViewAt(db, cache[a := e], b);
      hide View;
    }
    hide View, Undo;
    UndoEqual(db, view', Noted(c, cache, a), view, c);
  }

  /** Noting an entry in the last checkpoint, and then overwriting it, keeps every saved state. */
  lemma NotedKeepsSnapshots(db: Accounts, cache: Cache, checkpoints: seq<Checkpoint>, a: Address, e: AccountEntry)
    requires checkpoints != []
    ensures var n := |checkpoints| - 1;
            Snapshots(db, View(db, cache[a := e]), checkpoints[n := Noted(checkpoints[n], cache, a)])
              == Snapshots(db, View(db, cache), checkpoints)
  {
    hide View, Undo, Noted;
    var n := |checkpoints| - 1;
    NotedUndoes(db, cache, checkpoints[n], a, e);
    assert checkpoints[n := Noted(checkpoints[n], cache, a)][..n] == checkpoints[..n];
  }

  /** Two checkpoints merged, the older one winning, undo what they undo one after the other. */
  lemma MergeUndoesBoth(db: Accounts, view: Accounts, older: Checkpoint, newer: Checkpoint)
    ensures Undo(db, view, newer + older) == Undo(db, Undo(db, view, newer), older)
  {
    forall a ensures UndoAt(db, view, newer + older, a) == UndoAt(db, Undo(db, view, newer), older, a) {
      UndoneAt(db, view, newer, a);
    }
    UndoEqual(db, view, newer + older, Undo(db, view, newer), older);
  }

  lemma MergeKeepsSnapshots(db: Accounts, view: Accounts, checkpoints: seq<Checkpoint>, older: Checkpoint,
                            newer: Checkpoint)
    ensures Snapshots(db, view, checkpoints + [older, newer])
            == Snapshots(db, view, checkpoints + [newer + older]) + [Undo(db, view, newer)]
  {
    hide Undo;
    MergeUndoesBoth(db, view, older, newer);
    var all := checkpoints + [older, newer];
    assert all[..|checkpoints| + 1] == checkpoints + [older];
    assert (checkpoints + [older])[..|checkpoints|] == checkpoints;
    assert (checkpoints + [newer + older])[..|checkpoints|] == checkpoints;
  }

  /** A cache that shows what the checkpoint recorded, and otherwise what it showed before, is reverted. */
  lemma RevertedView(db: Accounts, before: Cache, c: Checkpoint, after: Cache)
    requires forall a | a !in c :: Lookup(db, after, a) == Lookup(db, before, a)
    requires forall a | a in c :: Lookup(db, after, a) == Recorded(db, a, c[a])
    ensures View(db, after) == Undo(db, View(db, before), c)
  {
    forall a ensures Get(View(db, after), a) == Get(Undo(db, View(db, before), c), a) {
      ViewAt(db, before, a);
      ViewAt(db, after, a);
      UndoneAt(db, View(db, before), c, a);
      hide View, Undo;
      if a in c {
        assert Lookup(db, after, a) == Recorded(db, a, c[a]);
      } else {
        assert Lookup(db, after, a) == Lookup(db, before, a);
      }
    }
    StoredDetermines(View(db, after), Undo(db, View(db, before), c));
  }

  /** The entry of an address after the entries of `c` were brought back. */
  function Restored(cache: Cache, c: Checkpoint, a: Address): Option<AccountEntry> {
    if a !in c then Get(cache, a)
    else
      match c[a]
      case Some(v) => Some(if a in cache then cache[a].OverwriteWith(v) else v)
      case None => if a in cache && cache[a].state.Dirty? then None else Get(cache, a)
  }

  lemma RestoredCache(base: Accounts, db: Accounts, cache: Cache, checkpoints: seq<Checkpoint>, cache': Cache)
    requires Coherent(db, cache, checkpoints) && Tracked(base, db, cache, checkpoints) && checkpoints != []
    requires forall a :: Get(cache', a) == Restored(cache, checkpoints[|checkpoints| - 1], a)
    ensures var n := |checkpoints| - 1;
            && Coherent(db, cache', checkpoints[..n]) && Tracked(base, db, cache', checkpoints[..n])
            && View(db, cache') == Undo(db, View(db, cache), checkpoints[n])
  {
    var n := |checkpoints| - 1;
    var c := checkpoints[n];
    forall a
      ensures a in cache' ==> CleanIsStored(db, a, cache'[a])
      ensures Lookup(db, cache', a) == if a in c then Recorded(db, a, c[a]) else Lookup(db, cache, a)
      ensures Get(db, a) != Get(base, a) ==> a in cache' && cache'[a].Modified()
    {
      assert Get(cache', a) == Restored(cache, c, a);
      assert a in c && c[a].Some? ==> CleanIsStored(db, a, c[a].value);
    }
    hide View, Undo;
    RevertedView(db, cache, c, cache');
  }

  function PutEntry(w: World, a: Address, account: Option<Account>): World {
    if account.Some? then w.Put(a, account.value) else w.KillAccount(a)
  }

  lemma EntryView(db: Accounts, cache: Cache, a: Address, e: AccountEntry)
    ensures var view := View(db, cache);
            View(db, cache[a := e]) == if e.account.Some? then view[a := e.account.value] else view - {a}
  {
    var view := View(db, cache);
    var expected: Accounts := if e.account.Some? then view[a := e.account.value] else view - {a};
    forall b ensures Get(View(db, cache[a := e]), b) == Get(expected, b) {
      ViewAt(db, cache, b);
      ViewAt(db, cache[a := e], b);
      hide View;
    }
    StoredDetermines(View(db, cache[a := e]), expected);
  }

  lemma NoSnapshots(db: Accounts, view: Accounts)
    ensures Snapshots(db, view, []) == []
  {
  }

  /** Writing the dirty entries makes the database what the cache showed on top of it. */
  lemma CommitWritesView(db: Accounts, cache: Cache, db': Accounts, dirty: set<Address>)
    requires Coherent(db, cache, []) && dirty == set a | a in cache && cache[a].state.Dirty?
    requires forall a :: Get(db', a) == if a in dirty then cache[a].account else Get(db, a)
    ensures db' == View(db, cache)
  {
    forall a ensures Get(db', a) == Get(View(db, cache), a) {
      ViewAt(db, cache, a);
      hide View;
      assert a in cache ==> CleanIsStored(db, a, cache[a]);
    }
    StoredDetermines(db', View(db, cache));
  }

  lemma CommittedKeepsView(db: Accounts, cache: Cache, db': Accounts)
    requires db' == View(db, cache)
    ensures View(db', AfterCommit(cache)) == db'
    ensures Coherent(db', AfterCommit(cache), [])
  {
    forall a ensures Get(View(db', AfterCommit(cache)), a) == Get(db', a) {
      ViewAt(db', AfterCommit(cache), a);
      ViewAt(db, cache, a);
    }
    StoredDetermines(View(db', AfterCommit(cache)), db');
    forall a | a in cache ensures CleanIsStored(db', a, AfterCommit(cache)[a]) {
      ViewAt(db, cache, a);
    }
  }

  lemma TrackedCommit(base: Accounts, db: Accounts, cache: Cache, db': Accounts)
    requires db' == View(db, cache) && Coherent(db, cache, []) && Tracked(base, db, cache, [])
    ensures Tracked(base, db', AfterCommit(cache), [])
  {
    forall a | Get(db', a) != Get(base, a)
      ensures a in cache && cache[a].Modified()
    {
      ViewAt(db, cache, a);
      ChangesAreModified(base, db, cache, [], a);
    }
  }

  /** The account bloom's word that an address has no account shows the same state if and only if that is
      true; for an empty account that is stored all the same, the account disappears from the view. */
  lemma BloomShortcutIff(db: Accounts, cache: Cache, a: Address)
    requires a !in cache
    ensures var view := View(db, cache[a := NewEntry(None, CleanFresh)]);
            && view == View(db, cache) - {a}
            && (view == View(db, cache) <==> a !in db)
  {
    EntryView(db, cache, a, NewEntry(None, CleanFresh));
    ViewAt(db, cache, a);
  }

  class State {
    var db: Accounts
    const startNonce: nat
    ghost const base: Accounts
    var cache: Cache
    var checkpoints: seq<Checkpoint>

    ghost predicate Valid()
      reads this
    {
      Coherent(db, cache, checkpoints) && Tracked(base, db, cache, checkpoints)
    }

    /** The state as the executive sees it. */
    ghost function Abstract(): World
      reads this
    {
      var view := View(db, cache);
      World(view, Snapshots(db, view, checkpoints), startNonce)
    }

    constructor FromExisting(db: Accounts, startNonce: nat)
      ensures Valid() && Abstract() == World(db, [], startNonce) && base == db
    {
      this.db, this.base, this.startNonce := db, db, startNonce;
      cache, checkpoints := map[], [];
      assert View(db, map[]) == db;
    }

    /** A clone starts over the same database with the dirty entries only, and without checkpoints. */
    constructor Clone(s: State)
      requires s.Valid()
      ensures Valid() && Abstract() == s.Abstract().(snapshots := [])
      ensures cache == map a | a in s.cache && s.cache[a].state.Dirty? :: s.cache[a]
      ensures db == s.db
    {
      db, base, startNonce := s.db, s.db, s.startNonce;
      cache, checkpoints := map a | a in s.cache && s.cache[a].state.Dirty? :: s.cache[a], [];
      new;
      forall a
        ensures Get(View(db, cache), a) == Get(View(s.db, s.cache), a)
      {
        ViewAt(db, cache, a);
        ViewAt(s.db, s.cache, a);
      }
      StoredDetermines(View(db, cache), View(s.db, s.cache));
    }

    method Checkpoint()
      requires Valid()
      modifies this`checkpoints
      ensures checkpoints == old(checkpoints) + [map[]]
      ensures Valid() && Abstract() == old(Abstract()).Checkpoint()
    {
      var view := View(db, cache);
      assert Undo(db, view, map[]) == view;
      checkpoints := checkpoints + [map[]];
      assert checkpoints[..|checkpoints| - 1] == old(checkpoints);
    }

    /** Drops the last checkpoint; what it recorded passes to the one before it. */
    method DiscardCheckpoint()
      requires Valid()
      modifies this`checkpoints
      ensures Valid() && Abstract() == old(Abstract()).DiscardCheckpoint()
    {
      if checkpoints == [] {
        return;
      }
      var n := |checkpoints| - 1;
      var newer := checkpoints[n];
      checkpoints := checkpoints[..n];
      if n > 0 {
        var older := checkpoints[n - 1];
        var merged := MergeInto(older, newer);
        MergeKeepsSnapshots(db, View(db, cache), checkpoints[..n - 1], older, newer);
        assert old(checkpoints) == checkpoints[..n - 1] + [older, newer];
        checkpoints := checkpoints[..n - 1] + [merged];
      }
    }

    /** Moves the entries of `newer` into `older`, which keeps its own. */
    static method MergeInto(older: Checkpoint, newer: Checkpoint) returns (merged: Checkpoint)
      ensures merged == newer + older
    {
      if older == map[] {
        return newer;
      }
      merged := older;
      var left := newer.Keys;
      while left != {}
        invariant left <= newer.Keys
        invariant merged == (newer - left) + older
        decreases left
      {
        var k :| k in left;
        if k !in merged {
          merged := merged[k := newer[k]];
        }
        left := left - {k};
      }
      assert newer - {} == newer;
    }

    /** Brings back every entry that the last checkpoint recorded, except for its old balance when the
        address is still in the cache. */
    method RevertToCheckpoint()
      requires Valid()
      modifies this`cache, this`checkpoints
      ensures Valid() && Abstract() == old(Abstract()).RevertToCheckpoint()
      ensures old(checkpoints) != [] ==>
                forall a :: Get(cache, a) == Restored(old(cache), old(checkpoints)[|old(checkpoints)| - 1], a)
    {
      hide View, Undo, Coherent, Tracked;
      if checkpoints == [] {
        return;
      }
      var n := |checkpoints| - 1;
      var c := checkpoints[n];
      checkpoints := checkpoints[..n];
      var left := c.Keys;
      while left != {}
        invariant left <= c.Keys && checkpoints == old(checkpoints)[..n]
        invariant forall a :: Get(cache, a) == if a in left then Get(old(cache), a) else Restored(old(cache), c, a)
        decreases left
      {
        var k :| k in left;
        assert Get(cache, k) == Get(old(cache), k);
        match c[k] {
          case Some(v) => cache := cache[k := if k in cache then cache[k].OverwriteWith(v) else v];
          case None =>
            if k in cache && cache[k].state.Dirty? {
              cache := cache - {k};
            }
        }
        left := left - {k};
      }
      RestoredCache(base, db, old(cache), old(checkpoints), cache);
    }

    /** Puts an entry in the cache; a dirty one is noted in the last checkpoint, a clean one is new there. */
    method InsertCache(a: Address, e: AccountEntry)
      requires Valid() && CleanIsStored(db, a, e) && (e.state.Dirty? || a !in cache)
      modifies this`cache, this`checkpoints
      ensures Valid()
      ensures cache == old(cache)[a := e]
      ensures Abstract() == if e.state.Dirty? then PutEntry(old(Abstract()), a, e.account) else old(Abstract())
      ensures checkpoints == if e.state.Dirty? then NotedLast(old(checkpoints), old(cache), a) else old(checkpoints)
    {
      EntryView(db, cache, a, e);
      if e.state.Dirty? {
        NoteCache(a, e);
      } else {
        assert View(db, cache[a := e]) == View(db, cache);
      }
      cache := cache[a := e];
    }

    /** Notes the current entry of `a` in the last checkpoint, so that it can be replaced by any `e`. */
    method NoteCache(a: Address, ghost e: AccountEntry)
      requires Valid()
      modifies this`checkpoints
      ensures Valid() && Abstract().accounts == old(Abstract()).accounts
      ensures Snapshots(db, View(db, cache[a := e]), checkpoints) == old(Abstract()).snapshots || checkpoints == []
      ensures checkpoints == NotedLast(old(checkpoints), cache, a)
    {
      if checkpoints != [] {
        var n := |checkpoints| - 1;
        NotedKeepsSnapshots(db, cache, checkpoints, a, e);
        checkpoints := checkpoints[n := Noted(checkpoints[n], cache, a)];
      }
    }

    /** The account bloom only knows addresses without an account. */
    ghost predicate Knows(answer: Answer, a: Address)
      reads this`db
    {
      answer.KnownNull? ==> a !in db
    }

    /** Reads an account, loading it into the cache when only the trie can answer. */
    method EnsureCached(a: Address, answer: Answer) returns (account: Option<Account>)
      requires Valid() && Knows(answer, a)
      modifies this`cache, this`checkpoints
      ensures Valid() && Abstract() == old(Abstract())
      ensures account == Get(Abstract().accounts, a)
      ensures cache == if a in old(cache) || !answer.Trie? then old(cache)
                       else old(cache)[a := NewEntry(account, CleanFresh)]
    {
      ViewAt(db, cache, a);
      if a in cache {
        return cache[a].account;
      }
      match answer {
        case Shared => account := Get(db, a);
        case KnownNull => account := None;
        case Trie =>
          account := Get(db, a);
          InsertCache(a, NewEntry(account, CleanFresh));
      }
    }

    /** Puts an account that is not in the cache there, as clean. */
    method Load(a: Address, answer: Answer)
      requires Valid() && Knows(answer, a) && a !in cache
      modifies this`cache, this`checkpoints
      ensures Valid() && Abstract() == old(Abstract()) && a in cache && checkpoints == old(checkpoints)
      ensures cache == old(cache)[a := NewEntry(Get(db, a), if answer.Shared? then CleanCached else CleanFresh)]
    {
      match answer {
        case Shared => InsertCache(a, NewEntry(Get(db, a), CleanCached));
        case KnownNull => InsertCache(a, NewEntry(None, CleanFresh));
        case Trie => InsertCache(a, NewEntry(Get(db, a), CleanFresh));
      }
    }

    /** `require` followed by a change of the account it hands out: `change` is applied to the account, or
        to a fresh one when there is none. */
    method Require(a: Address, answer: Answer, change: Account -> Account)
      requires Valid() && Knows(answer, a)
      modifies this`cache, this`checkpoints
      ensures Valid()
      ensures Abstract() == old(Abstract()).Put(a, change(old(Abstract()).Required(a)))
      ensures a in cache && cache[a].state.Dirty?
      ensures cache[a].oldBalance ==
              if a in old(cache) then old(cache)[a].oldBalance else NewEntry(Get(db, a), Dirty).oldBalance
    {
      hide Coherent, Tracked, View, Snapshots;
      if a !in cache {
        Load(a, answer);
      }
      ViewAt(db, cache, a);
      var account := if cache[a].account.Some? then cache[a].account.value else Account(0, startNonce, [], map[]);
      var e := cache[a].(account := Some(change(account)), state := Dirty);
      EntryView(db, cache, a, e);
      NoteCache(a, e);
      DirtyEntryFits(base, db, cache, checkpoints, a, e);
      NoSnapshots(db, View(db, cache));
      NoSnapshots(db, View(db, cache[a := e]));
      cache := cache[a := e];
    }

    /** Marks an existing account as dirty without changing it. */
    method Touch(a: Address, answer: Answer)
      requires Valid() && Knows(answer, a) && Abstract().Exists(a)
      modifies this`cache, this`checkpoints
      ensures Valid() && Abstract() == old(Abstract())
      ensures a in cache && cache[a].state.Dirty?
    {
      Require(a, answer, (x: Account) => x);
      assert old(Abstract()).accounts[a := old(Abstract()).accounts[a]] == old(Abstract()).accounts;
    }

    method AddBalance(a: Address, incr: nat, mode: CleanupMode, answer: Answer)
      requires Valid() && Knows(answer, a)
      modifies this`cache, this`checkpoints
      ensures Valid() && Abstract() == old(Abstract()).AddBalance(a, incr, mode)
      ensures incr != 0 || (mode.TrackTouched? && old(Abstract()).Exists(a)) ==> a in cache && cache[a].state.Dirty?
    {
      var account := EnsureCached(a, answer);
      if incr != 0 || (mode.ForceCreate? && account.None?) {
        Require(a, answer, (x: Account) => x.(balance := SaturatingAdd(x.balance, incr)));
      } else if mode.TrackTouched? && account.Some? {
        Touch(a, answer);
      }
    }

    method SubBalance(a: Address, decr: nat, answer: Answer)
      requires Valid() && Knows(answer, a) && decr <= Abstract().Balance(a)
      modifies this`cache, this`checkpoints
      ensures Valid() && Abstract() == old(Abstract()).SubBalance(a, decr)
    {
      hide Coherent, Tracked, View, Snapshots;
      var account := EnsureCached(a, answer);
      if decr != 0 || account.None? {
        Require(a, answer, (x: Account) => if decr <= x.balance then x.(balance := x.balance - decr) else x);
      }
    }

    method IncNonce(a: Address, answer: Answer)
      requires Valid() && Knows(answer, a)
      modifies this`cache, this`checkpoints
      ensures Valid() && Abstract() == old(Abstract()).IncNonce(a)
    {
      Require(a, answer, (x: Account) => x.(nonce := SaturatingAdd(x.nonce, 1)));
    }

    method SetStorage(a: Address, key: Word, value: Word, answer: Answer)
      requires Valid() && Knows(answer, a)
      modifies this`cache, this`checkpoints
      ensures Valid() && Abstract() == old(Abstract()).SetStorage(a, key, value)
    {
      var account := EnsureCached(a, answer);
      if (if account.Some? then account.value.StorageAt(key) else 0) != value {
        Require(a, answer, (x: Account) => x.(storage := x.storage[key := value]));
      }
    }

    method InitCode(a: Address, code: Bytes, answer: Answer)
      requires Valid() && Knows(answer, a)
      modifies this`cache, this`checkpoints
      ensures Valid() && Abstract() == old(Abstract()).InitCode(a, code)
    {
      Require(a, answer, (x: Account) => x.(code := code));
    }

    method NewContract(a: Address, balance: U256, nonceOffset: nat)
      requires Valid()
      modifies this`cache, this`checkpoints
      ensures Valid() && Abstract() == old(Abstract()).NewContract(a, balance, nonceOffset)
      ensures cache == old(cache)[a := NewEntry(Some(Account(balance, startNonce + nonceOffset, [], map[])), Dirty)]
      ensures checkpoints == NotedLast(old(checkpoints), old(cache), a)
    {
      InsertCache(a, NewEntry(Some(Account(balance, startNonce + nonceOffset, [], map[])), Dirty));
    }

    method KillAccount(a: Address)
      requires Valid()
      modifies this`cache, this`checkpoints
      ensures Valid() && Abstract() == old(Abstract()).KillAccount(a)
    {
      InsertCache(a, NewEntry(None, Dirty));
    }

    /** Writes the dirty entries to the database. They stay in the cache, as committed. */
    method Commit()
      requires Valid() && checkpoints == []
      modifies this`db, this`cache
      ensures Valid() && Abstract() == old(Abstract()) && db == Abstract().accounts
      ensures cache == AfterCommit(old(cache))
    {
      hide View, Coherent, Tracked, Snapshots;
      var dirty := set a | a in cache && cache[a].state.Dirty?;
      var left := dirty;
      while left != {}
        invariant left <= dirty
        invariant forall a :: Get(cache, a) == Get(if a in left then old(cache) else AfterCommit(old(cache)), a)
        invariant forall a :: Get(db, a) == if a in dirty - left then old(cache)[a].account else Get(old(db), a)
        decreases left
      {
        var k :| k in left;
        assert Get(cache, k) == Get(old(cache), k);
        cache := cache[k := cache[k].(state := Committed)];
        match cache[k].account {
          case Some(account) => db := db[k := account];
          case None => db := db - {k};
        }
        left := left - {k};
      }
      StoredDetermines(cache, AfterCommit(old(cache)));
      CommitWritesView(old(db), old(cache), db, dirty);
      CommittedKeepsView(old(db), old(cache), db);
      TrackedCommit(base, old(db), old(cache), db);
      NoSnapshots(db, View(db, cache));
      NoSnapshots(old(db), View(old(db), old(cache)));
    }

    /** Hands the cache over to the database: what was modified, marked as such, and what was read from the
        trie. After a commit the items hold the state of the block and mark all its changes. */
    method Drop() returns (items: seq<AccountCache.CacheQueueItem>)
      requires Valid() && checkpoints == [] && forall a | a in cache :: !cache[a].state.Dirty?
      ensures AccountCache.ValidItems(base, Abstract().accounts, items)
      ensures forall a :: AccountCache.Mentions(items, a) <==>
                a in cache && (cache[a].state.Committed? || cache[a].state.CleanFresh?)
      ensures forall i | 0 <= i < |items| ::
                items[i].address in cache && (items[i].modified <==> cache[items[i].address].state.Committed?)
    {
      items := [];
      var left := cache.Keys;
      while left != {}
        invariant left <= cache.Keys
        invariant forall i | 0 <= i < |items| :: items[i].address in cache && items[i].address !in left
        invariant forall i | 0 <= i < |items| :: items[i].account == cache[items[i].address].account
        invariant forall i, j | 0 <= i < j < |items| :: items[i].address != items[j].address
        invariant forall i | 0 <= i < |items| ::
                    var e := cache[items[i].address];
                    (e.state.Committed? || e.state.CleanFresh?) && items[i].modified == e.state.Committed?
        invariant forall a | a in cache && a !in left && (cache[a].state.Committed? || cache[a].state.CleanFresh?) ::
                    exists i :: 0 <= i < |items| && items[i].address == a
        decreases left
      {
        var k :| k in left;
        var e := cache[k];
        ghost var was := items;
        if e.state.Committed? || e.state.CleanFresh? {
          items := items + [AccountCache.CacheQueueItem(k, e.account, e.state.Committed?)];
          assert forall i | 0 <= i < |was| :: items[i] == was[i];
          assert items[|was|].address == k;
        }
        left := left - {k};
      }
      forall i | 0 <= i < |items| ensures items[i].account == Get(Abstract().accounts, items[i].address) {
        ViewAt(db, cache, items[i].address);
      }
      forall a | Get(Abstract().accounts, a) != Get(base, a)
        ensures exists i :: 0 <= i < |items| && items[i].address == a && items[i].modified
      {
        ViewAt(db, cache, a);
        ChangesAreModified(base, db, cache, checkpoints, a);
        var i :| 0 <= i < |items| && items[i].address == a;
        assert items[i].modified;
      }
    }
  }

  /** The cache after a commit. */
  function AfterCommit(cache: Cache): Cache {
    map a | a in cache ::
      if cache[a].state.Dirty? then cache[a].(state := Committed) else cache[a]
  }

  /** A clean entry that a clone dropped will be loaded from the database as it was. */
  lemma CloneLoads(s: State, clone: State, a: Address)
    requires s.Valid() && a in s.cache && !s.cache[a].state.Dirty? && clone.db == s.db
    ensures Get(clone.db, a) == s.cache[a].account
  {
    assert CleanIsStored(s.db, a, s.cache[a]);
  }

  /** A reverted create over a loaded account brings the account back, but leaves the entry clean with the
      balance that the create gave it; a clone forgets the entry and loads the account again. */
  method RevertedCreate(s: State, a: Address, balance: U256, nonceOffset: nat) returns (clone: State)
    requires s.Valid() && a in s.cache && s.cache[a].state.CleanFresh?
    modifies s`cache, s`checkpoints
    ensures s.Valid() && s.Abstract() == old(s.Abstract())
    ensures a in s.cache && s.cache[a] == old(s.cache[a]).(oldBalance := Some(balance))
    ensures fresh(clone) && clone.Valid() && clone.Abstract() == s.Abstract().(snapshots := [])
    ensures a in clone.cache && clone.cache[a] == NewEntry(old(s.cache[a]).account, CleanFresh)
  {
    hide Coherent, Tracked, View, Snapshots, State.Valid, State.Abstract;
    ghost var w := s.Abstract();
    assert w.Checkpoint().NewContract(a, balance, nonceOffset).RevertToCheckpoint() == w;
    s.Checkpoint();
    s.NewContract(a, balance, nonceOffset);
    s.RevertToCheckpoint();
    assert Get(s.cache, a) == Some(old(s.cache[a]).(oldBalance := Some(balance)));
    clone := new State.Clone(s);
    CloneLoads(s, clone, a);
    clone.Load(a, Trie);
  }
}
