/** Differences between two states given as plain data. */
module PodDiff {
  import opened Primitives

  /** An account; `code` is `None` when it is unknown. */
  datatype PodAccount = PodAccount(balance: U256, nonce: U256, code: Option<Bytes>, storage: map<Word, Word>) {
    function StorageAt(k: Word): Word {
      if k in storage then storage[k] else 0
    }
  }

  datatype Diff<T> = Same | Born(to: T) | Changed(from: T, to: T) | Died(from: T) {
    function Inverse(): Diff<T> {
      match this
      case Same => Same
      case Born(x) => Died(x)
      case Died(x) => Born(x)
      case Changed(x, y) => Changed(y, x)
    }

    /** The value after the change. */
    function Apply(x: T): T {
      if Born? || Changed? then to else x
    }
  }

  function NewDiff<T(==)>(pre: T, post: T): Diff<T> {
    if pre == post then Same else Changed(pre, post)
  }

  datatype AccountDiff = AccountDiff(
    balance: Diff<U256>,
    nonce: Diff<U256>,
    code: Diff<Bytes>,
    storage: map<Word, Diff<Word>>
  )

  type PodState = map<Address, PodAccount>

  // ----- the difference of two accounts

  /** Accounts that appear or disappear have to have known code. */
  predicate CodeKnown(pre: Option<PodAccount>, post: Option<PodAccount>) {
    && (pre.None? && post.Some? ==> post.value.code.Some?)
    && (pre.Some? && post.None? ==> pre.value.code.Some?)
  }

  function StorageDiff(pre: PodAccount, post: PodAccount): map<Word, Diff<Word>> {
    map k | k in pre.storage.Keys + post.storage.Keys && pre.StorageAt(k) != post.StorageAt(k) ::
      NewDiff(pre.StorageAt(k), post.StorageAt(k))
  }

  function DiffAccount(pre: Option<PodAccount>, post: Option<PodAccount>): Option<AccountDiff>
    requires CodeKnown(pre, post)
  {
    match (pre, post)
    case (None, None) => None
    case (None, Some(x)) =>
      Some(AccountDiff(Born(x.balance), Born(x.nonce), Born(x.code.value),
                       map k | k in x.storage :: Born(x.storage[k])))
    case (Some(x), None) =>
      Some(AccountDiff(Died(x.balance), Died(x.nonce), Died(x.code.value),
                       map k | k in x.storage :: Died(x.storage[k])))
    case (Some(x), Some(y)) =>
      var r := AccountDiff(
        NewDiff(x.balance, y.balance),
        NewDiff(x.nonce, y.nonce),
        if x.code.Some? && y.code.Some? then NewDiff(x.code.value, y.code.value) else Same,
        StorageDiff(x, y));
      if r.balance.Same? && r.nonce.Same? && r.code.Same? && r.storage == map[] then None else Some(r)
  }

  // ----- patching

  function ApplyStorage(storage: map<Word, Word>, d: map<Word, Diff<Word>>): map<Word, Word> {
    map k | k in storage.Keys + d.Keys && !(k in d && d[k].Died?) ::
      if k in d then d[k].Apply(if k in storage then storage[k] else 0) else storage[k]
  }

  /** The account that a difference turns `pre` into. */
  function ApplyAccount(pre: Option<PodAccount>, d: Option<AccountDiff>): Option<PodAccount> {
    match d
    case None => pre
    case Some(d) =>
      if d.balance.Died? then None
      else
        var x := if pre.Some? then pre.value else PodAccount(0, 0, None, map[]);
        Some(PodAccount(
          d.balance.Apply(x.balance), d.nonce.Apply(x.nonce),
          if d.code.Same? then x.code else Some(d.code.Apply([])),
          ApplyStorage(x.storage, d.storage)))
  }

  /** Equality up to storage entries that hold zero. */
  ghost predicate SameAccount(x: Option<PodAccount>, y: Option<PodAccount>) {
    match (x, y)
    case (None, None) => true
    case (Some(x), Some(y)) =>
      && x.balance == y.balance && x.nonce == y.nonce && x.code == y.code
      && forall k :: x.StorageAt(k) == y.StorageAt(k)
    case _ => false
  }

  /** The code is known on both sides or on neither. */
  predicate SameKnowledge(pre: Option<PodAccount>, post: Option<PodAccount>) {
    pre.Some? && post.Some? ==> (pre.value.code.Some? <==> post.value.code.Some?)
  }

  lemma ApplyStorageAt(x: PodAccount, y: PodAccount, k: Word)
    ensures x.(storage := ApplyStorage(x.storage, StorageDiff(x, y))).StorageAt(k) == y.StorageAt(k)
  {
  }

  /** Patching the old account gives the new one, if and only if the code is known on both sides or on
      neither. */
  lemma DiffPatches(pre: Option<PodAccount>, post: Option<PodAccount>)
    requires CodeKnown(pre, post)
    ensures SameAccount(ApplyAccount(pre, DiffAccount(pre, post)), post) <==> SameKnowledge(pre, post)
  {
    hide StorageDiff;
    match (pre, post)
    case (None, None) =>
    case (Some(_), None) =>
    case (None, Some(y)) =>
      var z := ApplyAccount(pre, DiffAccount(pre, post)).value;
      assert z.storage == y.storage;
    case (Some(x), Some(y)) =>
      forall k
        ensures x.(storage := ApplyStorage(x.storage, StorageDiff(x, y))).StorageAt(k) == y.StorageAt(k)
      {
        ApplyStorageAt(x, y, k);
      }
      if DiffAccount(pre, post).None? {
        EmptyStorageDiff(x, y);
      }
  }

  lemma EmptyStorageDiff(x: PodAccount, y: PodAccount)
    ensures StorageDiff(x, y) == map[] <==> forall k :: x.StorageAt(k) == y.StorageAt(k)
  {
    if StorageDiff(x, y) == map[] {
      forall k
        ensures x.StorageAt(k) == y.StorageAt(k)
      {
        assert k !in StorageDiff(x, y);
      }
    }
  }

  /** There is no difference if and only if the accounts agree up to zero entries and unknown code. */
  lemma NoDiffIff(pre: Option<PodAccount>, post: Option<PodAccount>)
    requires CodeKnown(pre, post)
    ensures DiffAccount(pre, post).None? <==>
            SameAccount(pre, post)
            || (pre.Some? && post.Some? && !SameKnowledge(pre, post)
                && SameAccount(pre, Some(post.value.(code := pre.value.code))))
  {
    hide StorageDiff;
    if pre.Some? && post.Some? {
      EmptyStorageDiff(pre.value, post.value);
    }
  }

  function InverseAccount(d: AccountDiff): AccountDiff {
    AccountDiff(d.balance.Inverse(), d.nonce.Inverse(), d.code.Inverse(),
                map k | k in d.storage :: d.storage[k].Inverse())
  }

  /** Swapping the arguments inverts the difference. */
  lemma SwapInverts(pre: Option<PodAccount>, post: Option<PodAccount>)
    requires CodeKnown(pre, post)
    ensures DiffAccount(post, pre) ==
            match DiffAccount(pre, post) case None => None case Some(d) => Some(InverseAccount(d))
  {
    match (pre, post)
    case (None, None) =>
    case (None, Some(x)) =>
      assert DiffAccount(post, pre).value.storage == InverseAccount(DiffAccount(pre, post).value).storage;
    case (Some(x), None) =>
      assert DiffAccount(post, pre).value.storage == InverseAccount(DiffAccount(pre, post).value).storage;
    case (Some(x), Some(y)) =>
      StorageDiffSwaps(x, y);
      if DiffAccount(pre, post).Some? {
        var d, d' := DiffAccount(pre, post).value, DiffAccount(post, pre).value;
        assert InverseAccount(d).storage == d'.storage;
      }
  }

  lemma StorageDiffSwaps(x: PodAccount, y: PodAccount)
    ensures var d := StorageDiff(x, y); StorageDiff(y, x) == map k | k in d :: d[k].Inverse()
    ensures StorageDiff(x, y) == map[] <==> StorageDiff(y, x) == map[]
  {
    var d, d' := StorageDiff(x, y), StorageDiff(y, x);
    assert d'.Keys == d.Keys;
    assert d == map[] <==> d.Keys == {};
    assert d' == map[] <==> d'.Keys == {};
  }

  // ----- the difference of two states

  predicate AllCodeKnown(pre: PodState, post: PodState) {
    forall a | a in pre.Keys + post.Keys :: CodeKnown(Get(pre, a), Get(post, a))
  }

  function DiffState(pre: PodState, post: PodState): map<Address, AccountDiff>
    requires AllCodeKnown(pre, post)
  {
    map a | a in pre.Keys + post.Keys && DiffAccount(Get(pre, a), Get(post, a)).Some? ::
      DiffAccount(Get(pre, a), Get(post, a)).value
  }

  function ApplyState(pre: PodState, d: map<Address, AccountDiff>): PodState {
    map a | a in pre.Keys + d.Keys && ApplyAccount(Get(pre, a), Get(d, a)).Some? ::
      ApplyAccount(Get(pre, a), Get(d, a)).value
  }

  lemma DiffStateAt(pre: PodState, post: PodState, a: Address)
    requires AllCodeKnown(pre, post)
    ensures CodeKnown(Get(pre, a), Get(post, a))
    ensures Get(DiffState(pre, post), a) == DiffAccount(Get(pre, a), Get(post, a))
  {
    hide DiffAccount;
    if a !in pre && a !in post {
      NoDiffIff(None, None);
    }
  }

  lemma ApplyStateAt(pre: PodState, d: map<Address, AccountDiff>, a: Address)
    ensures Get(ApplyState(pre, d), a) == ApplyAccount(Get(pre, a), Get(d, a))
  {
  }

  /** Patching the old state gives the new one, address by address, if and only if no code is known on one
      side only. */
  lemma StateDiffPatches(pre: PodState, post: PodState)
    requires AllCodeKnown(pre, post)
    ensures (forall a :: SameAccount(Get(ApplyState(pre, DiffState(pre, post)), a), Get(post, a))) <==>
            (forall a :: SameKnowledge(Get(pre, a), Get(post, a)))
  {
    hide ApplyState, DiffState, SameAccount, SameKnowledge, ApplyAccount, DiffAccount;
    forall a
      ensures SameAccount(Get(ApplyState(pre, DiffState(pre, post)), a), Get(post, a)) <==>
              SameKnowledge(Get(pre, a), Get(post, a))
    {
      DiffStateAt(pre, post, a);
      ApplyStateAt(pre, DiffState(pre, post), a);
      DiffPatches(Get(pre, a), Get(post, a));
    }
  }

  /** With all code known, an address is missing from the difference exactly when its accounts agree. */
  lemma AbsentIffSame(pre: PodState, post: PodState, a: Address)
    requires AllCodeKnown(pre, post) && SameKnowledge(Get(pre, a), Get(post, a))
    ensures a !in DiffState(pre, post) <==> SameAccount(Get(pre, a), Get(post, a))
  {
    DiffStateAt(pre, post, a);
    NoDiffIff(Get(pre, a), Get(post, a));
  }

  /** The difference in the other direction is the inverse patch. */
  lemma StateSwapInverts(pre: PodState, post: PodState)
    requires AllCodeKnown(pre, post)
    ensures AllCodeKnown(post, pre)
    ensures DiffState(post, pre) == map a | a in DiffState(pre, post) :: InverseAccount(DiffState(pre, post)[a])
  {
    hide DiffAccount, InverseAccount, DiffState;
    assert forall a | a in post.Keys + pre.Keys :: a in pre.Keys + post.Keys;
    var d, d' := DiffState(pre, post), DiffState(post, pre);
    forall a
      ensures Get(d', a) == match Get(d, a) case None => None case Some(x) => Some(InverseAccount(x))
    {
      DiffStateAt(pre, post, a);
      DiffStateAt(post, pre, a);
      SwapInverts(Get(pre, a), Get(post, a));
    }
    forall a
      ensures a in d' <==> a in d
      ensures a in d ==> d'[a] == InverseAccount(d[a])
    {
      assert Get(d', a) == match Get(d, a) case None => None case Some(x) => Some(InverseAccount(x));
    }
  }
}
