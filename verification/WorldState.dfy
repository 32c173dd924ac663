/** The account state as the executive sees it: a map of accounts and a stack of saved maps.
    `AccountJournal` shows that the checkpoint journal implements this view. */
module WorldState {
  import opened Primitives

  datatype Account = Account(balance: U256, nonce: nat, code: Bytes, storage: map<Word, Word>) {
    function StorageAt(key: Word): Word {
      if key in storage then storage[key] else 0
    }

    /** Zero nonce, zero balance and no code; storage is not looked at. */
    predicate IsNull() {
      balance == 0 && nonce == 0 && code == []
    }
  }

  type Accounts = map<Address, Account>

  /** How operations deal with null accounts; the touched set lives in the substate. */
  datatype CleanupMode = ForceCreate | NoEmpty | TrackTouched

  datatype World = World(accounts: Accounts, snapshots: seq<Accounts>, startNonce: nat) {

    predicate Exists(a: Address) {
      a in accounts
    }

    function Balance(a: Address): U256 {
      if a in accounts then accounts[a].balance else 0
    }

    function Nonce(a: Address): nat {
      if a in accounts then accounts[a].nonce else startNonce
    }

    /** Missing accounts have no code; existing ones without code have empty code. */
    function Code(a: Address): Option<Bytes> {
      if a in accounts then Some(accounts[a].code) else None
    }

    function StorageAt(a: Address, key: Word): Word {
      if a in accounts then accounts[a].StorageAt(key) else 0
    }

    /** The account that `require` hands out, creating a basic one when there is none. */
    function Required(a: Address): Account {
      if a in accounts then accounts[a] else Account(0, startNonce, [], map[])
    }

    predicate HasCodeOrNonce(a: Address) {
      a in accounts && (accounts[a].code != [] || accounts[a].nonce != startNonce)
    }

    function Put(a: Address, account: Account): World {
      this.(accounts := accounts[a := account])
    }

    function AddBalance(a: Address, incr: nat, mode: CleanupMode): World {
      if incr != 0 || (mode.ForceCreate? && !Exists(a)) then
        var account := Required(a);
        Put(a, account.(balance := SaturatingAdd(account.balance, incr)))
      else
        this
    }

    /** The addresses that `AddBalance` notes as touched. */
    function TouchedByAdd(a: Address, incr: nat, mode: CleanupMode): set<Address> {
      if incr == 0 && mode.TrackTouched? && Exists(a) then {a} else {}
    }

    /** Panics in the source when the balance is too small. */
    function SubBalance(a: Address, decr: nat): World
      requires decr <= Balance(a)
    {
      if decr != 0 || !Exists(a) then
        var account := Required(a);
        Put(a, account.(balance := account.balance - decr))
      else
        this
    }

    function TouchedBySub(a: Address, mode: CleanupMode): set<Address> {
      if mode.TrackTouched? then {a} else {}
    }

    function TransferBalance(from: Address, to: Address, amount: nat, mode: CleanupMode): World
      requires amount <= Balance(from)
    {
      SubBalance(from, amount).AddBalance(to, amount, mode)
    }

    function TouchedByTransfer(from: Address, to: Address, amount: nat, mode: CleanupMode): set<Address>
      requires amount <= Balance(from)
    {
      TouchedBySub(from, mode) + SubBalance(from, amount).TouchedByAdd(to, amount, mode)
    }

    function IncNonce(a: Address): World {
      var account := Required(a);
      Put(a, account.(nonce := SaturatingAdd(account.nonce, 1)))
    }

    function SetStorage(a: Address, key: Word, value: Word): World {
      if StorageAt(a, key) != value then
        var account := Required(a);
        Put(a, account.(storage := account.storage[key := value]))
      else
        this
    }

    function InitCode(a: Address, code: Bytes): World {
      Put(a, Required(a).(code := code))
    }

    function NewContract(a: Address, balance: U256, nonceOffset: nat): World {
      Put(a, Account(balance, startNonce + nonceOffset, [], map[]))
    }

    function KillAccount(a: Address): World {
      this.(accounts := accounts - {a})
    }

    function Checkpoint(): World {
      this.(snapshots := snapshots + [accounts])
    }

    function DiscardCheckpoint(): World {
      if snapshots == [] then this else this.(snapshots := snapshots[..|snapshots| - 1])
    }

    function RevertToCheckpoint(): World {
      if snapshots == [] then
        this
      else
        World(snapshots[|snapshots| - 1], snapshots[..|snapshots| - 1], startNonce)
    }
  }

  /** What a program can read of an address; a missing account reads as an empty one. */
  datatype Reading = Reading(balance: U256, nonce: nat, code: Bytes, storage: map<Word, Word>)

  function Read(w: World, a: Address): Reading {
    var account := w.Required(a);
    Reading(account.balance, account.nonce, account.code, account.storage)
  }

  ghost predicate SameReadings(v: World, w: World) {
    v.startNonce == w.startNonce && forall a :: Read(v, a) == Read(w, a)
  }

  // ----- the total supply

  ghost function Supply(m: Accounts): nat {
    if m == map[] then 0 else var a :| a in m; m[a].balance + Supply(m - {a})
  }

  lemma {:induction false} SupplyRemove(m: Accounts, a: Address)
    requires a in m
    ensures Supply(m) == m[a].balance + Supply(m - {a})
  {
    var b :| b in m && Supply(m) == m[b].balance + Supply(m - {b});
    if a != b {
      SupplyRemove(m - {b}, a);
      SupplyRemove(m - {a}, b);
      assert m - {b} - {a} == m - {a} - {b};
    }
  }

  lemma SupplyPut(m: Accounts, a: Address, account: Account)
    ensures Supply(m[a := account]) == Supply(m) - (if a in m then m[a].balance else 0) + account.balance
  {
    SupplyRemove(m[a := account], a);
    if a in m {
      SupplyRemove(m, a);
      assert m[a := account] - {a} == m - {a};
    } else {
      assert m[a := account] - {a} == m;
    }
  }

  lemma SupplyKill(m: Accounts, a: Address)
    ensures Supply(m - {a}) + (if a in m then m[a].balance else 0) == Supply(m)
  {
    if a in m {
      SupplyRemove(m, a);
    } else {
      assert m - {a} == m;
    }
  }

  lemma BalanceBelowSupply(w: World, a: Address)
    ensures w.Balance(a) <= Supply(w.accounts)
  {
    if a in w.accounts {
      SupplyRemove(w.accounts, a);
    }
  }

  lemma SupplyAdd(w: World, a: Address, incr: nat, mode: CleanupMode)
    ensures Supply(w.AddBalance(a, incr, mode).accounts) <= Supply(w.accounts) + incr
    ensures w.Balance(a) + incr <= MAX_U256 ==>
              Supply(w.AddBalance(a, incr, mode).accounts) == Supply(w.accounts) + incr
  {
    var account := w.Required(a);
    SupplyPut(w.accounts, a, account.(balance := SaturatingAdd(account.balance, incr)));
  }

  lemma SupplySub(w: World, a: Address, decr: nat)
    requires decr <= w.Balance(a)
    ensures Supply(w.SubBalance(a, decr).accounts) == Supply(w.accounts) - decr
    ensures w.SubBalance(a, decr).Balance(a) == w.Balance(a) - decr
  {
    var account := w.Required(a);
    SupplyPut(w.accounts, a, account.(balance := account.balance - decr));
  }

  /** A transfer conserves the total whenever the total fits the word size, and never increases it. */
  lemma SupplyTransfer(w: World, from: Address, to: Address, amount: nat, mode: CleanupMode)
    requires amount <= w.Balance(from)
    ensures Supply(w.TransferBalance(from, to, amount, mode).accounts) <= Supply(w.accounts)
    ensures Supply(w.accounts) <= MAX_U256 ==>
              Supply(w.TransferBalance(from, to, amount, mode).accounts) == Supply(w.accounts)
  {
    SupplySub(w, from, amount);
    var v := w.SubBalance(from, amount);
    SupplyAdd(v, to, amount, mode);
    BalanceBelowSupply(v, to);
  }
}
