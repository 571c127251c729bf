/**
 The ledger state the processor reads and writes: account records keyed by
 address and the two dynamic properties it consults. Persistence, database
 keys and the protobuf account wrapper are reduced to an in-memory map.
 */
module Repository {
  import opened JavaLong
  import opened UnfreezeList
  import opened WithdrawParam

  datatype Option<T> = None | Some(value: T)

  /** The fields of an account record that this transition reads or writes. */
  datatype Account = Account(
    address: Address,
    balance: Long,
    unfrozenV2: seq<Entry>,
    latestWithdrawTime: Long)

  class Repo {
    var accounts: map<Address, Account>
    /** Governance parameter; 0 means the unfreeze/withdraw feature is off. */
    var unfreezeDelayDays: Long
    /** The chain clock: the timestamp of the latest block header. */
    var latestBlockHeaderTimestamp: Long

    /** Every account is stored under its own address (its database key). */
    ghost predicate Valid()
      reads this
    {
      forall a :: a in accounts ==> accounts[a].address == a
    }

    constructor (accounts: map<Address, Account>, unfreezeDelayDays: Long, latestBlockHeaderTimestamp: Long)
      requires forall a :: a in accounts ==> accounts[a].address == a
      ensures Valid()
      ensures this.accounts == accounts
      ensures this.unfreezeDelayDays == unfreezeDelayDays
      ensures this.latestBlockHeaderTimestamp == latestBlockHeaderTimestamp
    {
      this.accounts := accounts;
      this.unfreezeDelayDays := unfreezeDelayDays;
      this.latestBlockHeaderTimestamp := latestBlockHeaderTimestamp;
    }

    function GetAccount(address: Address): (r: Option<Account>)
      reads this
      ensures r.Some? <==> address in accounts
      ensures r.Some? ==> r.value == accounts[address]
    {
      if address in accounts then Some(accounts[address]) else None
    }

    method UpdateAccount(key: Address, account: Account)
      modifies this
      ensures accounts == old(accounts)[key := account]
      ensures unfreezeDelayDays == old(unfreezeDelayDays)
      ensures latestBlockHeaderTimestamp == old(latestBlockHeaderTimestamp)
      ensures old(Valid()) && account.address == key ==> Valid()
    {
      accounts := accounts[key := account];
    }
  }
}
