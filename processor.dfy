/**
 The withdraw-expired-unfreeze transition: `Validate` is the read-only
 admission check, `Execute` credits every expired unfreeze entry to the
 balance, stamps the withdrawal time and keeps only the pending entries.
 */
module WithdrawExpireUnfreezeProcessor {
  import opened JavaLong
  import opened UnfreezeList
  import opened WithdrawParam
  import opened Repository

  /** The rejections of validate, in the order it checks for them. */
  datatype ValidationError =
    | StoreNotExist
    | NotSupported
    | InvalidAddress
    | AccountNotExist(address: Address)
    | NoUnfreezeBalance
    | BalanceOverflow

  datatype Outcome = Pass | Fail(error: ValidationError)

  /** There is something to withdraw and crediting it cannot overflow the balance. */
  predicate Admissible(account: Account, now: Long) {
    var total := TotalWithdrawUnfreeze(account.unfrozenV2, now);
    total > 0 && InLong(account.balance + total)
  }

  /** The account-level checks of validate: something to withdraw, then `checkedAdd`. */
  function CheckWithdrawal(account: Account, now: Long): (r: Outcome)
    ensures r.Pass? || r == Fail(NoUnfreezeBalance) || r == Fail(BalanceOverflow)
    ensures r.Pass? <==> Admissible(account, now)
    ensures r == Fail(NoUnfreezeBalance) <==> TotalWithdrawUnfreeze(account.unfrozenV2, now) <= 0
  {
    var total := TotalWithdrawUnfreeze(account.unfrozenV2, now);
    if total <= 0 then Fail(NoUnfreezeBalance)
    else if !InLong(account.balance + total) then Fail(BalanceOverflow)
    else Pass
  }

  /**
   validate: rejects a missing repository first, then a disabled feature, an
   invalid address, a missing account, nothing to withdraw and an overflowing
   balance, in that order. The address check is the platform's and is passed in.
   As a function it cannot change any state, and its frame shows that of the
   request it reads only the owner address.
   */
  function Validate(param: WithdrawExpireUnfreezeParam, repo: Repo?, addressValid: Address -> bool): (r: Outcome)
    reads param`ownerAddress, repo
    ensures r == Fail(StoreNotExist) <==> repo == null
    ensures r == Fail(NotSupported) <==> repo != null && repo.unfreezeDelayDays == 0
    ensures r == Fail(InvalidAddress) <==>
      repo != null && repo.unfreezeDelayDays != 0 && !addressValid(param.ownerAddress)
    ensures r.Fail? && r.error.AccountNotExist? <==>
      repo != null && repo.unfreezeDelayDays != 0 && addressValid(param.ownerAddress)
      && param.ownerAddress !in repo.accounts
    ensures r.Fail? && r.error.AccountNotExist? ==> r.error.address == param.ownerAddress
    ensures r.Pass? <==>
      repo != null && repo.unfreezeDelayDays != 0 && addressValid(param.ownerAddress)
      && param.ownerAddress in repo.accounts
      && Admissible(repo.accounts[param.ownerAddress], repo.latestBlockHeaderTimestamp)
    ensures (repo != null && repo.unfreezeDelayDays != 0 && addressValid(param.ownerAddress)
             && param.ownerAddress in repo.accounts) ==>
      r == CheckWithdrawal(repo.accounts[param.ownerAddress], repo.latestBlockHeaderTimestamp)
  {
    if repo == null then Fail(StoreNotExist)
    else
      var ownerAddress := param.GetOwnerAddress();
      var account := repo.GetAccount(ownerAddress);
      if repo.unfreezeDelayDays == 0 then Fail(NotSupported)
      else if !addressValid(ownerAddress) then Fail(InvalidAddress)
      else if account.None? then Fail(AccountNotExist(ownerAddress))
      else CheckWithdrawal(account.value, repo.latestBlockHeaderTimestamp)
  }

  /**
   The account record that execute writes back: same address, the clock as
   withdraw time, only the pending entries, and the balance credited with the
   total (by unchecked `long` addition, exact when validate would pass).
   */
  function AfterWithdraw(account: Account, now: Long): (r: Account)
    ensures r.address == account.address
    ensures r.latestWithdrawTime == now
    ensures forall e :: e in r.unfrozenV2 <==> e in account.unfrozenV2 && Pending(e, now)
    ensures CheckWithdrawal(account, now).Pass? ==>
      r.balance == account.balance + TotalWithdrawUnfreeze(account.unfrozenV2, now) > account.balance
  {
    var total := TotalWithdrawUnfreeze(account.unfrozenV2, now);
    account.(balance := WrapLong(account.balance + total),
             latestWithdrawTime := now,
             unfrozenV2 := RemainList(account.unfrozenV2, now))
  }

  /**
   execute: recomputes the withdrawable total against the chain clock, credits
   it, stamps the time, rebuilds the entry list from the survivors and writes
   the account back under its own key. The sum and the credit are unchecked
   `long` arithmetic; once validate has passed neither wraps.
   */
  method Execute(param: WithdrawExpireUnfreezeParam, repo: Repo) returns (withdrawn: Long)
    requires repo.Valid()
    requires param.ownerAddress in repo.accounts
    modifies repo
    ensures repo.Valid()
    ensures repo.unfreezeDelayDays == old(repo.unfreezeDelayDays)
    ensures repo.latestBlockHeaderTimestamp == old(repo.latestBlockHeaderTimestamp)
    ensures withdrawn == TotalWithdrawUnfreeze(old(repo.accounts[param.ownerAddress]).unfrozenV2, repo.latestBlockHeaderTimestamp)
    ensures repo.accounts == old(repo.accounts)[param.ownerAddress :=
      AfterWithdraw(old(repo.accounts[param.ownerAddress]), repo.latestBlockHeaderTimestamp)]
    ensures old(Admissible(repo.accounts[param.ownerAddress], repo.latestBlockHeaderTimestamp)) ==>
      withdrawn > 0 && repo.accounts[param.ownerAddress].balance == old(repo.accounts[param.ownerAddress].balance) + withdrawn
  {
    var ownerAddress := param.GetOwnerAddress();
    var now := repo.latestBlockHeaderTimestamp;
    var found := repo.GetAccount(ownerAddress);
    var owner := found.value;
    var unfrozenV2List := owner.unfrozenV2;
    var total := TotalWithdrawUnfreeze(unfrozenV2List, now);
    owner := owner.(balance := WrapLong(owner.balance + total), latestWithdrawTime := now);
    var newUnFreezeList := RemainList(unfrozenV2List, now);
    owner := owner.(unfrozenV2 := []);
    for i := 0 to |newUnFreezeList|
      invariant owner.address == ownerAddress
      invariant owner.balance == WrapLong(found.value.balance + total)
      invariant owner.latestWithdrawTime == now
      invariant owner.unfrozenV2 == newUnFreezeList[..i]
    {
      owner := owner.(unfrozenV2 := owner.unfrozenV2 + [newUnFreezeList[i]]);
    }
    assert owner.unfrozenV2 == newUnFreezeList;
    assert owner == AfterWithdraw(found.value, now);
    repo.UpdateAccount(owner.address, owner);
    withdrawn := total;
  }

  /** Executing a second time at the same clock withdraws nothing and changes nothing. */
  method ExecuteTwice(param: WithdrawExpireUnfreezeParam, repo: Repo) returns (first: Long, second: Long)
    requires repo.Valid()
    requires param.ownerAddress in repo.accounts
    modifies repo
    ensures repo.Valid()
    ensures repo.unfreezeDelayDays == old(repo.unfreezeDelayDays)
    ensures repo.latestBlockHeaderTimestamp == old(repo.latestBlockHeaderTimestamp)
    ensures first == TotalWithdrawUnfreeze(old(repo.accounts[param.ownerAddress]).unfrozenV2, old(repo.latestBlockHeaderTimestamp))
    ensures second == 0
    ensures repo.accounts == old(repo.accounts)[param.ownerAddress :=
      AfterWithdraw(old(repo.accounts[param.ownerAddress]), old(repo.latestBlockHeaderTimestamp))]
  {
    first := Execute(param, repo);
    ghost var once := repo.accounts;
    SecondWithdrawIsNoOp(old(repo.accounts[param.ownerAddress]), repo.latestBlockHeaderTimestamp);
    second := Execute(param, repo);
    assert repo.accounts == once;
  }

  /** No withdrawable entry means validate reports nothing to withdraw. */
  lemma NothingEligibleIsRejected(account: Account, now: Long)
    requires forall i :: 0 <= i < |account.unfrozenV2| ==> !Withdrawable(account.unfrozenV2[i], now)
    ensures CheckWithdrawal(account, now) == Fail(NoUnfreezeBalance)
  {
    WithdrawListEmpty(account.unfrozenV2, now);
  }

  /**
   When the exact withdrawable sum fits in a `long`, validate reports nothing
   to withdraw exactly when no entry is both positive and expired, and reports
   an overflow exactly when crediting the exact sum exceeds the `long` range.
   */
  lemma RejectionsWithoutWrap(account: Account, now: Long)
    requires InLong(SumAmounts(WithdrawList(account.unfrozenV2, now)))
    ensures CheckWithdrawal(account, now) == Fail(NoUnfreezeBalance) <==>
      forall i :: 0 <= i < |account.unfrozenV2| ==> !Withdrawable(account.unfrozenV2[i], now)
    ensures CheckWithdrawal(account, now) == Fail(BalanceOverflow) <==>
      (exists i :: 0 <= i < |account.unfrozenV2| && Withdrawable(account.unfrozenV2[i], now))
      && account.balance + SumAmounts(WithdrawList(account.unfrozenV2, now)) > MAX_LONG
  {
    WithdrawSumPositive(account.unfrozenV2, now);
  }

  /** After a validated withdrawal the balance grows by exactly the withdrawn total. */
  lemma {:induction false} ValidatedCreditIsExact(account: Account, now: Long)
    requires CheckWithdrawal(account, now).Pass?
    requires InLong(SumAmounts(WithdrawList(account.unfrozenV2, now)))
    ensures AfterWithdraw(account, now).balance == account.balance + SumAmounts(WithdrawList(account.unfrozenV2, now))
    ensures AfterWithdraw(account, now).balance > account.balance
    ensures AfterWithdraw(account, now).latestWithdrawTime == now
    ensures AfterWithdraw(account, now).address == account.address
  {
  }

  /**
   Value is conserved: balance plus pending amounts is the same before and
   after a validated withdrawal (amounts non-negative, exact sum in range).
   */
  lemma {:induction false} WithdrawConservesValue(account: Account, now: Long)
    requires AllNonNegative(account.unfrozenV2)
    requires CheckWithdrawal(account, now).Pass?
    requires InLong(SumAmounts(WithdrawList(account.unfrozenV2, now)))
    ensures AfterWithdraw(account, now).balance + SumAmounts(AfterWithdraw(account, now).unfrozenV2)
         == account.balance + SumAmounts(account.unfrozenV2)
  {
    ValidatedCreditIsExact(account, now);
    PartitionValue(account.unfrozenV2, now);
    DroppedCarriesNothing(account.unfrozenV2, now);
  }

  /**
   The entries after a withdrawal are exactly the original ones that have not
   expired; an expired zero-amount entry is neither kept nor credited.
   */
  lemma KeepsExactlyPending(account: Account, now: Long)
    ensures forall e :: e in AfterWithdraw(account, now).unfrozenV2 <==> e in account.unfrozenV2 && e.expireTime > now
    ensures forall e :: e in account.unfrozenV2 && e.amount == 0 && e.expireTime <= now ==>
      e !in AfterWithdraw(account, now).unfrozenV2 && e !in WithdrawList(account.unfrozenV2, now)
  {
  }

  /** The credited, the kept and the dropped entries together are the original list. */
  lemma {:induction false} WithdrawPartitionsEntries(account: Account, now: Long)
    ensures multiset(account.unfrozenV2) ==
      multiset(WithdrawList(account.unfrozenV2, now)) + multiset(AfterWithdraw(account, now).unfrozenV2)
      + multiset(DroppedList(account.unfrozenV2, now))
  {
    PartitionEntries(account.unfrozenV2, now);
  }

  /** A second withdrawal at the same clock finds nothing and is a no-op. */
  lemma {:induction false} SecondWithdrawIsNoOp(account: Account, now: Long)
    ensures TotalWithdrawUnfreeze(AfterWithdraw(account, now).unfrozenV2, now) == 0
    ensures AfterWithdraw(AfterWithdraw(account, now), now) == AfterWithdraw(account, now)
    ensures CheckWithdrawal(AfterWithdraw(account, now), now) == Fail(NoUnfreezeBalance)
  {
    RemainIsStable(account.unfrozenV2, now);
  }

  /** Balance 100, entries {500 at 10} and {300 at 50}, clock 20: withdraws 500. */
  lemma ScenarioWithdrawOne()
    ensures var account := Account([], 100, [Entry(500, 10), Entry(300, 50)], 0);
      CheckWithdrawal(account, 20) == Pass
      && TotalWithdrawUnfreeze(account.unfrozenV2, 20) == 500
      && AfterWithdraw(account, 20) == Account([], 600, [Entry(300, 50)], 20)
  {
  }

  /** Balance 100, one entry {500 at 30}, clock 20: nothing to withdraw. */
  lemma ScenarioNothingExpired()
    ensures CheckWithdrawal(Account([], 100, [Entry(500, 30)], 0), 20) == Fail(NoUnfreezeBalance)
  {
  }

  /** Balance MAX_LONG - 10, one expired entry of 500: the credit would overflow. */
  lemma ScenarioOverflow()
    ensures CheckWithdrawal(Account([], MAX_LONG - 10, [Entry(500, 10)], 0), 20) == Fail(BalanceOverflow)
  {
  }

  /**
   The stream sum is unchecked: three expired entries whose exact total is
   2^64 + 1 pass validate with a total of 1, and execute credits 1 while
   removing all three.
   */
  lemma ScenarioUncheckedSum()
    ensures var l := [Entry(MAX_LONG, 0), Entry(MAX_LONG, 0), Entry(3, 0)];
      var account := Account([], 0, l, 0);
      SumAmounts(WithdrawList(l, 20)) == TWO_64 + 1
      && CheckWithdrawal(account, 20) == Pass
      && AfterWithdraw(account, 20) == Account([], 1, [], 20)
  {
    var l := [Entry(MAX_LONG, 0), Entry(MAX_LONG, 0), Entry(3, 0)];
    var t1, t2 := [Entry(MAX_LONG, 0), Entry(3, 0)], [Entry(3, 0)];
    assert l[1..] == t1 && t1[1..] == t2 && t2[1..] == [];
    assert WithdrawList(t2, 20) == t2 && RemainList(t2, 20) == [];
    assert WithdrawList(t1, 20) == t1 && RemainList(t1, 20) == [];
    assert WithdrawList(l, 20) == l && RemainList(l, 20) == [];
    assert SumAmounts(t2) == 3 && SumAmounts(t1) == MAX_LONG + 3;
    WrapUnique(TWO_64 + 1, 1, -1);
    assert TotalWithdrawUnfreeze(l, 20) == 1;
  }

  /** Entries {0 at 5} and {200 at 25}, clock 20: the expired zero entry is dropped. */
  lemma ScenarioZeroEntryDropped()
    ensures var account := Account([], 0, [Entry(0, 5), Entry(200, 25)], 0);
      TotalWithdrawUnfreeze(account.unfrozenV2, 20) == 0
      && AfterWithdraw(account, 20).unfrozenV2 == [Entry(200, 25)]
  {
  }
}
