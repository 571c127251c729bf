# Withdraw expired unfreeze: a Dafny model

This project models the `WithdrawExpireUnfreeze` native-contract processor of
java-tron. An account holds a list of pending unfreeze entries (`UnFreezeV2`:
an amount and an expire time). The processor first validates a withdrawal
request without changing anything. It then executes it against the chain clock
(the latest block header timestamp): every entry that is positive and already
expired is credited to the balance, `latestWithdrawTime` is set to the clock,
and only the entries that have not expired stay on the account, in their
original order.

Modules:

- `JavaLong` (`java_long.dfy`): Java's signed 64-bit `long`. It gives the range
  (`Long`, `InLong`), the wrap-around of unchecked arithmetic (`WrapLong`) and
  the range test that `LongMath.checkedAdd` performs.
- `UnfreezeList` (`unfreeze_list.dfy`): the entries and the three stream
  expressions of the processor:
  - `WithdrawList` is `getTotalWithdrawList`;
  - `TotalWithdrawUnfreeze` is `getTotalWithdrawUnfreeze`, with `LongSum` as
    `LongStream.sum()`, a left fold of wrapping additions;
  - `RemainList` is `getRemainWithdrawList`.
  The module also holds the lemmas about these filters and sums.
- `WithdrawParam` (`param.dfy`): the mutable request carrier
  `WithdrawExpireUnfreezeParam`. Its getters are the functions
  `GetOwnerAddress` and `GetNowInMs`; its setters are methods that change one
  field each.
- `Repository` (`repository.dfy`): the collaborators the processor uses. The
  account record holds only the fields this transition touches. `Repo` is a
  class with the account map, `unfreezeDelayDays` and
  `latestBlockHeaderTimestamp`. `Repo.Valid()` says every account is stored
  under its own address. That address stands in for `createDbKey`.
- `WithdrawExpireUnfreezeProcessor` (`processor.dfy`):
  - `Validate` is a function, so it cannot change state. Its `reads` frame is
    `param`ownerAddress`, which proves it never looks at `nowInMs`.
  - `AfterWithdraw` is the account record that execute produces.
  - `Execute` is a method that modifies the repository. It rebuilds the entry
    list with a loop, as the source's `forEach(addUnfrozenV2)` does.
  - The lemmas state conservation, the partition of the list and the
    idempotence of a second run.

The total at line 63 is an unchecked `long` sum, and only `balance + total` is
checked (line 54). If the exact sum of the expired amounts exceeds 2^63 - 1,
the total that is checked and credited is the wrapped value, while execute
still removes every expired entry. `ScenarioUncheckedSum` shows this. The
conservation lemmas therefore assume that the exact sum fits in a `long`.

Facts about the code that the model keeps:

- Amounts and the balance are Java `long`, and the overflow test is
  `LongMath.checkedAdd`, so the bound is 2^63 - 1 (`ScenarioOverflow` uses
  `MAX_LONG - 10`).
- An entry is withdrawn only when its expire time is at or before the clock.
  With entries `{0 at 5}` and `{200 at 25}` and the clock at 20, `{200 at 25}`
  has not expired, so nothing is withdrawn: validate rejects that account with
  "no unFreeze balance", and execute keeps `{200 at 25}`
  (`ScenarioZeroEntryDropped`).
- The request class `WithdrawExpireUnfreezeParam` has setters as well as
  getters, and so does the model.
- `validate` reads the account (line 32) before the feature gate. It is
  read-only, so the order of the checks is unaffected.

## Model

| member | source | states |
|---|---|---|
| `JavaLong.WrapLong` | actuator/src/main/java/org/tron/core/vm/nativecontract/WithdrawExpireUnfreezeProcessor.java:79-82 | the unchecked `long` result of an exact value: it lies in the `long` range, is congruent to the value modulo 2^64, and is the value itself when that fits |
| `JavaLong.WrapAddWrap` | actuator/src/main/java/org/tron/core/vm/nativecontract/WithdrawExpireUnfreezeProcessor.java:61-64 | wrapping an intermediate sum and then adding gives the same `long` as wrapping the exact sum once |
| `UnfreezeList.WithdrawList` | actuator/src/main/java/org/tron/core/vm/nativecontract/WithdrawExpireUnfreezeProcessor.java:66-69 | an entry is in the withdraw list exactly when it is in the account's list with a positive amount and an expire time at or before now; the list is no longer than the original |
| `UnfreezeList.RemainList` | actuator/src/main/java/org/tron/core/vm/nativecontract/WithdrawExpireUnfreezeProcessor.java:90-94 | an entry survives exactly when it is in the original list and expires after now |
| `UnfreezeList.DroppedList` | actuator/src/main/java/org/tron/core/vm/nativecontract/WithdrawExpireUnfreezeProcessor.java:90-94 | the entries neither list keeps are exactly the expired entries whose amount is not positive |
| `UnfreezeList.LongSum` | actuator/src/main/java/org/tron/core/vm/nativecontract/WithdrawExpireUnfreezeProcessor.java:61-64 | `LongStream.sum()` as a left fold of wrapping `long` additions: the result equals the exact sum of the amounts wrapped once into the `long` range |
| `UnfreezeList.TotalWithdrawUnfreeze` | actuator/src/main/java/org/tron/core/vm/nativecontract/WithdrawExpireUnfreezeProcessor.java:61-64 | the processor's total is the exact sum of the withdrawable amounts wrapped once, and is exactly that sum whenever it fits in a `long` |
| `UnfreezeList.WithdrawListEmpty` | actuator/src/main/java/org/tron/core/vm/nativecontract/WithdrawExpireUnfreezeProcessor.java:66-69 | the withdraw list is empty if and only if no entry is both positive and expired |
| `UnfreezeList.WithdrawSumPositive` | actuator/src/main/java/org/tron/core/vm/nativecontract/WithdrawExpireUnfreezeProcessor.java:47-52 | the exact withdrawable sum is never negative, and it is positive if and only if some entry is positive and expired |
| `UnfreezeList.WithdrawListConcat` | actuator/src/main/java/org/tron/core/vm/nativecontract/WithdrawExpireUnfreezeProcessor.java:66-69 | the withdraw filter distributes over concatenation, so it keeps the original order |
| `UnfreezeList.RemainListConcat` | actuator/src/main/java/org/tron/core/vm/nativecontract/WithdrawExpireUnfreezeProcessor.java:90-94 | the remain filter distributes over concatenation, so the survivors keep their original order |
| `UnfreezeList.PartitionEntries` | actuator/src/main/java/org/tron/core/vm/nativecontract/WithdrawExpireUnfreezeProcessor.java:77-85 | as a multiset, the original list is the withdrawn entries plus the surviving entries plus the dropped entries |
| `UnfreezeList.PartitionValue` | actuator/src/main/java/org/tron/core/vm/nativecontract/WithdrawExpireUnfreezeProcessor.java:77-85 | the exact value of the original list is the withdrawn value plus the surviving value plus the dropped value |
| `UnfreezeList.DroppedCarriesNothing` | actuator/src/main/java/org/tron/core/vm/nativecontract/WithdrawExpireUnfreezeProcessor.java:90-94 | with non-negative amounts, the entries dropped without being credited hold no value |
| `UnfreezeList.RemainIsStable` | actuator/src/main/java/org/tron/core/vm/nativecontract/WithdrawExpireUnfreezeProcessor.java:90-94 | filtering the survivors again at the same clock changes nothing, and none of them can be withdrawn |
| `Repository.Repo.constructor` | actuator/src/main/java/org/tron/core/vm/nativecontract/WithdrawExpireUnfreezeProcessor.java:71-88 | a repository built from accounts stored under their own addresses satisfies `Valid()`, the invariant execute requires, and holds the given accounts, delay and clock |
| `WithdrawParam.WithdrawExpireUnfreezeParam.constructor` | actuator/src/main/java/org/tron/core/vm/nativecontract/param/WithdrawExpireUnfreezeParam.java:3-9 | a fresh request has no owner address (the empty byte array) and `nowInMs` 0 |
| `WithdrawParam.WithdrawExpireUnfreezeParam.SetOwnerAddress` | actuator/src/main/java/org/tron/core/vm/nativecontract/param/WithdrawExpireUnfreezeParam.java:11-17 | after setting, `GetOwnerAddress` returns the value set and `GetNowInMs` is unchanged; the frame allows only `ownerAddress` to change |
| `WithdrawParam.WithdrawExpireUnfreezeParam.SetNowInMs` | actuator/src/main/java/org/tron/core/vm/nativecontract/param/WithdrawExpireUnfreezeParam.java:19-25 | after setting, `GetNowInMs` returns the value set and `GetOwnerAddress` is unchanged; the frame allows only `nowInMs` to change |
| `WithdrawExpireUnfreezeProcessor.CheckWithdrawal` | actuator/src/main/java/org/tron/core/vm/nativecontract/WithdrawExpireUnfreezeProcessor.java:47-58 | the account-level checks pass exactly when the total is positive and balance plus total fits in a `long`; reject with "no unFreeze balance" exactly when the total is at most 0; otherwise reject with an overflow |
| `WithdrawExpireUnfreezeProcessor.Validate` | actuator/src/main/java/org/tron/core/vm/nativecontract/WithdrawExpireUnfreezeProcessor.java:26-59 | each rejection is characterised in both directions, in the source's order: a missing repository exactly when it is null; a disabled feature exactly when the delay is 0; an invalid address exactly when the feature is on and the address fails the check; a missing account (with its address) exactly when the earlier checks pass and the address is not stored; once those four checks pass, the result is the account-level check's; passes exactly when every check passes; reads only the owner address of the request |
| `WithdrawExpireUnfreezeProcessor.AfterWithdraw` | actuator/src/main/java/org/tron/core/vm/nativecontract/WithdrawExpireUnfreezeProcessor.java:76-85 | the record execute writes keeps the address, takes the clock as withdraw time and holds exactly the old entries that expire after the clock; when the account-level checks pass, its balance is the old balance plus the total, and larger |
| `WithdrawExpireUnfreezeProcessor.Execute` | actuator/src/main/java/org/tron/core/vm/nativecontract/WithdrawExpireUnfreezeProcessor.java:71-88 | returns the processor's total at the store clock; the owner's record becomes the credited balance, the clock as withdraw time and the surviving entries, written under its own address; only that key changes; the clock and delay are unchanged; after an admissible request it returns a positive amount that the balance grows by exactly |
| `WithdrawExpireUnfreezeProcessor.ExecuteTwice` | actuator/src/main/java/org/tron/core/vm/nativecontract/WithdrawExpireUnfreezeProcessor.java:71-94 | running execute twice at the same clock returns the processor's total the first time and 0 the second; afterwards the repository is exactly as after one run (the owner's record is the withdrawn record, the clock and delay are unchanged, accounts stay under their own addresses) |
| `WithdrawExpireUnfreezeProcessor.NothingEligibleIsRejected` | actuator/src/main/java/org/tron/core/vm/nativecontract/WithdrawExpireUnfreezeProcessor.java:47-52 | if no entry is both positive and expired, the account-level check rejects with "no unFreeze balance", and so does validate once its first four checks pass |
| `WithdrawExpireUnfreezeProcessor.RejectionsWithoutWrap` | actuator/src/main/java/org/tron/core/vm/nativecontract/WithdrawExpireUnfreezeProcessor.java:47-58 | when the exact sum fits in a `long`, the account-level check (validate's result once its first four checks pass) reports "no unFreeze balance" if and only if no entry is eligible, and an overflow is reported if and only if some entry is eligible and balance plus the exact sum exceeds 2^63 - 1 |
| `WithdrawExpireUnfreezeProcessor.ValidatedCreditIsExact` | actuator/src/main/java/org/tron/core/vm/nativecontract/WithdrawExpireUnfreezeProcessor.java:76-82 | after a validated withdrawal the new balance is the old balance plus the exact withdrawable sum and is larger than the old balance; the withdraw time is the clock and the address is kept |
| `WithdrawExpireUnfreezeProcessor.WithdrawConservesValue` | actuator/src/main/java/org/tron/core/vm/nativecontract/WithdrawExpireUnfreezeProcessor.java:76-87 | with non-negative amounts, balance plus the pending amounts is the same before and after a validated withdrawal |
| `WithdrawExpireUnfreezeProcessor.KeepsExactlyPending` | actuator/src/main/java/org/tron/core/vm/nativecontract/WithdrawExpireUnfreezeProcessor.java:83-94 | the new entries are exactly the old ones that expire after now; an expired zero-amount entry is neither kept nor withdrawn |
| `WithdrawExpireUnfreezeProcessor.WithdrawPartitionsEntries` | actuator/src/main/java/org/tron/core/vm/nativecontract/WithdrawExpireUnfreezeProcessor.java:77-94 | as a multiset, the old entries are the withdrawn entries plus the new entries plus the dropped entries |
| `WithdrawExpireUnfreezeProcessor.SecondWithdrawIsNoOp` | actuator/src/main/java/org/tron/core/vm/nativecontract/WithdrawExpireUnfreezeProcessor.java:76-94 | after a withdrawal at some clock, the total at the same clock is 0, a second withdrawal yields the same record, and the account-level check rejects it with "no unFreeze balance" |
| `WithdrawExpireUnfreezeProcessor.ScenarioWithdrawOne` | actuator/src/main/java/org/tron/core/vm/nativecontract/WithdrawExpireUnfreezeProcessor.java:71-88 | balance 100 with entries {500 at 10} and {300 at 50} at clock 20 passes, withdraws 500 and leaves balance 600 with {300 at 50} |
| `WithdrawExpireUnfreezeProcessor.ScenarioNothingExpired` | actuator/src/main/java/org/tron/core/vm/nativecontract/WithdrawExpireUnfreezeProcessor.java:50-52 | a single entry expiring at 30 with the clock at 20 is rejected with "no unFreeze balance" |
| `WithdrawExpireUnfreezeProcessor.ScenarioOverflow` | actuator/src/main/java/org/tron/core/vm/nativecontract/WithdrawExpireUnfreezeProcessor.java:53-58 | balance 2^63 - 11 with an expired 500 is rejected as an overflow |
| `WithdrawExpireUnfreezeProcessor.ScenarioUncheckedSum` | actuator/src/main/java/org/tron/core/vm/nativecontract/WithdrawExpireUnfreezeProcessor.java:61-64 | three expired entries whose exact sum is 2^64 + 1 give a Java total of 1: validate passes and execute credits 1 while removing all three |
| `WithdrawExpireUnfreezeProcessor.ScenarioZeroEntryDropped` | actuator/src/main/java/org/tron/core/vm/nativecontract/WithdrawExpireUnfreezeProcessor.java:83-94 | entries {0 at 5} and {200 at 25} at clock 20 give a total of 0, and only {200 at 25} survives |

## Left out

- Persistence, database keys and the protobuf/`AccountCapsule` mechanics (`toBuilder`, `setInstance`, `clearUnfrozenV2`, `createDbKey`) are reduced to an account map keyed by address. The net effect is the replaced record.
- `DecodeUtil.addressValid` is foreign code. It is the parameter `addressValid` of `Validate`.
- Exception message texts, `StringUtil.createReadableString` and the `ActuatorConstant` strings are left out. Each rejection is a constructor of `ValidationError`, and the missing-account case carries the raw address.
- Logging is left out. `LongMath.checkedAdd` is modelled only as its range check.
- Account fields other than address, balance, the unfreeze list and `latestWithdrawTime` are left out. So is the `type` field of an unfreeze entry. The processor copies them unchanged.
- Java `null` is modelled only for the repository. A null request or a null owner address is not modelled; the implicit default `null` address is the empty byte array.
- Execute: it requires only what the code dereferences: an existing account and a repository that stores accounts under their own addresses. It does not require a passed validate; its last `ensures` and the lemmas state what follows when validate has passed.
- Execute: a failing repository write (`ContractExeException` propagation) is not modelled.
- WithdrawConservesValue: assumes the exact withdrawable sum fits in a `long`. The stream sum is unchecked; `LongSum` and `ScenarioUncheckedSum` describe what happens otherwise.
- ValidatedCreditIsExact: assumes the exact withdrawable sum fits in a `long`, for the same reason.
- RejectionsWithoutWrap: assumes the exact withdrawable sum fits in a `long`, for the same reason.
- WithdrawConservesValue: also assumes non-negative amounts. A negative `long` amount in an expired entry would be dropped without being credited.
- ExecuteTwice: is a client of `Execute`, with no counterpart in the source. It states the second-run property at the level of the repository.
