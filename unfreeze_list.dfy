/**
 The pending-release schedule of an account (its `UnFreezeV2` entries) and the
 stream expressions the withdraw processor applies to it: the entries that can
 be withdrawn now, their total as Java's `LongStream.sum` computes it, and the
 entries that survive a withdrawal.
 */
module UnfreezeList {
  import opened JavaLong

  /** One pending release: `unfreeze_amount` becomes spendable at `unfreeze_expire_time`. */
  datatype Entry = Entry(amount: Long, expireTime: Long)

  /** The filter of getTotalWithdrawList: positive and already expired. */
  predicate Withdrawable(e: Entry, now: int) {
    e.amount > 0 && e.expireTime <= now
  }

  /** The filter of getRemainWithdrawList: not yet expired. */
  predicate Pending(e: Entry, now: int) {
    e.expireTime > now
  }

  /** Expired entries that are neither withdrawn nor kept (amount zero or below). */
  predicate Inert(e: Entry, now: int) {
    e.amount <= 0 && e.expireTime <= now
  }

  /** getTotalWithdrawList: the withdrawable entries, in their original order. */
  function WithdrawList(l: seq<Entry>, now: int): (r: seq<Entry>)
    ensures |r| <= |l|
    ensures forall e :: e in r <==> e in l && Withdrawable(e, now)
  {
    if l == [] then []
    else
      (if Withdrawable(l[0], now) then [l[0]] else []) + WithdrawList(l[1..], now)
  }

  /** getRemainWithdrawList: the entries that have not expired, in their original order. */
  function RemainList(l: seq<Entry>, now: int): (r: seq<Entry>)
    ensures |r| <= |l|
    ensures forall e :: e in r <==> e in l && Pending(e, now)
  {
    if l == [] then []
    else
      (if Pending(l[0], now) then [l[0]] else []) + RemainList(l[1..], now)
  }

  /** The entries a withdrawal discards without crediting them. */
  ghost function DroppedList(l: seq<Entry>, now: int): (r: seq<Entry>)
    ensures forall e :: e in r <==> e in l && Inert(e, now)
  {
    if l == [] then []
    else (if Inert(l[0], now) then [l[0]] else []) + DroppedList(l[1..], now)
  }

  /** The exact (unbounded) sum of the amounts. */
  function SumAmounts(l: seq<Entry>): int
  {
    if l == [] then 0 else l[0].amount + SumAmounts(l[1..])
  }

  /**
   `LongStream.sum()` over the amounts: a left fold of unchecked `long`
   additions starting from 0, each of which wraps. The result is the exact
   sum wrapped once into the `long` range.
   */
  function LongSum(l: seq<Entry>): (r: Long)
    ensures r == WrapLong(SumAmounts(l))
  {
    if l == [] then 0
    else
      var init, last := l[..|l| - 1], l[|l| - 1];
      assert init + [last] == l;
      SumAmountsConcat(init, [last]);
      WrapAddWrap(SumAmounts(init), last.amount);
      WrapLong(LongSum(init) + last.amount)
  }

  /**
   getTotalWithdrawUnfreeze: the Java total of the withdrawable amounts, which
   is their exact sum wrapped once, and that exact sum whenever it fits.
   */
  function TotalWithdrawUnfreeze(l: seq<Entry>, now: int): (r: Long)
    ensures r == WrapLong(SumAmounts(WithdrawList(l, now)))
    ensures InLong(SumAmounts(WithdrawList(l, now))) ==> r == SumAmounts(WithdrawList(l, now))
  {
    LongSum(WithdrawList(l, now))
  }

  predicate AllNonNegative(l: seq<Entry>) {
    forall i :: 0 <= i < |l| ==> l[i].amount >= 0
  }

  lemma {:induction false} SumAmountsConcat(a: seq<Entry>, b: seq<Entry>)
    ensures SumAmounts(a + b) == SumAmounts(a) + SumAmounts(b)
  {
    if a == [] {
      assert a + b == b;
    } else {
      assert (a + b)[1..] == a[1..] + b;
      SumAmountsConcat(a[1..], b);
    }
  }

  /** Nothing is withdrawn exactly when no entry is both positive and expired. */
  lemma {:induction false} WithdrawListEmpty(l: seq<Entry>, now: int)
    ensures WithdrawList(l, now) == [] <==> forall i :: 0 <= i < |l| ==> !Withdrawable(l[i], now)
  {
    if l != [] {
      WithdrawListEmpty(l[1..], now);
      if WithdrawList(l, now) == [] {
        forall i | 0 <= i < |l| ensures !Withdrawable(l[i], now) {
          if i > 0 {
            assert l[i] == l[1..][i - 1];
          }
        }
      } else if !Withdrawable(l[0], now) {
        var i :| 0 <= i < |l[1..]| && Withdrawable(l[1..][i], now);
        assert Withdrawable(l[i + 1], now);
      }
    }
  }

  /** The exact withdrawable sum is positive exactly when some entry is withdrawable. */
  lemma {:induction false} WithdrawSumPositive(l: seq<Entry>, now: int)
    ensures SumAmounts(WithdrawList(l, now)) >= 0
    ensures SumAmounts(WithdrawList(l, now)) > 0 <==> exists i :: 0 <= i < |l| && Withdrawable(l[i], now)
  {
    if l != [] {
      WithdrawSumPositive(l[1..], now);
      var w := if Withdrawable(l[0], now) then [l[0]] else [];
      SumAmountsConcat(w, WithdrawList(l[1..], now));
      if exists i :: 0 <= i < |l[1..]| && Withdrawable(l[1..][i], now) {
        var i :| 0 <= i < |l[1..]| && Withdrawable(l[1..][i], now);
        assert Withdrawable(l[1 + i], now);
      }
      if exists i :: 0 <= i < |l| && Withdrawable(l[i], now) {
        var i :| 0 <= i < |l| && Withdrawable(l[i], now);
        if i > 0 {
          assert Withdrawable(l[1..][i - 1], now);
        }
      }
    }
  }

  /** Withdrawing keeps order: the withdraw filter distributes over concatenation. */
  lemma {:induction false} WithdrawListConcat(a: seq<Entry>, b: seq<Entry>, now: int)
    ensures WithdrawList(a + b, now) == WithdrawList(a, now) + WithdrawList(b, now)
  {
    if a == [] {
      assert a + b == b;
    } else {
      assert (a + b)[1..] == a[1..] + b;
      WithdrawListConcat(a[1..], b, now);
      var w := if Withdrawable(a[0], now) then [a[0]] else [];
      assert w + (WithdrawList(a[1..], now) + WithdrawList(b, now)) == (w + WithdrawList(a[1..], now)) + WithdrawList(b, now);
    }
  }

  /** The survivors keep their order: the remain filter distributes over concatenation. */
  lemma {:induction false} RemainListConcat(a: seq<Entry>, b: seq<Entry>, now: int)
    ensures RemainList(a + b, now) == RemainList(a, now) + RemainList(b, now)
  {
    if a == [] {
      assert a + b == b;
    } else {
      assert (a + b)[1..] == a[1..] + b;
      RemainListConcat(a[1..], b, now);
      var p := if Pending(a[0], now) then [a[0]] else [];
      assert p + (RemainList(a[1..], now) + RemainList(b, now)) == (p + RemainList(a[1..], now)) + RemainList(b, now);
    }
  }

  /** Every entry is withdrawn, kept or dropped, and exactly one of them. */
  lemma {:induction false} PartitionEntries(l: seq<Entry>, now: int)
    ensures multiset(l) == multiset(WithdrawList(l, now)) + multiset(RemainList(l, now)) + multiset(DroppedList(l, now))
  {
    if l != [] {
      PartitionEntries(l[1..], now);
      FiltersCons(l, now);
      var x := l[0];
      var w, p, d := WithdrawList(l[1..], now), RemainList(l[1..], now), DroppedList(l[1..], now);
      if Withdrawable(x, now) {
        AddToPart(x, l[1..], w, p, d);
      } else if Pending(x, now) {
        AddToPart(x, l[1..], w, p, d);
      } else {
        AddToPart(x, l[1..], w, p, d);
      }
    }
  }

  /** One unfolding of the three filters. */
  lemma FiltersCons(l: seq<Entry>, now: int)
    requires l != []
    ensures l == [l[0]] + l[1..]
    ensures WithdrawList(l, now) == if Withdrawable(l[0], now) then [l[0]] + WithdrawList(l[1..], now) else WithdrawList(l[1..], now)
    ensures RemainList(l, now) == if Pending(l[0], now) then [l[0]] + RemainList(l[1..], now) else RemainList(l[1..], now)
    ensures DroppedList(l, now) == if Inert(l[0], now) then [l[0]] + DroppedList(l[1..], now) else DroppedList(l[1..], now)
  {
  }

  /** Adding an element in front of the list and of one of its three parts keeps the split. */
  lemma AddToPart(x: Entry, t: seq<Entry>, a: seq<Entry>, b: seq<Entry>, c: seq<Entry>)
    requires multiset(t) == multiset(a) + multiset(b) + multiset(c)
    ensures multiset([x] + t) == multiset([x] + a) + multiset(b) + multiset(c)
    ensures multiset([x] + t) == multiset(a) + multiset([x] + b) + multiset(c)
    ensures multiset([x] + t) == multiset(a) + multiset(b) + multiset([x] + c)
  {
  }

  /** The value held by the entries splits the same way. */
  lemma {:induction false} PartitionValue(l: seq<Entry>, now: int)
    ensures SumAmounts(l) == SumAmounts(WithdrawList(l, now)) + SumAmounts(RemainList(l, now)) + SumAmounts(DroppedList(l, now))
  {
    if l != [] {
      PartitionValue(l[1..], now);
      var w := if Withdrawable(l[0], now) then [l[0]] else [];
      var p := if Pending(l[0], now) then [l[0]] else [];
      var d := if Inert(l[0], now) then [l[0]] else [];
      SumAmountsConcat(w, WithdrawList(l[1..], now));
      SumAmountsConcat(p, RemainList(l[1..], now));
      SumAmountsConcat(d, DroppedList(l[1..], now));
    }
  }

  /** With non-negative amounts the dropped entries carry no value. */
  lemma {:induction false} DroppedCarriesNothing(l: seq<Entry>, now: int)
    requires AllNonNegative(l)
    ensures SumAmounts(DroppedList(l, now)) == 0
  {
    if l != [] {
      assert AllNonNegative(l[1..]) by {
        forall i | 0 <= i < |l[1..]| ensures l[1..][i].amount >= 0 {
          assert l[1..][i] == l[i + 1];
        }
      }
      DroppedCarriesNothing(l[1..], now);
      var d := if Inert(l[0], now) then [l[0]] else [];
      SumAmountsConcat(d, DroppedList(l[1..], now));
    }
  }

  /** Filtering the survivors again changes nothing and finds nothing to withdraw. */
  lemma {:induction false} RemainIsStable(l: seq<Entry>, now: int)
    ensures RemainList(RemainList(l, now), now) == RemainList(l, now)
    ensures WithdrawList(RemainList(l, now), now) == []
  {
    if l != [] {
      RemainIsStable(l[1..], now);
      var p := if Pending(l[0], now) then [l[0]] else [];
      RemainListConcat(p, RemainList(l[1..], now), now);
      WithdrawListConcat(p, RemainList(l[1..], now), now);
    }
  }
}
