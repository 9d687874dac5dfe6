/** The page state of wallet-management.js: the listed pending add-money
    requests, the status update, and the statistics including today's
    approved amount. */
module WalletPages {
  import opened Seqs
  import opened Text
  import opened Wallet
  import opened Store

  /** The figures `updateStats` writes; `totalAmount` is None when it is NaN. */
  datatype WalletStats = WalletStats(pendingCount: nat, totalAmount: Option<int>, approvedToday: int)

  class WalletPage {
    const store: DocumentStore
    /** `walletRequests`. */
    var listed: seq<WalletRequest>

    constructor(store: DocumentStore)
      ensures this.store == store && listed == []
    {
      this.store := store;
      listed := [];
    }

    /** `fetchWalletRequests`: a failing query leaves the list as it was and
        shows no statistics. Otherwise every document the Pending query returns
        is pushed in turn and the cards are drawn. Drawing a listed request
        without an amount throws (`request.amount.toLocaleString()`); the error
        is caught and `updateStats` does not run (None). Otherwise the result
        is what `updateStats` shows. */
    method Fetch(fails: bool, today: string, todayFails: bool) returns (shown: Option<WalletStats>)
      modifies this
      ensures fails ==> listed == old(listed) && shown.None?
      ensures !fails ==> listed == PendingOf(store.addMoneyRequests)
      ensures !fails ==> (shown.Some? <==> forall i :: 0 <= i < |listed| ==> listed[i].amount.Some?)
      ensures shown.Some? ==> shown.value == WalletStats(
        |listed|,
        Some(Sum(AmountOrZero, listed)),
        if todayFails then 0 else TodayApproved(store.addMoneyRequests, today))
    {
      if fails {
        return None;
      }
      var results := PendingOf(store.addMoneyRequests);
      var loaded: seq<WalletRequest> := [];
      var i := 0;
      while i < |results|
        invariant 0 <= i <= |results|
        invariant loaded == results[..i]
      {
        loaded := loaded + [results[i]];
        i := i + 1;
      }
      assert results[..|results|] == results;
      listed := loaded;
      var j := 0;
      while j < |listed|
        invariant 0 <= j <= |listed|
        invariant forall k :: 0 <= k < j ==> listed[k].amount.Some?
      {
        if listed[j].amount.None? {
          return None;
        }
        j := j + 1;
      }
      var stats := UpdateStats(today, todayFails);
      return Some(stats);
    }

    /** `fetchTodayApprovedAmount`, with `today` the formatted date: the amounts
        (missing counts as 0) of the Approved requests whose `approvedOn` is a
        non-empty string including `today`; 0 when the query fails. */
    method FetchTodayApprovedAmount(today: string, fails: bool) returns (amount: int)
      ensures fails ==> amount == 0
      ensures !fails ==> amount == TodayApproved(store.addMoneyRequests, today)
    {
      if fails {
        return 0;
      }
      var docs := ApprovedOf(store.addMoneyRequests);
      amount := 0;
      var i := 0;
      while i < |docs|
        invariant 0 <= i <= |docs|
        invariant amount == Sum(TodayTerm(today), docs[..i])
      {
        var data := docs[i];
        if data.approvedOn.Str? && data.approvedOn.text != [] && Contains(data.approvedOn.text, today) {
          amount := amount + data.amount.GetOr(0);
        }
        assert docs[..i + 1][..i] == docs[..i];
        i := i + 1;
      }
      assert docs[..|docs|] == docs;
    }

    /** `updateStats`: the listed count, their total (NaN when an amount is
        missing), and today's approved amount. */
    method UpdateStats(today: string, todayFails: bool) returns (stats: WalletStats)
      ensures stats.pendingCount == |listed|
      ensures stats.totalAmount.Some? <==> forall i :: 0 <= i < |listed| ==> listed[i].amount.Some?
      ensures stats.totalAmount.Some? ==> stats.totalAmount.value == Sum(AmountOrZero, listed)
      ensures todayFails ==> stats.approvedToday == 0
      ensures !todayFails ==> stats.approvedToday == TodayApproved(store.addMoneyRequests, today)
    {
      var approved := FetchTodayApprovedAmount(today, todayFails);
      PendingTotalDefined(listed);
      stats := WalletStats(PendingCount(listed), PendingTotal(listed), approved);
    }

    /** `updateRequestStatus(requestId, newStatus)`, with `stamp` the formatted
        approval time: the status (and `approvedOn` for "Approved") is merged
        into the document; a failing store or a missing document changes
        nothing. After a successful write the list is fetched again, and
        `shown` is what that fetch shows. */
    method UpdateRequestStatus(requestId: string, newStatus: string, stamp: string,
                               writeFails: bool, refreshFails: bool, today: string, todayFails: bool)
      returns (written: bool, shown: Option<WalletStats>)
      modifies this, store
      ensures var after := StatusWrite(old(store.addMoneyRequests), requestId, newStatus, stamp);
        && (written <==> !writeFails && after.Some?)
        && (written ==> store.addMoneyRequests == after.value)
        && (!written ==> store.addMoneyRequests == old(store.addMoneyRequests))
      ensures written && !refreshFails ==> listed == PendingOf(store.addMoneyRequests)
      ensures !written || refreshFails ==> listed == old(listed) && shown.None?
      ensures written && !refreshFails ==> (shown.Some? <==> forall i :: 0 <= i < |listed| ==> listed[i].amount.Some?)
      ensures shown.Some? ==> shown.value == WalletStats(
        |listed|,
        Some(Sum(AmountOrZero, listed)),
        if todayFails then 0 else TodayApproved(store.addMoneyRequests, today))
      ensures store.buttons == old(store.buttons) && store.buttonPlay == old(store.buttonPlay)
      ensures store.withdrawalRequests == old(store.withdrawalRequests) && store.users == old(store.users)
    {
      var after := StatusWrite(store.addMoneyRequests, requestId, newStatus, stamp);
      if writeFails || after.None? {
        return false, None;
      }
      store.addMoneyRequests := after.value;
      shown := Fetch(refreshFails, today, todayFails);
      written := true;
    }
  }
}
