/** The page state of withdrawal-management.js: the listed pending requests,
    the approval workflow that changes the store, and the statistics. */
module WithdrawalPages {
  import opened Seqs
  import opened Withdrawals
  import opened Store

  /** The figures `updateStats` writes. */
  datatype RequestStats = RequestStats(pendingCount: nat, totalAmount: int)

  class WithdrawalPage {
    const store: DocumentStore
    /** `withdrawalRequests`. */
    var listed: seq<WithdrawalRequest>

    constructor(store: DocumentStore)
      ensures this.store == store && listed == []
    {
      this.store := store;
      listed := [];
    }

    /** `updateStats`. */
    function Stats(): (s: RequestStats)
      reads this
      ensures s.pendingCount == |listed| && s.totalAmount == TotalAmount(listed)
      ensures (forall i :: 0 <= i < |listed| ==> listed[i].amount >= 0) ==>
        s.totalAmount >= 0 && forall i :: 0 <= i < |listed| ==> listed[i].amount <= s.totalAmount
    {
      TotalBounds(listed);
      RequestStats(PendingCount(listed), TotalAmount(listed))
    }

    /** `fetchWithdrawalRequests`: a failing query leaves the list as it was;
        otherwise every document the Pending query returns is pushed in turn. */
    method Fetch(fails: bool)
      modifies this
      ensures fails ==> listed == old(listed)
      ensures !fails ==> listed == PendingOf(store.withdrawalRequests)
    {
      if fails {
        return;
      }
      var results := PendingOf(store.withdrawalRequests);
      var loaded: seq<WithdrawalRequest> := [];
      var i := 0;
      while i < |results|
        invariant 0 <= i <= |results|
        invariant loaded == results[..i]
      {
        loaded := loaded + [results[i]];
        i := i + 1;
      }
      assert results[..|results|] == results;
      listed := loaded;
    }

    /** `updateRequestStatus(requestId, newStatus)`, step by step: it ends as
        `Workflow` says, leaves the store as applying `Workflow`'s writes does,
        and refetches the list only after a successful status write. */
    method UpdateRequestStatus(requestId: string, newStatus: string, now: int, stamp: string,
                               answers: Confirmations, faults: Faults, refreshFails: bool)
      returns (outcome: Outcome)
      modifies this, store
      ensures var run := Workflow(old(store.withdrawalRequests), old(store.users),
                                  requestId, newStatus, now, stamp, answers, faults);
        && outcome == run.outcome
        && store.withdrawalRequests == ApplyToRequests(run.writes, old(store.withdrawalRequests))
        && store.users == ApplyToUsers(run.writes, old(store.users))
      ensures outcome == Updated && !refreshFails ==> listed == PendingOf(store.withdrawalRequests)
      ensures outcome != Updated || refreshFails ==> listed == old(listed)
      ensures store.buttons == old(store.buttons) && store.buttonPlay == old(store.buttonPlay)
      ensures store.addMoneyRequests == old(store.addMoneyRequests)
    {
      if faults.requestRead {
        return ReadFailed;
      }
      var found := FindRequest(store.withdrawalRequests, requestId);
      if found.None? {
        return NotFound;
      }
      var r := found.value;
      var d := UpdateData(newStatus, now, stamp);
      ApplyShapes(store.users, store.withdrawalRequests, r.userId, r.amount, requestId, d);
      if newStatus == Approved {
        if faults.userRead {
          if !answers.proceedAfterFailure {
            return Declined;
          }
        } else if r.userId in store.users {
          var balance := BalanceOf(store.users[r.userId]);
          if balance < r.amount && !answers.proceedWithShortfall {
            return Declined;
          }
          if faults.balanceWrite {
            if !answers.proceedAfterFailure {
              return Declined;
            }
          } else {
            store.users := store.users[r.userId := UserDoc(Some(balance - r.amount))];
          }
        } else if !answers.proceedWithoutUser {
          return Declined;
        }
      }
      if faults.statusWrite {
        return StatusWriteFailed;
      }
      store.withdrawalRequests := UpdateWhere(store.withdrawalRequests, HasId(requestId), MergeInto(d));
      Fetch(refreshFails);
      return Updated;
    }
  }
}
