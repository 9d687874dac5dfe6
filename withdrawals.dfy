/** The withdrawal approval workflow of withdrawal-management.js
    (`updateRequestStatus`) as a specification: given the store's withdrawal
    requests and users, the operator's answers to the `confirm` prompts and
    which remote calls fail, `Workflow` says how the call ends and which writes
    took effect, in order. `Apply*` give the store after those writes. */
module Withdrawals {
  import opened Seqs

  const Pending := "Pending"
  const Approved := "Approved"
  /** The status the withdrawal page's reject button passes. */
  const Rejected := "Rejected"

  /** A document of "withdrawal_requests": the fields the page reads or writes.
      `timestamp` is None when the document has no such field. */
  datatype WithdrawalRequest = WithdrawalRequest(
    id: string,
    userId: string,
    amount: int,
    status: string,
    timestamp: Option<int>,
    updatedAt: Option<int>,
    approvedOn: Option<string>)

  /** A document of "users": its optional `balance` field. */
  datatype UserDoc = UserDoc(balance: Option<int>)

  /** `userDoc.data().balance || 0`. */
  function BalanceOf(u: UserDoc): int
  {
    u.balance.GetOr(0)
  }

  /** The operator's answers to the three `confirm` prompts the workflow may show. */
  datatype Confirmations = Confirmations(
    proceedWithShortfall: bool,
    proceedWithoutUser: bool,
    proceedAfterFailure: bool)

  /** Which remote calls fail: reading the request, reading the user, the
      balance increment, the status update. */
  datatype Faults = Faults(
    requestRead: bool,
    userRead: bool,
    balanceWrite: bool,
    statusWrite: bool)

  /** `updateData`: the fields of the status write. */
  datatype StatusUpdate = StatusUpdate(status: string, updatedAt: int, approvedOn: Option<string>)

  /** A write that took effect: `increment(-amount)` on a user's balance, or the
      merge of `updateData` into a request. */
  datatype Write =
    | Debit(userId: string, amount: int)
    | WriteStatus(requestId: string, data: StatusUpdate)

  /** How `updateRequestStatus` ends: an error caught by the outer handler
      (reading the request failed, the request does not exist, the status write
      failed), an early `return` on a declined prompt, or success. */
  datatype Outcome = ReadFailed | NotFound | Declined | StatusWriteFailed | Updated

  datatype Run = Run(outcome: Outcome, writes: seq<Write>)

  /** How the balance block (the inner `try`) resolves. */
  datatype BalanceStep = Deducted | NotDeducted | Cancelled

  function HasId(id: string): WithdrawalRequest -> bool
  {
    (r: WithdrawalRequest) => r.id == id
  }

  /** `getDoc(doc(db, "withdrawal_requests", id))`. */
  function FindRequest(requests: seq<WithdrawalRequest>, id: string): (r: Option<WithdrawalRequest>)
    ensures r.Some? ==> r.value in requests && r.value.id == id
    ensures r.None? ==> forall i :: 0 <= i < |requests| ==> requests[i].id != id
  {
    match Find(requests, HasId(id))
    case None => None
    case Some(k) => Some(requests[k])
  }

  /** `updateData`, with `approvedOn` added only for "Approved". */
  function UpdateData(newStatus: string, now: int, stamp: string): (d: StatusUpdate)
    ensures d.status == newStatus && d.updatedAt == now
    ensures d.approvedOn.Some? <==> newStatus == Approved
    ensures d.approvedOn.Some? ==> d.approvedOn.value == stamp
  {
    StatusUpdate(newStatus, now, if newStatus == Approved then Some(stamp) else None)
  }

  /** The balance block of an approval: a failed user read asks whether to go on
      anyway; a missing user asks whether to go on without a deduction; a
      sufficient balance, or a shortfall the operator accepts, is deducted, and a
      failing deduction asks whether to go on anyway. */
  function BalanceStepOf(users: map<string, UserDoc>, r: WithdrawalRequest,
                         answers: Confirmations, faults: Faults): (step: BalanceStep)
    ensures step == Deducted ==>
      && !faults.userRead && r.userId in users && !faults.balanceWrite
      && (BalanceOf(users[r.userId]) >= r.amount || answers.proceedWithShortfall)
    ensures step == NotDeducted ==> answers.proceedAfterFailure || answers.proceedWithoutUser
    ensures (&& !faults.userRead && r.userId in users && !faults.balanceWrite
             && BalanceOf(users[r.userId]) >= r.amount) ==> step == Deducted
  {
    if faults.userRead then
      if answers.proceedAfterFailure then NotDeducted else Cancelled
    else if r.userId !in users then
      if answers.proceedWithoutUser then NotDeducted else Cancelled
    else if BalanceOf(users[r.userId]) >= r.amount || answers.proceedWithShortfall then
      if !faults.balanceWrite then Deducted
      else if answers.proceedAfterFailure then NotDeducted
      else Cancelled
    else Cancelled
  }

  /** `updateRequestStatus(requestId, newStatus)`, with `now` the epoch time and
      `stamp` the formatted approval time. */
  function Workflow(requests: seq<WithdrawalRequest>, users: map<string, UserDoc>,
                    requestId: string, newStatus: string, now: int, stamp: string,
                    answers: Confirmations, faults: Faults): (run: Run)
    ensures run.outcome in {ReadFailed, NotFound, Declined} ==> run.writes == []
    ensures newStatus != Approved ==> forall w :: w in run.writes ==> w.WriteStatus?
    ensures run.outcome == Updated <==>
      !faults.requestRead && !faults.statusWrite && FindRequest(requests, requestId).Some?
      && (newStatus != Approved || BalanceStepOf(users, FindRequest(requests, requestId).value, answers, faults) != Cancelled)
    ensures run.outcome == Updated ==>
      |run.writes| > 0 && Last(run.writes) == WriteStatus(requestId, UpdateData(newStatus, now, stamp))
  {
    if faults.requestRead then Run(ReadFailed, [])
    else match FindRequest(requests, requestId)
      case None => Run(NotFound, [])
      case Some(r) =>
        var step := if newStatus == Approved then BalanceStepOf(users, r, answers, faults) else NotDeducted;
        if step == Cancelled then Run(Declined, [])
        else
          var debits := if step == Deducted then [Debit(r.userId, r.amount)] else [];
          if faults.statusWrite then Run(StatusWriteFailed, debits)
          else Run(Updated, debits + [WriteStatus(requestId, UpdateData(newStatus, now, stamp))])
  }

  /** A merge write of `updateData` into a request: fields it does not carry are kept. */
  function Merge(r: WithdrawalRequest, d: StatusUpdate): WithdrawalRequest
  {
    r.(status := d.status, updatedAt := Some(d.updatedAt),
       approvedOn := if d.approvedOn.Some? then d.approvedOn else r.approvedOn)
  }

  function MergeInto(d: StatusUpdate): WithdrawalRequest -> WithdrawalRequest
  {
    (r: WithdrawalRequest) => Merge(r, d)
  }

  /** The requests after the writes. */
  function ApplyToRequests(writes: seq<Write>, requests: seq<WithdrawalRequest>): seq<WithdrawalRequest>
  {
    if writes == [] then requests
    else match writes[0]
      case Debit(_, _) => ApplyToRequests(writes[1..], requests)
      case WriteStatus(id, d) => ApplyToRequests(writes[1..], UpdateWhere(requests, HasId(id), MergeInto(d)))
  }

  /** `updateDoc(userRef, {balance: increment(-a)})`: a missing balance counts as 0. */
  function DebitUser(users: map<string, UserDoc>, u: string, a: int): (after: map<string, UserDoc>)
    ensures after.Keys == users.Keys
    ensures u in users ==> after[u].balance == Some(BalanceOf(users[u]) - a)
    ensures forall v :: v in users && v != u ==> after[v] == users[v]
  {
    if u in users then users[u := UserDoc(Some(BalanceOf(users[u]) - a))] else users
  }

  /** The users after the writes. */
  function ApplyToUsers(writes: seq<Write>, users: map<string, UserDoc>): map<string, UserDoc>
  {
    if writes == [] then users
    else match writes[0]
      case WriteStatus(_, _) => ApplyToUsers(writes[1..], users)
      case Debit(u, a) => ApplyToUsers(writes[1..], DebitUser(users, u, a))
  }

  /** `updateStats`: the number of listed requests and the sum of their amounts. */
  function PendingCount(listed: seq<WithdrawalRequest>): nat
  {
    |listed|
  }

  function AmountOf(r: WithdrawalRequest): int
  {
    r.amount
  }

  function TotalAmount(listed: seq<WithdrawalRequest>): int
  {
    Sum(AmountOf, listed)
  }

  /** A document the page's query returns: `where("status", "==", "Pending")`
      together with `orderBy("timestamp", ...)`, which leaves out documents
      without a `timestamp` field. */
  function InPendingQuery(r: WithdrawalRequest): bool
  {
    r.status == Pending && r.timestamp.Some?
  }

  /** The page's query, over a collection kept in the order
      `orderBy("timestamp", "desc")` asks for. */
  function PendingOf(requests: seq<WithdrawalRequest>): seq<WithdrawalRequest>
  {
    Filter(InPendingQuery, requests)
  }

  // ---------------------------------------------------------------------------
  // Properties of the workflow

  /** The store after each shape of write sequence the workflow produces. */
  lemma ApplyShapes(users: map<string, UserDoc>, requests: seq<WithdrawalRequest>,
                    u: string, a: int, id: string, d: StatusUpdate)
    ensures ApplyToUsers([Debit(u, a)], users) == DebitUser(users, u, a)
    ensures ApplyToUsers([WriteStatus(id, d)], users) == users
    ensures ApplyToUsers([Debit(u, a), WriteStatus(id, d)], users) == DebitUser(users, u, a)
    ensures ApplyToRequests([Debit(u, a)], requests) == requests
    ensures ApplyToRequests([WriteStatus(id, d)], requests) == UpdateWhere(requests, HasId(id), MergeInto(d))
    ensures ApplyToRequests([Debit(u, a), WriteStatus(id, d)], requests)
         == UpdateWhere(requests, HasId(id), MergeInto(d))
  {
    assert [Debit(u, a), WriteStatus(id, d)][1..] == [WriteStatus(id, d)];
  }

  /** Whatever the answers and faults, the call ends in one of two ways: it stops
      with nothing written, or it writes an optional deduction of exactly the
      request's amount from the request's user and then the status; a failing
      status write keeps a deduction already made. Only approval deducts. */
  lemma WorkflowShape(requests: seq<WithdrawalRequest>, users: map<string, UserDoc>,
                      requestId: string, newStatus: string, now: int, stamp: string,
                      answers: Confirmations, faults: Faults)
    ensures var run := Workflow(requests, users, requestId, newStatus, now, stamp, answers, faults);
      && (run.outcome in {ReadFailed, NotFound, Declined} ==> run.writes == [])
      && (run.outcome in {StatusWriteFailed, Updated} ==>
            FindRequest(requests, requestId).Some? &&
            var r := FindRequest(requests, requestId).value;
            var status := [WriteStatus(requestId, UpdateData(newStatus, now, stamp))];
            var debit := [Debit(r.userId, r.amount)];
            if run.outcome == Updated
            then run.writes == status || (newStatus == Approved && run.writes == debit + status)
            else run.writes == [] || (newStatus == Approved && run.writes == debit))
  {
  }

  /** A request that cannot be read or does not exist stops the call before any
      write, for approval and rejection alike. */
  lemma MissingRequestWritesNothing(requests: seq<WithdrawalRequest>, users: map<string, UserDoc>,
                                    requestId: string, newStatus: string, now: int, stamp: string,
                                    answers: Confirmations, faults: Faults)
    requires faults.requestRead || forall i :: 0 <= i < |requests| ==> requests[i].id != requestId
    ensures var run := Workflow(requests, users, requestId, newStatus, now, stamp, answers, faults);
      run.writes == [] && run.outcome in {ReadFailed, NotFound}
      && ApplyToRequests(run.writes, requests) == requests
      && ApplyToUsers(run.writes, users) == users
  {
    if !faults.requestRead {
      assert FindRequest(requests, requestId).None?;
    }
  }

  /** The store after a merge of `d` into request `id`: that request (found
      first by id) becomes its merge, and every request keeps its id. */
  lemma {:induction false} MergeFound(requests: seq<WithdrawalRequest>, id: string, d: StatusUpdate)
    requires FindRequest(requests, id).Some?
    ensures var after := ApplyToRequests([WriteStatus(id, d)], requests);
      FindRequest(after, id) == Some(Merge(FindRequest(requests, id).value, d))
  {
    var after := UpdateWhere(requests, HasId(id), MergeInto(d));
    assert ApplyToRequests([WriteStatus(id, d)], requests) == ApplyToRequests([], after);
    FindAfterUpdate(requests, HasId(id), MergeInto(d));
  }

  /** Rejection writes the given status and `updatedAt` only: no `approvedOn`,
      no balance change. */
  lemma RejectWritesStatusOnly(requests: seq<WithdrawalRequest>, users: map<string, UserDoc>,
                               requestId: string, now: int, stamp: string,
                               answers: Confirmations, faults: Faults)
    requires !faults.requestRead && !faults.statusWrite
    requires FindRequest(requests, requestId).Some?
    ensures var run := Workflow(requests, users, requestId, Rejected, now, stamp, answers, faults);
      var r := FindRequest(requests, requestId).value;
      && run.outcome == Updated
      && ApplyToUsers(run.writes, users) == users
      && FindRequest(ApplyToRequests(run.writes, requests), requestId)
           == Some(r.(status := Rejected, updatedAt := Some(now)))
  {
    var run := Workflow(requests, users, requestId, Rejected, now, stamp, answers, faults);
    assert run.writes == [WriteStatus(requestId, StatusUpdate(Rejected, now, None))];
    MergeFound(requests, requestId, StatusUpdate(Rejected, now, None));
  }

  /** The state after an approval that deducted and wrote its status: the user's
      balance (missing counts as 0) is lower by exactly the amount and the
      request is Approved with both timestamps. */
  lemma {:induction false} ApprovalEffect(requests: seq<WithdrawalRequest>, users: map<string, UserDoc>,
                                          requestId: string, now: int, stamp: string, r: WithdrawalRequest)
    requires FindRequest(requests, requestId) == Some(r) && r.userId in users
    ensures var writes := [Debit(r.userId, r.amount), WriteStatus(requestId, UpdateData(Approved, now, stamp))];
      && ApplyToUsers(writes, users) == users[r.userId := UserDoc(Some(BalanceOf(users[r.userId]) - r.amount))]
      && FindRequest(ApplyToRequests(writes, requests), requestId)
           == Some(r.(status := Approved, updatedAt := Some(now), approvedOn := Some(stamp)))
  {
    var d := UpdateData(Approved, now, stamp);
    ApplyShapes(users, requests, r.userId, r.amount, requestId, d);
    MergeFound(requests, requestId, d);
  }

  /** Approval with a known user whose balance covers the amount deducts exactly
      the amount, then marks the request Approved with `approvedOn` and `updatedAt`. */
  lemma SufficientBalanceDeductsThenApproves(requests: seq<WithdrawalRequest>, users: map<string, UserDoc>,
                                             requestId: string, now: int, stamp: string,
                                             answers: Confirmations, faults: Faults)
    requires faults == Faults(false, false, false, false)
    requires FindRequest(requests, requestId).Some?
    requires var r := FindRequest(requests, requestId).value;
      r.userId in users && BalanceOf(users[r.userId]) >= r.amount
    ensures var run := Workflow(requests, users, requestId, Approved, now, stamp, answers, faults);
      var r := FindRequest(requests, requestId).value;
      && run.outcome == Updated
      && run.writes == [Debit(r.userId, r.amount), WriteStatus(requestId, UpdateData(Approved, now, stamp))]
      && ApplyToUsers(run.writes, users) == users[r.userId := UserDoc(Some(BalanceOf(users[r.userId]) - r.amount))]
      && FindRequest(ApplyToRequests(run.writes, requests), requestId)
           == Some(r.(status := Approved, updatedAt := Some(now), approvedOn := Some(stamp)))
  {
    ApprovalEffect(requests, users, requestId, now, stamp, FindRequest(requests, requestId).value);
  }

  /** An existing user without a `balance` field is treated as holding 0: the
      call runs, and leaves the store, exactly as if the balance were 0. */
  lemma MissingBalanceIsZero(requests: seq<WithdrawalRequest>, users: map<string, UserDoc>,
                             requestId: string, newStatus: string, now: int, stamp: string,
                             answers: Confirmations, faults: Faults, u: string)
    requires u in users && users[u].balance.None?
    ensures var zeroed := users[u := UserDoc(Some(0))];
      var run := Workflow(requests, users, requestId, newStatus, now, stamp, answers, faults);
      var after := ApplyToUsers(run.writes, users);
      var afterZeroed := ApplyToUsers(run.writes, zeroed);
      && run == Workflow(requests, zeroed, requestId, newStatus, now, stamp, answers, faults)
      && after.Keys == afterZeroed.Keys == users.Keys
      && forall v :: v in after ==> BalanceOf(after[v]) == BalanceOf(afterZeroed[v])
  {
    var zeroed := users[u := UserDoc(Some(0))];
    var run := Workflow(requests, users, requestId, newStatus, now, stamp, answers, faults);
    if !faults.requestRead && FindRequest(requests, requestId).Some? {
      var r := FindRequest(requests, requestId).value;
      ApplyShapes(users, requests, r.userId, r.amount, requestId, UpdateData(newStatus, now, stamp));
      ApplyShapes(zeroed, requests, r.userId, r.amount, requestId, UpdateData(newStatus, now, stamp));
    }
  }

  /** A shortfall the operator declines stops the call with nothing written: the
      balance is unchanged and the request stays as it was (Pending). */
  lemma ShortfallDeclinedWritesNothing(requests: seq<WithdrawalRequest>, users: map<string, UserDoc>,
                                       requestId: string, now: int, stamp: string,
                                       answers: Confirmations, faults: Faults)
    requires !faults.requestRead && !faults.userRead && !answers.proceedWithShortfall
    requires FindRequest(requests, requestId).Some?
    requires var r := FindRequest(requests, requestId).value;
      r.userId in users && BalanceOf(users[r.userId]) < r.amount
    ensures Workflow(requests, users, requestId, Approved, now, stamp, answers, faults) == Run(Declined, [])
  {
  }

  /** A shortfall the operator accepts is still deducted, leaving a negative
      balance, and the request becomes Approved. */
  lemma ShortfallAcceptedGoesNegative(requests: seq<WithdrawalRequest>, users: map<string, UserDoc>,
                                      requestId: string, now: int, stamp: string,
                                      answers: Confirmations, faults: Faults)
    requires faults == Faults(false, false, false, false) && answers.proceedWithShortfall
    requires FindRequest(requests, requestId).Some?
    requires var r := FindRequest(requests, requestId).value;
      r.userId in users && BalanceOf(users[r.userId]) < r.amount
    ensures var run := Workflow(requests, users, requestId, Approved, now, stamp, answers, faults);
      var r := FindRequest(requests, requestId).value;
      var after := BalanceOf(users[r.userId]) - r.amount;
      && run.outcome == Updated
      && ApplyToUsers(run.writes, users) == users[r.userId := UserDoc(Some(after))]
      && after < 0
      && FindRequest(ApplyToRequests(run.writes, requests), requestId)
           == Some(r.(status := Approved, updatedAt := Some(now), approvedOn := Some(stamp)))
  {
    ApprovalEffect(requests, users, requestId, now, stamp, FindRequest(requests, requestId).value);
  }

  /** A missing user record: declining writes nothing; accepting writes the
      Approved status and leaves every balance alone. */
  lemma MissingUserAsksFirst(requests: seq<WithdrawalRequest>, users: map<string, UserDoc>,
                             requestId: string, now: int, stamp: string,
                             answers: Confirmations, faults: Faults)
    requires !faults.requestRead && !faults.userRead && !faults.statusWrite
    requires FindRequest(requests, requestId).Some?
    requires FindRequest(requests, requestId).value.userId !in users
    ensures var run := Workflow(requests, users, requestId, Approved, now, stamp, answers, faults);
      && (!answers.proceedWithoutUser ==> run == Run(Declined, []))
      && (answers.proceedWithoutUser ==>
            run == Run(Updated, [WriteStatus(requestId, UpdateData(Approved, now, stamp))])
            && ApplyToUsers(run.writes, users) == users)
  {
  }

  /** A failure in the balance block (reading the user, or the deduction
      itself): declining writes nothing; accepting writes the Approved status
      with no balance change. */
  lemma BalanceFailureAsksFirst(requests: seq<WithdrawalRequest>, users: map<string, UserDoc>,
                                requestId: string, now: int, stamp: string,
                                answers: Confirmations, faults: Faults)
    requires !faults.requestRead && !faults.statusWrite
    requires FindRequest(requests, requestId).Some?
    requires var r := FindRequest(requests, requestId).value;
      faults.userRead ||
      (faults.balanceWrite && r.userId in users &&
       (BalanceOf(users[r.userId]) >= r.amount || answers.proceedWithShortfall))
    ensures var run := Workflow(requests, users, requestId, Approved, now, stamp, answers, faults);
      && (!answers.proceedAfterFailure ==> run == Run(Declined, []))
      && (answers.proceedAfterFailure ==>
            run == Run(Updated, [WriteStatus(requestId, UpdateData(Approved, now, stamp))])
            && ApplyToUsers(run.writes, users) == users)
  {
  }

  /** The deduction comes first and is not undone: when the status write fails
      after a deduction, the balance stays lowered and the request unchanged. */
  lemma FailedStatusWriteKeepsDeduction(requests: seq<WithdrawalRequest>, users: map<string, UserDoc>,
                                        requestId: string, now: int, stamp: string,
                                        answers: Confirmations, faults: Faults)
    requires faults == Faults(false, false, false, true)
    requires FindRequest(requests, requestId).Some?
    requires var r := FindRequest(requests, requestId).value;
      r.userId in users && BalanceOf(users[r.userId]) >= r.amount
    ensures var run := Workflow(requests, users, requestId, Approved, now, stamp, answers, faults);
      var r := FindRequest(requests, requestId).value;
      && run.outcome == StatusWriteFailed
      && ApplyToUsers(run.writes, users) == users[r.userId := UserDoc(Some(BalanceOf(users[r.userId]) - r.amount))]
      && ApplyToRequests(run.writes, requests) == requests
  {
    var r := FindRequest(requests, requestId).value;
    ApplyShapes(users, requests, r.userId, r.amount, requestId, UpdateData(Approved, now, stamp));
  }

  /** Nothing guards against approving twice: approving a request that is
      already Approved deducts its amount again. */
  lemma ApprovingTwiceDeductsTwice(requests: seq<WithdrawalRequest>, users: map<string, UserDoc>,
                                   requestId: string, now: int, later: int, stamp: string, stamp2: string,
                                   answers: Confirmations)
    requires FindRequest(requests, requestId).Some?
    requires var r := FindRequest(requests, requestId).value;
      r.userId in users && BalanceOf(users[r.userId]) >= 2 * r.amount && r.amount >= 0
    ensures var ok := Faults(false, false, false, false);
      var r := FindRequest(requests, requestId).value;
      var run1 := Workflow(requests, users, requestId, Approved, now, stamp, answers, ok);
      var requests1 := ApplyToRequests(run1.writes, requests);
      var users1 := ApplyToUsers(run1.writes, users);
      var run2 := Workflow(requests1, users1, requestId, Approved, later, stamp2, answers, ok);
      && run2.outcome == Updated
      && ApplyToUsers(run2.writes, users1)
           == users[r.userId := UserDoc(Some(BalanceOf(users[r.userId]) - 2 * r.amount))]
  {
    var ok := Faults(false, false, false, false);
    var r := FindRequest(requests, requestId).value;
    SufficientBalanceDeductsThenApproves(requests, users, requestId, now, stamp, answers, ok);
    var run1 := Workflow(requests, users, requestId, Approved, now, stamp, answers, ok);
    var requests1 := ApplyToRequests(run1.writes, requests);
    var users1 := ApplyToUsers(run1.writes, users);
    ApprovalEffect(requests, users, requestId, now, stamp, r);
    var r1 := r.(status := Approved, updatedAt := Some(now), approvedOn := Some(stamp));
    assert FindRequest(requests1, requestId) == Some(r1);
    SufficientBalanceDeductsThenApproves(requests1, users1, requestId, later, stamp2, answers, ok);
  }

  /** After a decision that ends in success, the decided request is no longer
      among the Pending ones, so the list the page fetches again drops it. */
  lemma DecidedRequestLeavesPending(requests: seq<WithdrawalRequest>, users: map<string, UserDoc>,
                                    requestId: string, newStatus: string, now: int, stamp: string,
                                    answers: Confirmations, faults: Faults)
    requires newStatus != Pending
    ensures var run := Workflow(requests, users, requestId, newStatus, now, stamp, answers, faults);
      var listed := PendingOf(ApplyToRequests(run.writes, requests));
      run.outcome == Updated ==> forall i :: 0 <= i < |listed| ==> listed[i].id != requestId
  {
    var run := Workflow(requests, users, requestId, newStatus, now, stamp, answers, faults);
    if run.outcome == Updated {
      var r := FindRequest(requests, requestId).value;
      var d := UpdateData(newStatus, now, stamp);
      ApplyShapes(users, requests, r.userId, r.amount, requestId, d);
      WorkflowShape(requests, users, requestId, newStatus, now, stamp, answers, faults);
      var after := ApplyToRequests(run.writes, requests);
      assert after == UpdateWhere(requests, HasId(requestId), MergeInto(d));
      FilterSatisfies(InPendingQuery, after);
      forall i | 0 <= i < |PendingOf(after)|
        ensures PendingOf(after)[i].id != requestId
      {
        FilterMembership(InPendingQuery, after, PendingOf(after)[i]);
      }
    }
  }

  // ---------------------------------------------------------------------------
  // Statistics

  /** The total over the listed requests does not depend on their order. */
  lemma TotalAmountIgnoresOrder(a: seq<WithdrawalRequest>, b: seq<WithdrawalRequest>)
    requires multiset(a) == multiset(b)
    ensures TotalAmount(a) == TotalAmount(b) && PendingCount(a) == PendingCount(b)
  {
    SumPermutation(AmountOf, a, b);
    assert |a| == |multiset(a)| == |multiset(b)| == |b|;
  }

  /** Listing two batches of requests adds their counts and their totals. */
  lemma StatsAdd(a: seq<WithdrawalRequest>, b: seq<WithdrawalRequest>)
    ensures PendingCount(a + b) == PendingCount(a) + PendingCount(b)
    ensures TotalAmount(a + b) == TotalAmount(a) + TotalAmount(b)
  {
    SumAppend(AmountOf, a, b);
  }

  /** With no negative amounts listed, the total is at least each listed amount. */
  lemma {:induction false} TotalCoversEachRequest(listed: seq<WithdrawalRequest>, k: nat)
    requires forall i :: 0 <= i < |listed| ==> listed[i].amount >= 0
    requires k < |listed|
    ensures 0 <= listed[k].amount <= TotalAmount(listed)
    decreases |listed|
  {
    var rest := DropLast(listed);
    SumNonNegative(rest);
    if k < |rest| {
      TotalCoversEachRequest(rest, k);
    }
  }

  lemma {:induction false} SumNonNegative(listed: seq<WithdrawalRequest>)
    requires forall i :: 0 <= i < |listed| ==> listed[i].amount >= 0
    ensures TotalAmount(listed) >= 0
    decreases |listed|
  {
    if listed != [] {
      SumNonNegative(DropLast(listed));
    }
  }

  /** With no negative amounts listed, the total is non-negative and at least
      each listed amount. */
  lemma TotalBounds(listed: seq<WithdrawalRequest>)
    ensures (forall i :: 0 <= i < |listed| ==> listed[i].amount >= 0) ==>
      TotalAmount(listed) >= 0 && forall k :: 0 <= k < |listed| ==> listed[k].amount <= TotalAmount(listed)
  {
    if forall i :: 0 <= i < |listed| ==> listed[i].amount >= 0 {
      SumNonNegative(listed);
      forall k | 0 <= k < |listed|
        ensures listed[k].amount <= TotalAmount(listed)
      {
        TotalCoversEachRequest(listed, k);
      }
    }
  }

  /** The page's query keeps exactly the Pending requests that carry a
      `timestamp`, in order, each as many times as the collection holds it. */
  lemma PendingOfIsExact(requests: seq<WithdrawalRequest>, r: WithdrawalRequest)
    ensures IsSubseq(PendingOf(requests), requests)
    ensures forall i :: 0 <= i < |PendingOf(requests)| ==> PendingOf(requests)[i].status == Pending
    ensures r in PendingOf(requests) <==> r in requests && r.status == Pending && r.timestamp.Some?
    ensures multiset(PendingOf(requests))[r] == if InPendingQuery(r) then multiset(requests)[r] else 0
  {
    FilterIsSubseq(InPendingQuery, requests);
    FilterSatisfies(InPendingQuery, requests);
    FilterMembership(InPendingQuery, requests, r);
    FilterCount(InPendingQuery, requests, r);
  }
}
