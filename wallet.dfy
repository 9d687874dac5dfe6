/** Add-money requests as wallet-management.js sees them (collection
    "add_money_requests"): the status write of `updateRequestStatus`, the
    pending statistics, and the sum of today's approved amounts that
    `fetchTodayApprovedAmount` computes. */
module Wallet {
  import opened Seqs
  import opened Text

  const Pending := "Pending"
  const Approved := "Approved"
  /** The status the wallet page's reject button passes: lower case, unlike
      the withdrawal page's "Rejected". */
  const Rejected := "rejected"

  /** The `approvedOn` field of a stored request: absent, a string, or a value of
      another type (which the today check skips). */
  datatype Field = Missing | Str(text: string) | NonText

  /** A document of "add_money_requests": the fields the page reads or writes.
      `amount` and `timestamp` are None when the document has no such field. */
  datatype WalletRequest = WalletRequest(
    id: string,
    userId: string,
    amount: Option<int>,
    status: string,
    timestamp: Option<int>,
    approvedOn: Field)

  /** `updateData`: the status, and `approvedOn` only for "Approved". */
  datatype WalletUpdate = WalletUpdate(status: string, approvedOn: Option<string>)

  function UpdateData(newStatus: string, stamp: string): (d: WalletUpdate)
    ensures d.status == newStatus
    ensures d.approvedOn.Some? <==> newStatus == Approved
    ensures d.approvedOn.Some? ==> d.approvedOn.value == stamp
  {
    WalletUpdate(newStatus, if newStatus == Approved then Some(stamp) else None)
  }

  /** A merge write of `d`: fields it does not carry are kept. */
  function Merge(r: WalletRequest, d: WalletUpdate): WalletRequest
  {
    r.(status := d.status, approvedOn := if d.approvedOn.Some? then Str(d.approvedOn.value) else r.approvedOn)
  }

  function HasId(id: string): WalletRequest -> bool
  {
    (r: WalletRequest) => r.id == id
  }

  function MergeInto(d: WalletUpdate): WalletRequest -> WalletRequest
  {
    (r: WalletRequest) => Merge(r, d)
  }

  /** `updateDoc(doc(db, "add_money_requests", id), updateData)`: None when the
      document does not exist (the update is refused), otherwise the collection
      with that document merged. */
  function StatusWrite(requests: seq<WalletRequest>, id: string, newStatus: string, stamp: string)
    : (r: Option<seq<WalletRequest>>)
    ensures r.None? <==> forall i :: 0 <= i < |requests| ==> requests[i].id != id
    ensures r.Some? ==> |r.value| == |requests| && forall i :: 0 <= i < |requests| ==>
      r.value[i] == if requests[i].id == id then Merge(requests[i], UpdateData(newStatus, stamp)) else requests[i]
  {
    if Find(requests, HasId(id)).None? then None
    else Some(UpdateWhere(requests, HasId(id), MergeInto(UpdateData(newStatus, stamp))))
  }

  /** A document the page's Pending query returns: `where("status", "==", "Pending")`
      together with `orderBy("timestamp", ...)`, which leaves out documents
      without a `timestamp` field. */
  function InPendingQuery(r: WalletRequest): bool
  {
    r.status == Pending && r.timestamp.Some?
  }

  function IsApproved(r: WalletRequest): bool
  {
    r.status == Approved
  }

  /** The page's Pending query, over a collection kept in the order
      `orderBy("timestamp", "desc")` asks for. */
  function PendingOf(requests: seq<WalletRequest>): seq<WalletRequest>
  {
    Filter(InPendingQuery, requests)
  }

  /** The query `where("status", "==", "Approved")`. */
  function ApprovedOf(requests: seq<WalletRequest>): seq<WalletRequest>
  {
    Filter(IsApproved, requests)
  }

  /** `updateStats`' count of listed requests. */
  function PendingCount(listed: seq<WalletRequest>): nat
  {
    |listed|
  }

  /** `updateStats`' `reduce((sum, r) => sum + r.amount, 0)`: None stands for the
      NaN that one missing amount makes of the whole total. */
  function PendingTotal(listed: seq<WalletRequest>): (t: Option<int>)
    ensures t.Some? <==> forall i :: 0 <= i < |listed| ==> listed[i].amount.Some?
  {
    if listed == [] then Some(0)
    else match PendingTotal(DropLast(listed))
      case None => None
      case Some(t) =>
        match Last(listed).amount
        case None => None
        case Some(a) => Some(t + a)
  }

  /** `data.amount || 0`. */
  function AmountOrZero(r: WalletRequest): int
  {
    r.amount.GetOr(0)
  }

  /** The check of `fetchTodayApprovedAmount`: `approvedOn` is a non-empty string
      that includes today's date text. */
  predicate ApprovedToday(r: WalletRequest, today: string)
  {
    r.approvedOn.Str? && r.approvedOn.text != [] && Contains(r.approvedOn.text, today)
  }

  /** What one document of the Approved query adds to today's sum. */
  function TodayTerm(today: string): WalletRequest -> int
  {
    (r: WalletRequest) => if ApprovedToday(r, today) then AmountOrZero(r) else 0
  }

  /** `fetchTodayApprovedAmount`, reading the collection successfully. */
  function TodayApproved(requests: seq<WalletRequest>, today: string): (s: int)
    ensures s == Sum(TodayContribution(today), requests)
  {
    SumFilter(IsApproved, TodayTerm(today), TodayContribution(today), requests);
    Sum(TodayTerm(today), ApprovedOf(requests))
  }

  /** What one document of the whole collection contributes to today's sum. */
  function TodayContribution(today: string): WalletRequest -> int
  {
    (r: WalletRequest) => if IsApproved(r) && ApprovedToday(r, today) then AmountOrZero(r) else 0
  }

  /** The identifiers of the collection are distinct, as document ids are. */
  predicate DistinctIds(requests: seq<WalletRequest>)
  {
    forall i, j :: 0 <= i < |requests| && 0 <= j < |requests| && requests[i].id == requests[j].id ==> i == j
  }

  // ---------------------------------------------------------------------------
  // Properties

  /** The pending total is a number exactly when every listed request has an
      amount, and it is then the sum of the amounts. */
  lemma {:induction false} PendingTotalDefined(listed: seq<WalletRequest>)
    ensures PendingTotal(listed).Some? <==> forall i :: 0 <= i < |listed| ==> listed[i].amount.Some?
    ensures PendingTotal(listed).Some? ==> PendingTotal(listed).value == Sum(AmountOrZero, listed)
    decreases |listed|
  {
    if listed != [] {
      PendingTotalDefined(DropLast(listed));
      if PendingTotal(DropLast(listed)).None? {
        var i :| 0 <= i < |DropLast(listed)| && DropLast(listed)[i].amount.None?;
        assert listed[i].amount.None?;
      }
    }
  }

  /** Summing the Approved query is summing, over the whole collection, the
      amounts of the requests approved today. */
  lemma TodayApprovedOverAll(requests: seq<WalletRequest>, today: string)
    ensures TodayApproved(requests, today) == Sum(TodayContribution(today), requests)
  {
    SumFilter(IsApproved, TodayTerm(today), TodayContribution(today), requests);
  }

  /** A request whose `approvedOn` is missing, empty, not a string, or of
      another day adds nothing: adding it to the collection keeps the sum. */
  lemma NotTodayAddsNothing(requests: seq<WalletRequest>, r: WalletRequest, today: string)
    requires !ApprovedToday(r, today)
    ensures TodayApproved(requests + [r], today) == TodayApproved(requests, today)
  {
    TodayApprovedOverAll(requests + [r], today);
    TodayApprovedOverAll(requests, today);
    SumAppend(TodayContribution(today), requests, [r]);
    assert DropLast([r]) == [];
  }

  /** A request that is not Approved adds nothing, whatever its `approvedOn`. */
  lemma UnapprovedAddsNothing(requests: seq<WalletRequest>, r: WalletRequest, today: string)
    requires !IsApproved(r)
    ensures TodayApproved(requests + [r], today) == TodayApproved(requests, today)
  {
    FilterAppend(IsApproved, requests, [r]);
    assert Filter(IsApproved, [r]) == [];
    assert Filter(IsApproved, requests) + [] == Filter(IsApproved, requests);
  }

  /** Approving a pending request with a stamp that includes today's date text
      raises today's sum by its amount (0 when it has none). */
  lemma ApproveRaisesToday(requests: seq<WalletRequest>, k: nat, today: string, stamp: string)
    requires DistinctIds(requests) && k < |requests|
    requires requests[k].status == Pending
    requires stamp != [] && Contains(stamp, today)
    ensures var after := StatusWrite(requests, requests[k].id, Approved, stamp);
      && after.Some?
      && TodayApproved(after.value, today) == TodayApproved(requests, today) + AmountOrZero(requests[k])
  {
    var after := StatusWrite(requests, requests[k].id, Approved, stamp).value;
    assert after[k] == Merge(requests[k], UpdateData(Approved, stamp));
    TodayApprovedOverAll(requests, today);
    TodayApprovedOverAll(after, today);
    SumChangeOne(TodayContribution(today), requests, after, k);
  }

  /** Rejection writes the lower-case "rejected" status and nothing else. */
  lemma RejectWritesStatusOnly(requests: seq<WalletRequest>, k: nat, stamp: string)
    requires DistinctIds(requests) && k < |requests|
    ensures var after := StatusWrite(requests, requests[k].id, Rejected, stamp);
      && after.Some?
      && after.value[k] == requests[k].(status := "rejected")
      && forall i :: 0 <= i < |requests| && i != k ==> after.value[i] == requests[i]
  {
  }

  /** Approving or rejecting a request takes it off the pending list: the
      pending count drops by one when the request was listed, and is unchanged
      otherwise. */
  lemma DecisionLeavesPending(requests: seq<WalletRequest>, k: nat, newStatus: string, stamp: string)
    requires DistinctIds(requests) && k < |requests| && newStatus != Pending
    ensures var after := StatusWrite(requests, requests[k].id, newStatus, stamp);
      && after.Some?
      && after.value[k] !in PendingOf(after.value)
      && |PendingOf(after.value)| == |PendingOf(requests)| - (if requests[k] in PendingOf(requests) then 1 else 0)
  {
    var after := StatusWrite(requests, requests[k].id, newStatus, stamp).value;
    var one := (r: WalletRequest) => if InPendingQuery(r) then 1 else 0;
    FilterLengthIsSum(InPendingQuery, one, requests);
    FilterLengthIsSum(InPendingQuery, one, after);
    SumChangeOne(one, requests, after, k);
    FilterMembership(InPendingQuery, requests, requests[k]);
    FilterMembership(InPendingQuery, after, after[k]);
  }

  /** The page's Pending query keeps exactly the Pending requests that carry a
      `timestamp`, in order, each as many times as the collection holds it. */
  lemma PendingOfIsExact(requests: seq<WalletRequest>, r: WalletRequest)
    ensures IsSubseq(PendingOf(requests), requests)
    ensures r in PendingOf(requests) <==> r in requests && r.status == Pending && r.timestamp.Some?
    ensures multiset(PendingOf(requests))[r] == if InPendingQuery(r) then multiset(requests)[r] else 0
  {
    FilterIsSubseq(InPendingQuery, requests);
    FilterMembership(InPendingQuery, requests, r);
    FilterCount(InPendingQuery, requests, r);
  }
}
