/** Reconciliation of one row of the export: the importer visits the
    participant columns left to right, remembering the last participant with
    a positive share as the payer, pushing an allocation for each recipient
    and switching the row to BY_AMOUNT, with an explicit amount on the
    participant's allocation, whenever a share is not a clean full or half
    cost.

    `shares` holds one signed share in cents per participant column;
    participant `j` is column `j`. */
module RowReconcile {
  import opened LedgerTypes
  import opened Split

  /** What the importer knows about a row part-way through its columns. */
  datatype RowState = RowState(paidBy: Option<nat>, allocations: seq<Allocation>, mode: SplitMode)

  /** Before the first column: no payer, no allocation, EVENLY. */
  const Start: RowState := RowState(None, [], Evenly)

  predicate Matches(a: Allocation, expenseId: nat, participant: nat) {
    a.expenseId == expenseId && a.participantId == participant
  }

  /** Array.find on the allocations: the index of the first allocation of
      `participant` on `expenseId`, at or after `from`. */
  function FindAllocationFrom(allocs: seq<Allocation>, expenseId: nat, participant: nat, from: nat): (r: Option<nat>)
    decreases |allocs| - from
    ensures r.Some? ==> from <= r.value < |allocs| && Matches(allocs[r.value], expenseId, participant)
    ensures r.Some? ==> forall k :: from <= k < r.value ==> !Matches(allocs[k], expenseId, participant)
    ensures r.None? ==> forall k :: from <= k < |allocs| ==> !Matches(allocs[k], expenseId, participant)
  {
    if from >= |allocs| then None
    else if Matches(allocs[from], expenseId, participant) then Some(from)
    else FindAllocationFrom(allocs, expenseId, participant, from + 1)
  }

  /** The importer's visit of column `j` of a row whose allocations go on
      expense `expenseId`. */
  function Visit(st: RowState, j: nat, share: int, cost: int, isPayment: bool, expenseId: nat): Result<RowState> {
    var paidBy := if share > 0 then Some(j) else st.paidBy;
    var pushed :=
      if share <= 0 && isPayment && share < 0 then st.allocations + [Allocation(expenseId, j, None)]
      else st.allocations;
    var allocs :=
      if share != 0 && share != cost && !isPayment then pushed + [Allocation(expenseId, j, None)]
      else pushed;
    if TriggersAsWritten(share, cost) then
      match FindAllocationFrom(allocs, expenseId, j, 0)
      case None => Failure(ParticipantNotFound(paidBy))
      case Some(k) =>
        var amount := if paidBy == Some(j) then cost - share else Abs(share);
        Success(RowState(paidBy, allocs[k := allocs[k].(shares := Some(amount))], ByAmount))
    else
      Success(RowState(paidBy, allocs, st.mode))
  }

  /** The state after visiting the first `n` columns, or the error that
      aborted the import on the way. */
  function RowFold(shares: seq<int>, cost: int, isPayment: bool, expenseId: nat, n: nat): Result<RowState>
    requires n <= |shares|
  {
    if n == 0 then Success(Start)
    else
      var st :- RowFold(shares, cost, isPayment, expenseId, n - 1);
      Visit(st, n - 1, shares[n - 1], cost, isPayment, expenseId)
  }

  // ---------------------------------------------------------------------
  // Reference description of a row, column by column
  // ---------------------------------------------------------------------

  /** The last of the first `n` columns holding a strictly positive share. */
  function LastPositive(shares: seq<int>, n: nat): (r: Option<nat>)
    requires n <= |shares|
    ensures r.Some? ==> r.value < n && shares[r.value] > 0
    ensures r.Some? ==> forall q :: r.value < q < n ==> shares[q] <= 0
    ensures r.None? ==> forall q :: 0 <= q < n ==> shares[q] <= 0
  {
    if n == 0 then None
    else if shares[n - 1] > 0 then Some(n - 1)
    else LastPositive(shares, n - 1)
  }

  /** The explicit amount a participant's allocation carries. */
  function SharesFor(share: int, cost: int): Option<int> {
    if TriggersByAmount(share, cost) then Some(ExplicitShare(share, cost)) else None
  }

  /** The allocations of the first `n` columns: one per recipient, in column
      order, carrying its explicit amount when its share forced BY_AMOUNT. */
  function ExpectedAllocations(shares: seq<int>, cost: int, isPayment: bool, expenseId: nat, n: nat): seq<Allocation>
    requires n <= |shares|
  {
    if n == 0 then []
    else
      ExpectedAllocations(shares, cost, isPayment, expenseId, n - 1)
      + (if IsRecipient(shares[n - 1], cost, isPayment)
         then [Allocation(expenseId, n - 1, SharesFor(shares[n - 1], cost))]
         else [])
  }

  predicate AnyTrigger(shares: seq<int>, cost: int, n: nat)
    requires n <= |shares|
  {
    exists j :: 0 <= j < n && TriggersByAmount(shares[j], cost)
  }

  function ModeOf(shares: seq<int>, cost: int, n: nat): SplitMode
    requires n <= |shares|
  {
    if AnyTrigger(shares, cost, n) then ByAmount else Evenly
  }

  /** Column `j` forces BY_AMOUNT but has no allocation to carry the amount. */
  predicate StuckAt(shares: seq<int>, cost: int, isPayment: bool, j: int)
    requires 0 <= j < |shares|
  {
    TriggersByAmount(shares[j], cost) && !IsRecipient(shares[j], cost, isPayment)
  }

  predicate AnyStuck(shares: seq<int>, cost: int, isPayment: bool, n: nat)
    requires n <= |shares|
  {
    exists j :: 0 <= j < n && StuckAt(shares, cost, isPayment, j)
  }

  /** The first stuck column among the first `n`. */
  function FirstStuck(shares: seq<int>, cost: int, isPayment: bool, n: nat): (r: Option<nat>)
    requires n <= |shares|
    ensures r.Some? ==> r.value < n && StuckAt(shares, cost, isPayment, r.value)
    ensures r.Some? ==> forall j :: 0 <= j < r.value ==> !StuckAt(shares, cost, isPayment, j)
    ensures r.None? ==> !AnyStuck(shares, cost, isPayment, n)
  {
    if n == 0 then None
    else
      var before := FirstStuck(shares, cost, isPayment, n - 1);
      if before.Some? then before
      else if StuckAt(shares, cost, isPayment, n - 1) then Some(n - 1)
      else None
  }

  /** The reference outcome of a row after `n` columns. */
  function Expected(shares: seq<int>, cost: int, isPayment: bool, expenseId: nat, n: nat): Result<RowState>
    requires n <= |shares|
  {
    match FirstStuck(shares, cost, isPayment, n)
    case Some(j) => Failure(ParticipantNotFound(LastPositive(shares, j + 1)))
    case None =>
      Success(RowState(LastPositive(shares, n), ExpectedAllocations(shares, cost, isPayment, expenseId, n), ModeOf(shares, cost, n)))
  }

  // ---------------------------------------------------------------------
  // Properties of the reference description
  // ---------------------------------------------------------------------

  /** Every allocation is on `expenseId`, belongs to a recipient among the
      first `n` columns and carries that recipient's explicit amount. */
  predicate AllocationsSound(allocs: seq<Allocation>, shares: seq<int>, cost: int, isPayment: bool, expenseId: nat, n: nat)
    requires n <= |shares|
  {
    forall k :: 0 <= k < |allocs| ==>
      && allocs[k].expenseId == expenseId
      && allocs[k].participantId < n
      && IsRecipient(shares[allocs[k].participantId], cost, isPayment)
      && allocs[k].shares == SharesFor(shares[allocs[k].participantId], cost)
  }

  /** Allocations in strictly increasing participant order: none twice. */
  predicate AllocationsOrdered(allocs: seq<Allocation>) {
    forall k, l :: 0 <= k < l < |allocs| ==> allocs[k].participantId < allocs[l].participantId
  }

  lemma {:induction false} ExpectedAllocationsSound(shares: seq<int>, cost: int, isPayment: bool, expenseId: nat, n: nat)
    requires n <= |shares|
    ensures AllocationsSound(ExpectedAllocations(shares, cost, isPayment, expenseId, n), shares, cost, isPayment, expenseId, n)
  {
    if n > 0 {
      ExpectedAllocationsSound(shares, cost, isPayment, expenseId, n - 1);
      var prev := ExpectedAllocations(shares, cost, isPayment, expenseId, n - 1);
      var allocs := ExpectedAllocations(shares, cost, isPayment, expenseId, n);
      forall k | 0 <= k < |allocs|
        ensures allocs[k].expenseId == expenseId && allocs[k].participantId < n
        ensures IsRecipient(shares[allocs[k].participantId], cost, isPayment)
        ensures allocs[k].shares == SharesFor(shares[allocs[k].participantId], cost)
      {
        if k < |prev| {
          assert allocs[k] == prev[k];
        }
      }
    }
  }

  lemma {:induction false} ExpectedAllocationsOrdered(shares: seq<int>, cost: int, isPayment: bool, expenseId: nat, n: nat)
    requires n <= |shares|
    ensures AllocationsOrdered(ExpectedAllocations(shares, cost, isPayment, expenseId, n))
  {
    if n > 0 {
      ExpectedAllocationsOrdered(shares, cost, isPayment, expenseId, n - 1);
      ExpectedAllocationsSound(shares, cost, isPayment, expenseId, n - 1);
      var prev := ExpectedAllocations(shares, cost, isPayment, expenseId, n - 1);
      var allocs := ExpectedAllocations(shares, cost, isPayment, expenseId, n);
      forall k, l | 0 <= k < l < |allocs|
        ensures allocs[k].participantId < allocs[l].participantId
      {
        assert allocs[k] == prev[k];
        if l < |prev| {
          assert allocs[l] == prev[l];
        }
      }
    }
  }

  /** Every recipient among the first `n` columns has a reference
      allocation. */
  lemma {:induction false} ExpectedAllocationsComplete(shares: seq<int>, cost: int, isPayment: bool, expenseId: nat, n: nat, j: nat)
    requires j < n <= |shares|
    requires IsRecipient(shares[j], cost, isPayment)
    ensures exists k :: 0 <= k < |ExpectedAllocations(shares, cost, isPayment, expenseId, n)|
              && ExpectedAllocations(shares, cost, isPayment, expenseId, n)[k].participantId == j
  {
    var prev := ExpectedAllocations(shares, cost, isPayment, expenseId, n - 1);
    var allocs := ExpectedAllocations(shares, cost, isPayment, expenseId, n);
    if j < n - 1 {
      ExpectedAllocationsComplete(shares, cost, isPayment, expenseId, n - 1, j);
      var k :| 0 <= k < |prev| && prev[k].participantId == j;
      assert allocs[k] == prev[k];
    } else {
      assert allocs[|prev|].participantId == j;
    }
  }

  /** Once a row is BY_AMOUNT it stays BY_AMOUNT for its remaining columns,
      on the reference description; `RowFoldModeMonotone` carries this to the
      loop through `RowFoldIsExpected`. */
  lemma ModeMonotone(shares: seq<int>, cost: int, m: nat, n: nat)
    requires m <= n <= |shares|
    requires ModeOf(shares, cost, m) == ByAmount
    ensures ModeOf(shares, cost, n) == ByAmount
  {
    var j :| 0 <= j < m && TriggersByAmount(shares[j], cost);
    assert 0 <= j < n;
  }

  // ---------------------------------------------------------------------
  // The importer's fold agrees with the reference description
  // ---------------------------------------------------------------------

  /** One column of the importer's loop takes the reference state of the
      first `j` columns to the reference outcome of the first `j + 1`. */
  lemma {:induction false} VisitStep(shares: seq<int>, cost: int, isPayment: bool, expenseId: nat, j: nat)
    requires j < |shares|
    requires Expected(shares, cost, isPayment, expenseId, j).Success?
    ensures Visit(Expected(shares, cost, isPayment, expenseId, j).value, j, shares[j], cost, isPayment, expenseId)
            == Expected(shares, cost, isPayment, expenseId, j + 1)
  {
    var st := Expected(shares, cost, isPayment, expenseId, j).value;
    var share := shares[j];
    var prev := ExpectedAllocations(shares, cost, isPayment, expenseId, j);
    ExpectedAllocationsSound(shares, cost, isPayment, expenseId, j);
    AsWrittenIsEffective(share, cost);
    var paidBy := if share > 0 then Some(j) else st.paidBy;
    assert paidBy == LastPositive(shares, j + 1);
    var allocs := if IsRecipient(share, cost, isPayment) then prev + [Allocation(expenseId, j, None)] else prev;
    assert forall k :: 0 <= k < |prev| ==> allocs[k] == prev[k];
    assert forall k :: 0 <= k < |prev| ==> !Matches(allocs[k], expenseId, j);
    assert FirstStuck(shares, cost, isPayment, j).None?;
    assert AnyTrigger(shares, cost, j + 1) <==> AnyTrigger(shares, cost, j) || TriggersByAmount(share, cost) by {
      if AnyTrigger(shares, cost, j + 1) && !TriggersByAmount(share, cost) {
        var i :| 0 <= i < j + 1 && TriggersByAmount(shares[i], cost);
        assert i < j;
      }
    }
    var next := ExpectedAllocations(shares, cost, isPayment, expenseId, j + 1);
    if TriggersByAmount(share, cost) {
      var found := FindAllocationFrom(allocs, expenseId, j, 0);
      if IsRecipient(share, cost, isPayment) {
        assert Matches(allocs[|prev|], expenseId, j);
        assert found == Some(|prev|);
        assert (paidBy == Some(j)) == (share > 0);
        var amount := if paidBy == Some(j) then cost - share else Abs(share);
        assert amount == ExplicitShare(share, cost);
        assert allocs[|prev| := allocs[|prev|].(shares := Some(amount))] == next;
        assert FirstStuck(shares, cost, isPayment, j + 1).None?;
      } else {
        assert found.None?;
        assert FirstStuck(shares, cost, isPayment, j + 1) == Some(j);
      }
    } else {
      assert FirstStuck(shares, cost, isPayment, j + 1).None?;
      assert allocs == next;
    }
  }

  /** The importer's column loop computes exactly the reference outcome:
      the row aborts iff some column is stuck (with the payer known at the
      first stuck column), and otherwise yields the last positive column as
      payer, the reference allocations and BY_AMOUNT iff some share
      triggers it. */
  lemma {:induction false} RowFoldIsExpected(shares: seq<int>, cost: int, isPayment: bool, expenseId: nat, n: nat)
    requires n <= |shares|
    ensures RowFold(shares, cost, isPayment, expenseId, n) == Expected(shares, cost, isPayment, expenseId, n)
  {
    if n > 0 {
      var m := n - 1;
      RowFoldIsExpected(shares, cost, isPayment, expenseId, m);
      var prev := Expected(shares, cost, isPayment, expenseId, m);
      if prev.Success? {
        VisitStep(shares, cost, isPayment, expenseId, m);
      } else {
        var j := FirstStuck(shares, cost, isPayment, m).value;
        assert FirstStuck(shares, cost, isPayment, n) == Some(j);
      }
    }
  }

  /** The importer's loop over the participant columns of a row
      (import.ts lines 72-143), the imperative form of `RowFold`. Its loop
      invariant keeps the state equal to `Expected` after every column, which
      `RowFoldIsExpected` shows `RowFold` computes as well. */
  method ReconcileRow(shares: seq<int>, cost: int, isPayment: bool, expenseId: nat) returns (r: Result<RowState>)
    ensures r.Failure? <==> AnyStuck(shares, cost, isPayment, |shares|)
    ensures r.Failure? ==> r.error.ParticipantNotFound?
    ensures r.Success? ==> r.value.paidBy == LastPositive(shares, |shares|)
    ensures r.Success? ==> r.value.allocations == ExpectedAllocations(shares, cost, isPayment, expenseId, |shares|)
    ensures r.Success? ==> (r.value.mode == ByAmount <==> AnyTrigger(shares, cost, |shares|))
  {
    var st := Start;
    var j := 0;
    while j < |shares|
      invariant j <= |shares|
      invariant Expected(shares, cost, isPayment, expenseId, j) == Success(st)
    {
      VisitStep(shares, cost, isPayment, expenseId, j);
      var next := Visit(st, j, shares[j], cost, isPayment, expenseId);
      if next.Failure? {
        var k := FirstStuck(shares, cost, isPayment, j + 1).value;
        assert StuckAt(shares, cost, isPayment, k);
        return next;
      }
      st := next.value;
      j := j + 1;
    }
    return Success(st);
  }

  // ---------------------------------------------------------------------
  // Properties of a reconciled row
  // ---------------------------------------------------------------------

  /** A reconciled row's allocations are all on its expense, one for each
      recipient and for nobody else (so, on a reimbursement, exactly the
      participants with a negative share; otherwise exactly those whose
      share is nonzero and not the cost, the payer included when it did not
      cover the whole cost), in column order, each carrying an explicit
      amount iff its share forced BY_AMOUNT. */
  lemma RowAllocationsExact(shares: seq<int>, cost: int, isPayment: bool, expenseId: nat)
    requires RowFold(shares, cost, isPayment, expenseId, |shares|).Success?
    ensures var allocs := RowFold(shares, cost, isPayment, expenseId, |shares|).value.allocations;
      && AllocationsSound(allocs, shares, cost, isPayment, expenseId, |shares|)
      && AllocationsOrdered(allocs)
      && (forall j :: 0 <= j < |shares| && IsRecipient(shares[j], cost, isPayment) ==>
            exists k :: 0 <= k < |allocs| && allocs[k].participantId == j)
  {
    var n := |shares|;
    RowFoldIsExpected(shares, cost, isPayment, expenseId, n);
    ExpectedAllocationsSound(shares, cost, isPayment, expenseId, n);
    ExpectedAllocationsOrdered(shares, cost, isPayment, expenseId, n);
    forall j | 0 <= j < n && IsRecipient(shares[j], cost, isPayment)
      ensures exists k :: 0 <= k < |ExpectedAllocations(shares, cost, isPayment, expenseId, n)|
                && ExpectedAllocations(shares, cost, isPayment, expenseId, n)[k].participantId == j
    {
      ExpectedAllocationsComplete(shares, cost, isPayment, expenseId, n, j);
    }
  }

  /** The payer of a reconciled row is the last column with a strictly
      positive share, and there is none iff no share is positive. */
  lemma RowPayer(shares: seq<int>, cost: int, isPayment: bool, expenseId: nat)
    requires RowFold(shares, cost, isPayment, expenseId, |shares|).Success?
    ensures var paidBy := RowFold(shares, cost, isPayment, expenseId, |shares|).value.paidBy;
      && (paidBy.Some? ==> paidBy.value < |shares| && shares[paidBy.value] > 0)
      && (paidBy.Some? ==> forall q :: paidBy.value < q < |shares| ==> shares[q] <= 0)
      && (paidBy.None? <==> forall q :: 0 <= q < |shares| ==> shares[q] <= 0)
  {
    RowFoldIsExpected(shares, cost, isPayment, expenseId, |shares|);
  }

  /** A reconciled row is BY_AMOUNT iff some share triggers it. */
  lemma RowMode(shares: seq<int>, cost: int, isPayment: bool, expenseId: nat)
    requires RowFold(shares, cost, isPayment, expenseId, |shares|).Success?
    ensures RowFold(shares, cost, isPayment, expenseId, |shares|).value.mode == ByAmount <==>
              exists j :: 0 <= j < |shares| && TriggersByAmount(shares[j], cost)
  {
    RowFoldIsExpected(shares, cost, isPayment, expenseId, |shares|);
  }

  /** The loop never switches a row back to EVENLY: once the first `m`
      columns have made it BY_AMOUNT, it is BY_AMOUNT after any later column. */
  lemma {:induction false} RowFoldModeMonotone(shares: seq<int>, cost: int, isPayment: bool, expenseId: nat, m: nat, n: nat)
    requires m <= n <= |shares|
    requires RowFold(shares, cost, isPayment, expenseId, m).Success?
    requires RowFold(shares, cost, isPayment, expenseId, m).value.mode == ByAmount
    requires RowFold(shares, cost, isPayment, expenseId, n).Success?
    ensures RowFold(shares, cost, isPayment, expenseId, n).value.mode == ByAmount
  {
    RowFoldIsExpected(shares, cost, isPayment, expenseId, m);
    RowFoldIsExpected(shares, cost, isPayment, expenseId, n);
    ModeMonotone(shares, cost, m, n);
  }

  /** A row aborts iff some share triggers BY_AMOUNT without having an
      allocation; on a reimbursement that is exactly a positive share that
      is neither the cost nor a half of it. */
  lemma RowAborts(shares: seq<int>, cost: int, isPayment: bool, expenseId: nat)
    ensures RowFold(shares, cost, isPayment, expenseId, |shares|).Failure? <==>
              exists j :: 0 <= j < |shares| && TriggersByAmount(shares[j], cost) && !IsRecipient(shares[j], cost, isPayment)
    ensures isPayment ==>
              (RowFold(shares, cost, isPayment, expenseId, |shares|).Failure? <==>
               exists j :: 0 <= j < |shares| && shares[j] > 0 && TriggersByAmount(shares[j], cost))
    ensures !isPayment && cost >= 0 ==> RowFold(shares, cost, isPayment, expenseId, |shares|).Success?
  {
    RowFoldIsExpected(shares, cost, isPayment, expenseId, |shares|);
    var first := FirstStuck(shares, cost, isPayment, |shares|);
    if first.Some? {
      assert StuckAt(shares, cost, isPayment, first.value);
    }
    if exists j :: 0 <= j < |shares| && TriggersByAmount(shares[j], cost) && !IsRecipient(shares[j], cost, isPayment) {
      var j :| 0 <= j < |shares| && TriggersByAmount(shares[j], cost) && !IsRecipient(shares[j], cost, isPayment);
      assert StuckAt(shares, cost, isPayment, j);
    }
    if !isPayment && cost >= 0 {
      forall j | 0 <= j < |shares| && TriggersByAmount(shares[j], cost)
        ensures IsRecipient(shares[j], cost, isPayment)
      {
        TriggerHasAllocation(shares[j], cost, isPayment);
      }
    }
  }

  /** A row whose nonzero shares are all the full cost or a clean half of an
      even cost stays EVENLY, and does not abort. */
  lemma EvenSplitStaysEvenly(shares: seq<int>, cost: int, isPayment: bool, expenseId: nat)
    requires cost % 2 == 0
    requires forall j :: 0 <= j < |shares| ==> shares[j] == 0 || Abs(shares[j]) == cost || Abs(shares[j]) == cost / 2
    ensures RowFold(shares, cost, isPayment, expenseId, |shares|).Success?
    ensures RowFold(shares, cost, isPayment, expenseId, |shares|).value.mode == Evenly
  {
    RowFoldIsExpected(shares, cost, isPayment, expenseId, |shares|);
    assert !AnyTrigger(shares, cost, |shares|);
  }

  /** Two participants splitting 10.00 evenly, the first having paid: both
      get an allocation without an explicit amount and the row stays
      EVENLY. */
  lemma ExampleEvenSplit()
    ensures RowFold([500, -500], 1000, false, 0, 2)
            == Success(RowState(Some(0), [Allocation(0, 0, None), Allocation(0, 1, None)], Evenly))
  {
    var shares := [500, -500];
    RowFoldIsExpected(shares, 1000, false, 0, 2);
    assert !AnyTrigger(shares, 1000, 2);
    assert FirstStuck(shares, 1000, false, 2).None?;
    assert LastPositive(shares, 2) == Some(0);
    assert ExpectedAllocations(shares, 1000, false, 0, 1) == [Allocation(0, 0, None)];
    assert ExpectedAllocations(shares, 1000, false, 0, 2) == [Allocation(0, 0, None), Allocation(0, 1, None)];
  }

  /** Three participants splitting 9.00 in thirds, the first having paid:
      every share triggers BY_AMOUNT and each allocation carries 3.00. */
  lemma ExampleThreeWaySplit()
    ensures RowFold([600, -300, -300], 900, false, 0, 3)
            == Success(RowState(Some(0), [Allocation(0, 0, Some(300)), Allocation(0, 1, Some(300)), Allocation(0, 2, Some(300))], ByAmount))
  {
    var shares := [600, -300, -300];
    RowFoldIsExpected(shares, 900, false, 0, 3);
    assert TriggersByAmount(shares[0], 900);
    assert AnyTrigger(shares, 900, 3);
    assert FirstStuck(shares, 900, false, 3).None?;
    assert LastPositive(shares, 3) == Some(0);
    assert ExpectedAllocations(shares, 900, false, 0, 1) == [Allocation(0, 0, Some(300))];
    assert ExpectedAllocations(shares, 900, false, 0, 2) == [Allocation(0, 0, Some(300)), Allocation(0, 1, Some(300))];
    assert ExpectedAllocations(shares, 900, false, 0, 3)
        == [Allocation(0, 0, Some(300)), Allocation(0, 1, Some(300)), Allocation(0, 2, Some(300))];
  }

  /** 10.01 paid in full by the first participant and owed 5.01 and 5.00 by
      the others: 5.01 is the rounded half and 5.00 the floored half, so no
      share triggers BY_AMOUNT; the payer, whose share is the whole cost, has
      no allocation. */
  /** Halves are taken of the exact cost in cents: 0.58 split +0.28/-0.28
      misses both halves (0.29) and goes BY_AMOUNT, the payer's allocation
      carrying 0.30 and the debtor's 0.28. */
  lemma ExampleWholeCentHalves()
    ensures RowFold([28, -28], 58, false, 0, 2)
            == Success(RowState(Some(0), [Allocation(0, 0, Some(30)), Allocation(0, 1, Some(28))], ByAmount))
  {
    var shares := [28, -28];
    RowFoldIsExpected(shares, 58, false, 0, 2);
    assert TriggersByAmount(shares[0], 58) && TriggersByAmount(shares[1], 58);
    assert AnyTrigger(shares, 58, 2);
    assert FirstStuck(shares, 58, false, 2).None?;
    assert LastPositive(shares, 2) == Some(0);
    assert SharesFor(shares[0], 58) == Some(30) && SharesFor(shares[1], 58) == Some(28);
    assert ExpectedAllocations(shares, 58, false, 0, 1) == [Allocation(0, 0, Some(30))];
    assert ExpectedAllocations(shares, 58, false, 0, 2) == [Allocation(0, 0, Some(30)), Allocation(0, 1, Some(28))];
  }

  lemma ExampleOddCentSplit()
    ensures RowFold([1001, -501, -500], 1001, false, 0, 3)
            == Success(RowState(Some(0), [Allocation(0, 1, None), Allocation(0, 2, None)], Evenly))
  {
    var shares := [1001, -501, -500];
    RowFoldIsExpected(shares, 1001, false, 0, 3);
    assert !TriggersByAmount(shares[0], 1001) && !TriggersByAmount(shares[1], 1001) && !TriggersByAmount(shares[2], 1001);
    assert !AnyTrigger(shares, 1001, 3);
    assert FirstStuck(shares, 1001, false, 3).None?;
    assert LastPositive(shares, 3) == Some(0);
    assert ExpectedAllocations(shares, 1001, false, 0, 1) == [];
    assert ExpectedAllocations(shares, 1001, false, 0, 2) == [Allocation(0, 1, None)];
    assert ExpectedAllocations(shares, 1001, false, 0, 3) == [Allocation(0, 1, None), Allocation(0, 2, None)];
  }

  /** A reimbursement whose payer's share is not the cost aborts: the payer
      has no allocation to carry its explicit amount. */
  lemma ExamplePaymentAborts()
    ensures RowFold([300, -1000], 1000, true, 0, 2) == Failure(ParticipantNotFound(Some(0)))
  {
    RowFoldIsExpected([300, -1000], 1000, true, 0, 2);
    assert StuckAt([300, -1000], 1000, true, 0);
  }
}
