/** Two defects of the importer and the behaviour it evidently intends.

    1. A row without a positive share produces no expense, but the
       allocations of its columns have already been pushed: they point at an
       expense that is never created.
    2. A row switches to BY_AMOUNT as soon as one share is not a clean full or
       half cost, but only the triggering shares receive an explicit amount:
       a participant whose share is exactly half the cost keeps none, so the
       explicit amounts of the expense do not add up to its cost.

    `ImportCorrected` keeps allocations only for rows that produce an
    expense and gives every allocation of a BY_AMOUNT expense its explicit
    amount. */
module Corrections {
  import opened LedgerTypes
  import opened Category
  import opened Split
  import opened RowReconcile
  import opened Importer

  // ---------------------------------------------------------------------
  // Defect 1, as written: allocations of a skipped row dangle
  // ---------------------------------------------------------------------

  /** Every allocation of row `i` appears among the allocations of the
      first `n` rows. */
  lemma {:induction false} AllAllocationsContains(rows: seq<Row>, n: nat, payments: seq<bool>, i: nat, a: Allocation)
    requires i < n <= |rows| == |payments|
    requires a in ExpectedAllocations(rows[i].shares, rows[i].cost, payments[i], i, |rows[i].shares|)
    ensures a in AllAllocations(rows, n, payments)
  {
    var m := n - 1;
    if i < m {
      AllAllocationsContains(rows, m, payments, i, a);
    }
  }

  /** As written: an accepted row with a recipient but no positive share
      leaves an allocation whose expense does not exist. */
  lemma SkippedRowAllocationsDangle(
    groupId: nat, groupName: string, currency: string, header: seq<string>, rows: seq<Row>,
    translations: map<string, string>, categories: seq<CategoryRow>, i: nat, j: nat)
    requires WellShaped(header, rows)
    requires Import(groupId, groupName, currency, header, rows, translations, categories).Success?
    requires i < |rows| && !HasPayer(rows[i])
    requires j < |rows[i].shares| && IsRecipient(rows[i].shares[j], rows[i].cost, IsPaymentRow(rows[i], translations))
    ensures var m := Import(groupId, groupName, currency, header, rows, translations, categories).value;
      exists k :: 0 <= k < |m.allocations| && m.allocations[k].expenseId == i
        && forall e :: e in m.expenses ==> e.id != i
  {
    var m := Import(groupId, groupName, currency, header, rows, translations, categories).value;
    var row := rows[i];
    var isPayment := IsPaymentRow(row, translations);
    ImportExpenses(groupId, groupName, currency, header, rows, translations, categories);
    ImportAllocations(groupId, groupName, currency, header, rows, translations, categories);
    ExpectedAllocationsComplete(row.shares, row.cost, isPayment, i, |row.shares|, j);
    ExpectedAllocationsSound(row.shares, row.cost, isPayment, i, |row.shares|);
    var own := ExpectedAllocations(row.shares, row.cost, isPayment, i, |row.shares|);
    var k0 :| 0 <= k0 < |own| && own[k0].participantId == j;
    AllAllocationsContains(rows, |rows|, PaymentFlags(rows, translations), i, own[k0]);
    var k :| 0 <= k < |m.allocations| && m.allocations[k] == own[k0];
    assert m.allocations[k].expenseId == i;
  }

  /** The lower-case label "food" carries no marker and normalises to
      itself. */
  lemma FoodLabel()
    ensures NormaliseLabel("food") == "food"
  {
    assert IsLower("food");
    ToLowerOfLower("food");
    AbsentByMissingChar("food", OtherEn, 5);
    RemoveFirstAbsent("food", OtherEn);
    AbsentByMissingChar("food", OtherFr, 4);
    RemoveFirstAbsent("food", OtherFr);
  }

  /** A dinner of 10.00 in which both participants hold a negative share. */
  const Dinner: Row := Row("2024-01-16", "Dinner", "food", 1000, [-500, -500])

  /** The dinner row goes through, has no payer, and allocates both columns
      with no explicit amount. */
  lemma DinnerRowFacts()
    ensures RowAccepted(Dinner, map["food" := "food"])
    ensures !IsPaymentRow(Dinner, map["food" := "food"]) && !HasPayer(Dinner)
    ensures ExpectedAllocations(Dinner.shares, 1000, false, 0, 2) == [Allocation(0, 0, None), Allocation(0, 1, None)]
  {
    FoodLabel();
    assert !AnyStuck(Dinner.shares, 1000, false, 2) by {
      forall j | 0 <= j < 2 ensures !StuckAt(Dinner.shares, 1000, false, j) {
        assert !TriggersByAmount(Dinner.shares[j], 1000);
      }
    }
    assert ExpectedAllocations(Dinner.shares, 1000, false, 0, 1) == [Allocation(0, 0, None)];
  }

  /** As written, on one concrete export: the dinner imports successfully
      with no expense and two allocations on the missing expense 0. */
  lemma DanglingAllocationExample()
    ensures var header := ["Date", "Description", "Category", "Cost", "Currency", "Ann", "Bob"];
      var r := Import(0, "Trip", "EUR", header, [Dinner], map["food" := "food"], []);
      && r.Success?
      && r.value.expenses == []
      && r.value.allocations == [Allocation(0, 0, None), Allocation(0, 1, None)]
  {
    var header := ["Date", "Description", "Category", "Cost", "Currency", "Ann", "Bob"];
    var rows := [Dinner];
    var translations := map["food" := "food"];
    DinnerRowFacts();
    assert ParticipantNames(header) == ["Ann", "Bob"];
    assert AllAccepted(rows, 1, translations);
    ImportSucceedsIff(0, "Trip", "EUR", header, rows, translations, []);
    ImportRowsExpenses(rows, 1, 0, translations, CategoryMapping([]));
    assert ExpectedExpenses(rows, 1, 0, translations, CategoryMapping([])) == [];
    ImportAllocations(0, "Trip", "EUR", header, rows, translations, []);
    assert AllAllocations(rows, 1, PaymentFlags(rows, translations)) == [Allocation(0, 0, None), Allocation(0, 1, None)];
  }

  // ---------------------------------------------------------------------
  // Defect 2, as written: a half-cost share keeps no explicit amount
  // ---------------------------------------------------------------------

  /** The sum of the explicit amounts of some allocations (none counts 0). */
  function SumExplicit(allocs: seq<Allocation>): int {
    if allocs == [] then 0
    else
      var last := allocs[|allocs| - 1];
      SumExplicit(allocs[..|allocs| - 1]) + (match last.shares case None => 0 case Some(x) => x)
  }

  /** As written, on one concrete row: 10.00 paid by the first participant,
      who owes 3.00, the second owing 5.00 and the third 2.00. The row is
      BY_AMOUNT, yet the second allocation has no explicit amount, and the
      explicit amounts add up to 5.00 instead of 10.00. */
  lemma MissingShareExample()
    ensures RowFold([700, -500, -200], 1000, false, 0, 3)
            == Success(RowState(Some(0), [Allocation(0, 0, Some(300)), Allocation(0, 1, None), Allocation(0, 2, Some(200))], ByAmount))
    ensures SumExplicit([Allocation(0, 0, Some(300)), Allocation(0, 1, None), Allocation(0, 2, Some(200))]) == 500
  {
    var shares := [700, -500, -200];
    RowFoldIsExpected(shares, 1000, false, 0, 3);
    assert TriggersByAmount(shares[0], 1000) && !TriggersByAmount(shares[1], 1000);
    assert AnyTrigger(shares, 1000, 3);
    assert FirstStuck(shares, 1000, false, 3).None?;
    assert LastPositive(shares, 3) == Some(0);
    assert ExpectedAllocations(shares, 1000, false, 0, 1) == [Allocation(0, 0, Some(300))];
    assert ExpectedAllocations(shares, 1000, false, 0, 2) == [Allocation(0, 0, Some(300)), Allocation(0, 1, None)];
    assert ExpectedAllocations(shares, 1000, false, 0, 3)
        == [Allocation(0, 0, Some(300)), Allocation(0, 1, None), Allocation(0, 2, Some(200))];
    var allocs := [Allocation(0, 0, Some(300)), Allocation(0, 1, None), Allocation(0, 2, Some(200))];
    assert allocs[..2][..1] == [Allocation(0, 0, Some(300))];
    assert SumExplicit(allocs[..2][..1]) == 300;
  }

  // ---------------------------------------------------------------------
  // The corrected importer
  // ---------------------------------------------------------------------

  function ShareOf(shares: seq<int>, participant: nat): int {
    if participant < |shares| then shares[participant] else 0
  }

  /** Every allocation receives the explicit amount of its participant. */
  function FillShares(allocs: seq<Allocation>, shares: seq<int>, cost: int): (r: seq<Allocation>)
    ensures |r| == |allocs|
    ensures forall k :: 0 <= k < |r| ==>
              r[k] == allocs[k].(shares := Some(ExplicitShare(ShareOf(shares, allocs[k].participantId), cost)))
  {
    if allocs == [] then []
    else
      var last := allocs[|allocs| - 1];
      FillShares(allocs[..|allocs| - 1], shares, cost)
      + [last.(shares := Some(ExplicitShare(ShareOf(shares, last.participantId), cost)))]
  }

  /** A row with the corrections applied: no allocation without an expense,
      and every allocation of a BY_AMOUNT expense with its explicit amount. */
  function ProcessRowCorrected(row: Row, rowIndex: nat, groupId: nat, translations: map<string, string>, mapping: map<string, int>)
    : Result<RowOutput>
  {
    var out :- ProcessRow(row, rowIndex, groupId, translations, mapping);
    var allocs :=
      match out.expense
      case None => []
      case Some(e) => if e.splitMode == ByAmount then FillShares(out.allocations, row.shares, row.cost) else out.allocations;
    Success(RowOutput(out.expense, allocs))
  }

  function ImportRowsCorrected(rows: seq<Row>, n: nat, groupId: nat, translations: map<string, string>, mapping: map<string, int>)
    : Result<(seq<Expense>, seq<Allocation>)>
    requires n <= |rows|
  {
    if n == 0 then Success(([], []))
    else
      var acc :- ImportRowsCorrected(rows, n - 1, groupId, translations, mapping);
      var out :- ProcessRowCorrected(rows[n - 1], n - 1, groupId, translations, mapping);
      Success((acc.0 + OptionToSeq(out.expense), acc.1 + out.allocations))
  }

  /** The importer with both corrections. */
  function ImportCorrected(
    groupId: nat, groupName: string, currency: string,
    header: seq<string>, rows: seq<Row>,
    translations: map<string, string>, categories: seq<CategoryRow>)
    : Result<ImportModel>
    requires WellShaped(header, rows)
  {
    var mapping := CategoryMapping(categories);
    var group := Group(groupId, groupName, currency);
    if |rows| == 0 then Failure(EmptyLedger)
    else
      var participants := MakeParticipants(groupId, ParticipantNames(header));
      var acc :- ImportRowsCorrected(rows, |rows|, groupId, translations, mapping);
      Success(ImportModel(group, participants, acc.0, acc.1))
  }

  function ExpenseIds(exps: seq<Expense>): set<nat> {
    set e | e in exps :: e.id
  }

  /** The corrections never change whether a row goes through. */
  lemma ProcessRowCorrectedSucceeds(row: Row, rowIndex: nat, groupId: nat, translations: map<string, string>, mapping: map<string, int>)
    ensures ProcessRowCorrected(row, rowIndex, groupId, translations, mapping).Success? <==> RowAccepted(row, translations)
  {
    ProcessRowSucceeds(row, rowIndex, groupId, translations, mapping);
  }

  /** A corrected accepted row: the same expense as before; no allocation
      without it; with it, the reference allocations, each given its
      explicit amount when the expense is BY_AMOUNT. */
  lemma ProcessRowCorrectedOutput(row: Row, rowIndex: nat, groupId: nat, translations: map<string, string>, mapping: map<string, int>)
    requires RowAccepted(row, translations)
    ensures ProcessRowCorrected(row, rowIndex, groupId, translations, mapping).Success?
    ensures var out := ProcessRowCorrected(row, rowIndex, groupId, translations, mapping).value;
      var allocs := ExpectedAllocations(row.shares, row.cost, IsPaymentRow(row, translations), rowIndex, |row.shares|);
      && (out.expense.Some? <==> HasPayer(row))
      && (HasPayer(row) ==> out.expense.value == ExpectedExpense(row, rowIndex, groupId, translations, mapping))
      && (!HasPayer(row) ==> out.allocations == [])
      && (HasPayer(row) && out.expense.value.splitMode == ByAmount ==> out.allocations == FillShares(allocs, row.shares, row.cost))
      && (HasPayer(row) && out.expense.value.splitMode == Evenly ==> out.allocations == allocs)
  {
    ProcessRowOutput(row, rowIndex, groupId, translations, mapping);
  }

  /** Every allocation points at one of the expenses. */
  predicate Linked(exps: seq<Expense>, allocs: seq<Allocation>) {
    forall k :: 0 <= k < |allocs| ==> allocs[k].expenseId in ExpenseIds(exps)
  }

  /** A corrected row's allocations all point at the row's own expense,
      which exists. */
  lemma ProcessRowCorrectedLinked(row: Row, rowIndex: nat, groupId: nat, translations: map<string, string>, mapping: map<string, int>)
    requires ProcessRowCorrected(row, rowIndex, groupId, translations, mapping).Success?
    ensures var out := ProcessRowCorrected(row, rowIndex, groupId, translations, mapping).value;
      && (out.expense.Some? ==> out.expense.value.id == rowIndex)
      && Linked(OptionToSeq(out.expense), out.allocations)
  {
    ProcessRowCorrectedSucceeds(row, rowIndex, groupId, translations, mapping);
    ProcessRowCorrectedOutput(row, rowIndex, groupId, translations, mapping);
    ExpectedAllocationsSound(row.shares, row.cost, IsPaymentRow(row, translations), rowIndex, |row.shares|);
    var out := ProcessRowCorrected(row, rowIndex, groupId, translations, mapping).value;
    if out.expense.Some? {
      assert out.expense.value in OptionToSeq(out.expense);
    }
  }

  lemma LinkedAppend(e1: seq<Expense>, a1: seq<Allocation>, e2: seq<Expense>, a2: seq<Allocation>)
    requires Linked(e1, a1) && Linked(e2, a2)
    ensures Linked(e1 + e2, a1 + a2)
  {
    assert ExpenseIds(e1) <= ExpenseIds(e1 + e2);
    assert ExpenseIds(e2) <= ExpenseIds(e1 + e2);
    forall k | 0 <= k < |a1 + a2|
      ensures (a1 + a2)[k].expenseId in ExpenseIds(e1 + e2)
    {
      if k < |a1| {
        assert (a1 + a2)[k] == a1[k];
      } else {
        assert (a1 + a2)[k] == a2[k - |a1|];
      }
    }
  }

  /** One turn of the corrected row loop. */
  lemma ImportRowsCorrectedStep(rows: seq<Row>, m: nat, groupId: nat, translations: map<string, string>, mapping: map<string, int>)
    requires m < |rows|
    ensures var prev := ImportRowsCorrected(rows, m, groupId, translations, mapping);
      var out := ProcessRowCorrected(rows[m], m, groupId, translations, mapping);
      ImportRowsCorrected(rows, m + 1, groupId, translations, mapping)
      == if prev.Failure? then Failure(prev.error)
         else if out.Failure? then Failure(out.error)
         else Success((prev.value.0 + OptionToSeq(out.value.expense), prev.value.1 + out.value.allocations))
  {
  }

  /** Corrected: every allocation points at an expense of the import. */
  lemma {:induction false} ImportRowsCorrectedLinked(rows: seq<Row>, n: nat, groupId: nat, translations: map<string, string>, mapping: map<string, int>)
    requires n <= |rows|
    requires ImportRowsCorrected(rows, n, groupId, translations, mapping).Success?
    ensures var acc := ImportRowsCorrected(rows, n, groupId, translations, mapping).value;
      Linked(acc.0, acc.1)
  {
    if n > 0 {
      var m := n - 1;
      ImportRowsCorrectedStep(rows, m, groupId, translations, mapping);
      ImportRowsCorrectedLinked(rows, m, groupId, translations, mapping);
      ProcessRowCorrectedLinked(rows[m], m, groupId, translations, mapping);
      var prev := ImportRowsCorrected(rows, m, groupId, translations, mapping).value;
      var out := ProcessRowCorrected(rows[m], m, groupId, translations, mapping).value;
      LinkedAppend(prev.0, prev.1, OptionToSeq(out.expense), out.allocations);
    }
  }

  lemma ImportCorrectedLinked(
    groupId: nat, groupName: string, currency: string, header: seq<string>, rows: seq<Row>,
    translations: map<string, string>, categories: seq<CategoryRow>)
    requires WellShaped(header, rows)
    requires ImportCorrected(groupId, groupName, currency, header, rows, translations, categories).Success?
    ensures var m := ImportCorrected(groupId, groupName, currency, header, rows, translations, categories).value;
      forall k :: 0 <= k < |m.allocations| ==> exists e :: e in m.expenses && e.id == m.allocations[k].expenseId
  {
    ImportRowsCorrectedLinked(rows, |rows|, groupId, translations, CategoryMapping(categories));
    var m := ImportCorrected(groupId, groupName, currency, header, rows, translations, categories).value;
    forall k | 0 <= k < |m.allocations|
      ensures exists e :: e in m.expenses && e.id == m.allocations[k].expenseId
    {
      assert m.allocations[k].expenseId in ExpenseIds(m.expenses);
    }
  }

  // ---------------------------------------------------------------------
  // Corrected: explicit amounts add up to the cost
  // ---------------------------------------------------------------------

  function SumShares(shares: seq<int>, n: nat): int
    requires n <= |shares|
  {
    if n == 0 then 0 else SumShares(shares, n - 1) + shares[n - 1]
  }

  function CountPositive(shares: seq<int>, n: nat): nat
    requires n <= |shares|
  {
    if n == 0 then 0 else CountPositive(shares, n - 1) + (if shares[n - 1] > 0 then 1 else 0)
  }

  /** The cost counted once per column with a positive share. */
  function PayerTotal(shares: seq<int>, cost: int, n: nat): int
    requires n <= |shares|
  {
    if n == 0 then 0 else PayerTotal(shares, cost, n - 1) + (if shares[n - 1] > 0 then cost else 0)
  }

  lemma {:induction false} PayerTotalIsProduct(shares: seq<int>, cost: int, n: nat)
    requires n <= |shares|
    ensures PayerTotal(shares, cost, n) == cost * CountPositive(shares, n)
  {
    if n > 0 {
      PayerTotalIsProduct(shares, cost, n - 1);
      var c := CountPositive(shares, n - 1);
      assert cost * (c + 1) == cost * c + cost;
    }
  }

  lemma FillSharesSnoc(allocs: seq<Allocation>, a: Allocation, shares: seq<int>, cost: int)
    ensures FillShares(allocs + [a], shares, cost)
            == FillShares(allocs, shares, cost) + [a.(shares := Some(ExplicitShare(ShareOf(shares, a.participantId), cost)))]
  {
    assert (allocs + [a])[..|allocs|] == allocs;
  }

  lemma SumExplicitSnoc(allocs: seq<Allocation>, a: Allocation, x: int)
    requires a.shares == Some(x)
    ensures SumExplicit(allocs + [a]) == SumExplicit(allocs) + x
  {
    assert (allocs + [a])[..|allocs|] == allocs;
  }

  /** What one column of an ordinary row contributes once filled: minus its
      share, plus the cost when it is the payer's column. */
  lemma ColumnStake(s: int, cost: int)
    requires cost > 0
    ensures (if IsRecipient(s, cost, false) then ExplicitShare(s, cost) else 0) == (if s > 0 then cost else 0) - s
  {
  }

  /** On an ordinary row with a positive cost, filling every allocation's
      explicit amount gives each column its stake: minus its share, plus the
      cost for the payer. */
  lemma {:induction false} FilledSum(shares: seq<int>, cost: int, expenseId: nat, n: nat)
    requires n <= |shares| && cost > 0
    ensures SumExplicit(FillShares(ExpectedAllocations(shares, cost, false, expenseId, n), shares, cost))
            == PayerTotal(shares, cost, n) - SumShares(shares, n)
  {
    if n > 0 {
      FilledSum(shares, cost, expenseId, n - 1);
      var prev := ExpectedAllocations(shares, cost, false, expenseId, n - 1);
      var s := shares[n - 1];
      ColumnStake(s, cost);
      if IsRecipient(s, cost, false) {
        var a := Allocation(expenseId, n - 1, SharesFor(s, cost));
        assert ExpectedAllocations(shares, cost, false, expenseId, n) == prev + [a];
        FillSharesSnoc(prev, a, shares, cost);
        SumExplicitSnoc(FillShares(prev, shares, cost),
                        a.(shares := Some(ExplicitShare(ShareOf(shares, a.participantId), cost))),
                        ExplicitShare(s, cost));
      } else {
        assert ExpectedAllocations(shares, cost, false, expenseId, n) == prev;
      }
    }
  }

  /** Corrected: on an ordinary row with a positive cost whose shares net to
      zero with a single payer, an expense that ends BY_AMOUNT carries
      explicit amounts that add up to its amount. */
  lemma CorrectedSharesSumToAmount(row: Row, rowIndex: nat, groupId: nat, translations: map<string, string>, mapping: map<string, int>)
    requires ProcessRowCorrected(row, rowIndex, groupId, translations, mapping).Success?
    requires !IsPaymentRow(row, translations) && row.cost > 0
    requires SumShares(row.shares, |row.shares|) == 0 && CountPositive(row.shares, |row.shares|) == 1
    requires ProcessRowCorrected(row, rowIndex, groupId, translations, mapping).value.expense.Some?
    requires ProcessRowCorrected(row, rowIndex, groupId, translations, mapping).value.expense.value.splitMode == ByAmount
    ensures var out := ProcessRowCorrected(row, rowIndex, groupId, translations, mapping).value;
      SumExplicit(out.allocations) == out.expense.value.amount
  {
    ProcessRowCorrectedSucceeds(row, rowIndex, groupId, translations, mapping);
    ProcessRowCorrectedOutput(row, rowIndex, groupId, translations, mapping);
    FilledSum(row.shares, row.cost, rowIndex, |row.shares|);
    PayerTotalIsProduct(row.shares, row.cost, |row.shares|);
  }
}
