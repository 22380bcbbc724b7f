/** The importer as a whole: participants from the header, then every row in
    order through category resolution, column reconciliation and expense
    assembly, collecting expenses and allocations; the first error aborts the
    whole import before anything is handed to persistence. */
module Importer {
  import opened LedgerTypes
  import opened Category
  import opened Split
  import opened RowReconcile

  /** Date, Description, Category, Cost and Currency precede the participant
      columns. */
  const MetadataColumns: nat := 5

  /** Object.keys(data[0]).slice(5): the participant columns of the header. */
  function ParticipantNames(header: seq<string>): seq<string> {
    if |header| <= MetadataColumns then [] else header[MetadataColumns..]
  }

  /** One participant per participant column, in header order, each pushed
      with the next identity and the group's identity. */
  function MakeParticipants(groupId: nat, names: seq<string>): (ps: seq<Participant>)
    ensures |ps| == |names|
    ensures forall i :: 0 <= i < |ps| ==> ps[i].name == names[i] && ps[i].groupId == groupId
    ensures forall i, k :: 0 <= i < k < |ps| ==> ps[i].id != ps[k].id
    ensures forall i :: 0 <= i < |ps| ==> ps[i].id == i
  {
    if names == [] then []
    else
      var n := |names| - 1;
      MakeParticipants(groupId, names[..n]) + [Participant(n, groupId, names[n])]
  }

  /** Every row carries one share per participant column of the header. */
  predicate WellShaped(header: seq<string>, rows: seq<Row>) {
    forall i :: 0 <= i < |rows| ==> |rows[i].shares| == |ParticipantNames(header)|
  }

  /** The canonical category of a row is the reimbursement pseudo-category. */
  predicate IsPaymentRow(row: Row, translations: map<string, string>) {
    var key := NormaliseLabel(row.category);
    key in translations && translations[key] == Payment
  }

  /** What one row contributes: at most one expense, and its allocations. */
  datatype RowOutput = RowOutput(expense: Option<Expense>, allocations: seq<Allocation>)

  /** The body of the row loop for row `rowIndex`, whose expense identity is
      the row index. */
  function ProcessRow(row: Row, rowIndex: nat, groupId: nat, translations: map<string, string>, mapping: map<string, int>)
    : Result<RowOutput>
  {
    var category :- Resolve(row.category, translations);
    var isPayment := category == Payment;
    var st :- RowFold(row.shares, row.cost, isPayment, rowIndex, |row.shares|);
    var expense :=
      match st.paidBy
      case None => None
      case Some(p) =>
        Some(Expense(
          id := rowIndex,
          amount := row.cost,
          groupId := groupId,
          title := row.description,
          expenseDate := row.date,
          categoryId := CategoryId(category, mapping),
          isReimbursement := isPayment,
          paidById := p,
          splitMode := st.mode));
    Success(RowOutput(expense, st.allocations))
  }

  function OptionToSeq<T>(o: Option<T>): seq<T> {
    match o
    case None => []
    case Some(x) => [x]
  }

  /** The row loop over the first `n` rows: the expenses and allocations
      pushed so far, or the first error. */
  function ImportRows(rows: seq<Row>, n: nat, groupId: nat, translations: map<string, string>, mapping: map<string, int>)
    : Result<(seq<Expense>, seq<Allocation>)>
    requires n <= |rows|
  {
    if n == 0 then Success(([], []))
    else
      var acc :- ImportRows(rows, n - 1, groupId, translations, mapping);
      var out :- ProcessRow(rows[n - 1], n - 1, groupId, translations, mapping);
      Success((acc.0 + OptionToSeq(out.expense), acc.1 + out.allocations))
  }

  /** writeData without its I/O: the group, its participants, and the
      expenses and allocations of every row, or the error that aborts the
      import. An export without rows has no header to read and fails. */
  function Import(
    groupId: nat, groupName: string, currency: string,
    header: seq<string>, rows: seq<Row>,
    translations: map<string, string>, categories: seq<CategoryRow>)
    : Result<ImportModel>
    requires WellShaped(header, rows)
  {
    var mapping := CategoryMapping(categories);
    var group := Group(groupId, groupName, currency);
    if |rows| == 0 then Failure(EmptyLedger)
    else
      var participants := MakeParticipants(groupId, ParticipantNames(header));
      var acc :- ImportRows(rows, |rows|, groupId, translations, mapping);
      Success(ImportModel(group, participants, acc.0, acc.1))
  }

  // ---------------------------------------------------------------------
  // Reference description of one row
  // ---------------------------------------------------------------------

  /** A row goes through: its category translates and no column is stuck. */
  predicate RowAccepted(row: Row, translations: map<string, string>) {
    && NormaliseLabel(row.category) in translations
    && !AnyStuck(row.shares, row.cost, IsPaymentRow(row, translations), |row.shares|)
  }

  /** A row has a payer: some column holds a strictly positive share. */
  predicate HasPayer(row: Row) {
    exists j :: 0 <= j < |row.shares| && row.shares[j] > 0
  }

  /** The expense an accepted row with a payer produces. */
  function ExpectedExpense(row: Row, rowIndex: nat, groupId: nat, translations: map<string, string>, mapping: map<string, int>)
    : Expense
    requires NormaliseLabel(row.category) in translations && HasPayer(row)
  {
    var category := translations[NormaliseLabel(row.category)];
    var payer := LastPositive(row.shares, |row.shares|);
    Expense(rowIndex, row.cost, groupId, row.description, row.date,
            CategoryId(category, mapping), category == Payment, payer.value,
            ModeOf(row.shares, row.cost, |row.shares|))
  }

  /** A row goes through iff its category translates and no column is
      stuck; an untranslatable category aborts with the normalised label. */
  lemma ProcessRowSucceeds(row: Row, rowIndex: nat, groupId: nat, translations: map<string, string>, mapping: map<string, int>)
    ensures ProcessRow(row, rowIndex, groupId, translations, mapping).Success? <==> RowAccepted(row, translations)
    ensures NormaliseLabel(row.category) !in translations ==>
              ProcessRow(row, rowIndex, groupId, translations, mapping) == Failure(CategoryNotFound(NormaliseLabel(row.category)))
  {
    if NormaliseLabel(row.category) in translations {
      RowFoldIsExpected(row.shares, row.cost, IsPaymentRow(row, translations), rowIndex, |row.shares|);
    }
  }

  /** An accepted row yields an expense iff it has a payer, that expense is
      the reference one, and its allocations are the reference ones (kept
      even when there is no expense). */
  lemma ProcessRowOutput(row: Row, rowIndex: nat, groupId: nat, translations: map<string, string>, mapping: map<string, int>)
    requires RowAccepted(row, translations)
    ensures ProcessRow(row, rowIndex, groupId, translations, mapping).Success?
    ensures var out := ProcessRow(row, rowIndex, groupId, translations, mapping).value;
              && (out.expense.Some? <==> HasPayer(row))
              && (HasPayer(row) ==> out.expense.value == ExpectedExpense(row, rowIndex, groupId, translations, mapping))
              && out.allocations == ExpectedAllocations(row.shares, row.cost, IsPaymentRow(row, translations), rowIndex, |row.shares|)
  {
    var n := |row.shares|;
    RowFoldIsExpected(row.shares, row.cost, IsPaymentRow(row, translations), rowIndex, n);
    var lp := LastPositive(row.shares, n);
    if HasPayer(row) {
      var j :| 0 <= j < n && row.shares[j] > 0;
      assert lp.Some?;
    }
  }

  // ---------------------------------------------------------------------
  // Reference description of a whole import
  // ---------------------------------------------------------------------

  predicate AllAccepted(rows: seq<Row>, n: nat, translations: map<string, string>)
    requires n <= |rows|
  {
    forall i :: 0 <= i < n ==> RowAccepted(rows[i], translations)
  }

  /** The expenses of the first `n` rows: the reference expense of each row
      with a payer, in row order. */
  function ExpectedExpenses(rows: seq<Row>, n: nat, groupId: nat, translations: map<string, string>, mapping: map<string, int>)
    : seq<Expense>
    requires n <= |rows| && AllAccepted(rows, n, translations)
  {
    if n == 0 then []
    else
      ExpectedExpenses(rows, n - 1, groupId, translations, mapping)
      + (if HasPayer(rows[n - 1]) then [ExpectedExpense(rows[n - 1], n - 1, groupId, translations, mapping)] else [])
  }

  /** Each expense is the reference expense of the row whose index is its
      identity, a row among the first `n` with a payer. */
  predicate ExpensesSound(exps: seq<Expense>, rows: seq<Row>, n: nat, groupId: nat, translations: map<string, string>, mapping: map<string, int>)
    requires n <= |rows| && AllAccepted(rows, n, translations)
  {
    forall k :: 0 <= k < |exps| ==>
      && exps[k].id < n
      && HasPayer(rows[exps[k].id])
      && exps[k] == ExpectedExpense(rows[exps[k].id], exps[k].id, groupId, translations, mapping)
  }

  /** Expenses in strictly increasing row order: no row has two. */
  predicate ExpensesOrdered(exps: seq<Expense>) {
    forall k, l :: 0 <= k < l < |exps| ==> exps[k].id < exps[l].id
  }

  /** Extending the reference expenses by row `m` keeps them sound. */
  lemma ExpectedExpensesSoundStep(rows: seq<Row>, m: nat, groupId: nat, translations: map<string, string>, mapping: map<string, int>)
    requires m < |rows| && AllAccepted(rows, m + 1, translations)
    requires ExpensesSound(ExpectedExpenses(rows, m, groupId, translations, mapping), rows, m, groupId, translations, mapping)
    ensures ExpensesSound(ExpectedExpenses(rows, m + 1, groupId, translations, mapping), rows, m + 1, groupId, translations, mapping)
  {
    var prev := ExpectedExpenses(rows, m, groupId, translations, mapping);
    var exps := ExpectedExpenses(rows, m + 1, groupId, translations, mapping);
    forall k | 0 <= k < |exps|
      ensures exps[k].id < m + 1 && HasPayer(rows[exps[k].id])
      ensures exps[k] == ExpectedExpense(rows[exps[k].id], exps[k].id, groupId, translations, mapping)
    {
      if k < |prev| {
        assert exps[k] == prev[k];
      }
    }
  }

  /** Each reference expense is the reference expense of the row whose index
      is its identity, a row among the first `n` with a payer. */
  lemma {:induction false} ExpectedExpensesSound(rows: seq<Row>, n: nat, groupId: nat, translations: map<string, string>, mapping: map<string, int>)
    requires n <= |rows| && AllAccepted(rows, n, translations)
    ensures ExpensesSound(ExpectedExpenses(rows, n, groupId, translations, mapping), rows, n, groupId, translations, mapping)
  {
    if n > 0 {
      var m := n - 1;
      ExpectedExpensesSound(rows, m, groupId, translations, mapping);
      ExpectedExpensesSoundStep(rows, m, groupId, translations, mapping);
    }
  }

  /** The reference expenses are in strictly increasing row order, so no row
      has two. */
  lemma {:induction false} ExpectedExpensesOrdered(rows: seq<Row>, n: nat, groupId: nat, translations: map<string, string>, mapping: map<string, int>)
    requires n <= |rows| && AllAccepted(rows, n, translations)
    ensures ExpensesOrdered(ExpectedExpenses(rows, n, groupId, translations, mapping))
  {
    if n > 0 {
      var m := n - 1;
      ExpectedExpensesOrdered(rows, m, groupId, translations, mapping);
      ExpectedExpensesSound(rows, m, groupId, translations, mapping);
      var prev := ExpectedExpenses(rows, m, groupId, translations, mapping);
      var exps := ExpectedExpenses(rows, n, groupId, translations, mapping);
      forall k, l | 0 <= k < l < |exps|
        ensures exps[k].id < exps[l].id
      {
        assert exps[k] == prev[k];
        if l < |prev| {
          assert exps[l] == prev[l];
        }
      }
    }
  }

  /** Every row with a payer among the first `n` has a reference expense. */
  lemma {:induction false} ExpectedExpensesComplete(rows: seq<Row>, n: nat, groupId: nat, translations: map<string, string>, mapping: map<string, int>, i: nat)
    requires n <= |rows| && AllAccepted(rows, n, translations)
    requires i < n && HasPayer(rows[i])
    ensures exists k :: 0 <= k < |ExpectedExpenses(rows, n, groupId, translations, mapping)|
              && ExpectedExpenses(rows, n, groupId, translations, mapping)[k].id == i
  {
    var m := n - 1;
    var prev := ExpectedExpenses(rows, m, groupId, translations, mapping);
    var exps := ExpectedExpenses(rows, n, groupId, translations, mapping);
    if i < m {
      ExpectedExpensesComplete(rows, m, groupId, translations, mapping, i);
      var k :| 0 <= k < |prev| && prev[k].id == i;
      assert exps[k] == prev[k];
    } else {
      assert exps[|prev|].id == i;
    }
  }

  /** Whether each row is a reimbursement, in row order. */
  function PaymentFlags(rows: seq<Row>, translations: map<string, string>): seq<bool> {
    seq(|rows|, i requires 0 <= i < |rows| => IsPaymentRow(rows[i], translations))
  }

  /** The allocations of the first `n` rows, row after row, including rows
      that end up with no expense; `payments` tells which rows are
      reimbursements. */
  function AllAllocations(rows: seq<Row>, n: nat, payments: seq<bool>): seq<Allocation>
    requires n <= |rows| == |payments|
  {
    if n == 0 then []
    else
      var row := rows[n - 1];
      AllAllocations(rows, n - 1, payments)
      + ExpectedAllocations(row.shares, row.cost, payments[n - 1], n - 1, |row.shares|)
  }

  /** One turn of the row loop: the first error so far, else this row's
      error, else its outputs appended. */
  lemma ImportRowsStep(rows: seq<Row>, n: nat, groupId: nat, translations: map<string, string>, mapping: map<string, int>)
    requires 0 < n <= |rows|
    ensures var prev := ImportRows(rows, n - 1, groupId, translations, mapping);
      var out := ProcessRow(rows[n - 1], n - 1, groupId, translations, mapping);
      ImportRows(rows, n, groupId, translations, mapping)
      == if prev.Failure? then Failure(prev.error)
         else if out.Failure? then Failure(out.error)
         else Success((prev.value.0 + OptionToSeq(out.value.expense), prev.value.1 + out.value.allocations))
  {
  }

  /** Extending the loop by row `m` keeps success in step with
      acceptance. */
  lemma ImportRowsSucceedsStep(rows: seq<Row>, m: nat, groupId: nat, translations: map<string, string>, mapping: map<string, int>)
    requires m < |rows|
    requires ImportRows(rows, m, groupId, translations, mapping).Success? <==> AllAccepted(rows, m, translations)
    requires ProcessRow(rows[m], m, groupId, translations, mapping).Success? <==> RowAccepted(rows[m], translations)
    ensures ImportRows(rows, m + 1, groupId, translations, mapping).Success? <==> AllAccepted(rows, m + 1, translations)
  {
    ImportRowsStep(rows, m + 1, groupId, translations, mapping);
    if AllAccepted(rows, m, translations) && RowAccepted(rows[m], translations) {
      forall i | 0 <= i < m + 1 ensures RowAccepted(rows[i], translations) {
      }
    }
  }

  /** The row loop succeeds iff every row is accepted. */
  lemma {:induction false} ImportRowsSucceeds(rows: seq<Row>, n: nat, groupId: nat, translations: map<string, string>, mapping: map<string, int>)
    requires n <= |rows|
    ensures ImportRows(rows, n, groupId, translations, mapping).Success? <==> AllAccepted(rows, n, translations)
  {
    if n > 0 {
      var m := n - 1;
      ImportRowsSucceeds(rows, m, groupId, translations, mapping);
      ProcessRowSucceeds(rows[m], m, groupId, translations, mapping);
      ImportRowsSucceedsStep(rows, m, groupId, translations, mapping);
    }
  }

  /** Extending the loop by an accepted row `m` appends its reference
      expense, if it has a payer. */
  lemma ImportRowsExpensesStep(rows: seq<Row>, m: nat, groupId: nat, translations: map<string, string>, mapping: map<string, int>)
    requires m < |rows| && AllAccepted(rows, m + 1, translations)
    requires ImportRows(rows, m, groupId, translations, mapping).Success?
    requires ImportRows(rows, m, groupId, translations, mapping).value.0 == ExpectedExpenses(rows, m, groupId, translations, mapping)
    requires ProcessRow(rows[m], m, groupId, translations, mapping).Success?
    requires var out := ProcessRow(rows[m], m, groupId, translations, mapping).value;
      && (out.expense.Some? <==> HasPayer(rows[m]))
      && (HasPayer(rows[m]) ==> out.expense.value == ExpectedExpense(rows[m], m, groupId, translations, mapping))
    ensures ImportRows(rows, m + 1, groupId, translations, mapping).Success?
    ensures ImportRows(rows, m + 1, groupId, translations, mapping).value.0 == ExpectedExpenses(rows, m + 1, groupId, translations, mapping)
  {
    ImportRowsStep(rows, m + 1, groupId, translations, mapping);
    var out := ProcessRow(rows[m], m, groupId, translations, mapping).value;
    assert OptionToSeq(out.expense)
        == if HasPayer(rows[m]) then [ExpectedExpense(rows[m], m, groupId, translations, mapping)] else [];
  }

  /** On success the expenses are the reference expenses. */
  lemma {:induction false} ImportRowsExpenses(rows: seq<Row>, n: nat, groupId: nat, translations: map<string, string>, mapping: map<string, int>)
    requires n <= |rows| && AllAccepted(rows, n, translations)
    ensures ImportRows(rows, n, groupId, translations, mapping).Success?
    ensures ImportRows(rows, n, groupId, translations, mapping).value.0 == ExpectedExpenses(rows, n, groupId, translations, mapping)
  {
    if n > 0 {
      var m := n - 1;
      ImportRowsExpenses(rows, m, groupId, translations, mapping);
      ProcessRowOutput(rows[m], m, groupId, translations, mapping);
      ImportRowsExpensesStep(rows, m, groupId, translations, mapping);
    }
  }

  /** Extending the loop by an accepted row `m` appends its reference
      allocations. */
  lemma ImportRowsAllocationsStep(rows: seq<Row>, m: nat, groupId: nat, translations: map<string, string>, mapping: map<string, int>)
    requires m < |rows|
    requires ImportRows(rows, m, groupId, translations, mapping).Success?
    requires ImportRows(rows, m, groupId, translations, mapping).value.1 == AllAllocations(rows, m, PaymentFlags(rows, translations))
    requires ProcessRow(rows[m], m, groupId, translations, mapping).Success?
    requires ProcessRow(rows[m], m, groupId, translations, mapping).value.allocations
             == ExpectedAllocations(rows[m].shares, rows[m].cost, IsPaymentRow(rows[m], translations), m, |rows[m].shares|)
    ensures ImportRows(rows, m + 1, groupId, translations, mapping).Success?
    ensures ImportRows(rows, m + 1, groupId, translations, mapping).value.1 == AllAllocations(rows, m + 1, PaymentFlags(rows, translations))
  {
    ImportRowsStep(rows, m + 1, groupId, translations, mapping);
  }

  /** On success the allocations are those of every row, in row order. */
  lemma {:induction false} ImportRowsAllocations(rows: seq<Row>, n: nat, groupId: nat, translations: map<string, string>, mapping: map<string, int>)
    requires n <= |rows| && AllAccepted(rows, n, translations)
    ensures ImportRows(rows, n, groupId, translations, mapping).Success?
    ensures ImportRows(rows, n, groupId, translations, mapping).value.1 == AllAllocations(rows, n, PaymentFlags(rows, translations))
  {
    if n > 0 {
      var m := n - 1;
      ImportRowsAllocations(rows, m, groupId, translations, mapping);
      ProcessRowOutput(rows[m], m, groupId, translations, mapping);
      ImportRowsAllocationsStep(rows, m, groupId, translations, mapping);
    }
  }

  /** The row loop stops at the first row that is not accepted and reports
      that row's error. */
  lemma {:induction false} ImportRowsFirstError(rows: seq<Row>, n: nat, groupId: nat, translations: map<string, string>, mapping: map<string, int>, i: nat)
    requires i < n <= |rows|
    requires AllAccepted(rows, i, translations) && !RowAccepted(rows[i], translations)
    ensures ProcessRow(rows[i], i, groupId, translations, mapping).Failure?
    ensures ImportRows(rows, n, groupId, translations, mapping)
            == Failure(ProcessRow(rows[i], i, groupId, translations, mapping).error)
  {
    var m := n - 1;
    ProcessRowSucceeds(rows[i], i, groupId, translations, mapping);
    ImportRowsStep(rows, n, groupId, translations, mapping);
    if m == i {
      ImportRowsSucceeds(rows, i, groupId, translations, mapping);
    } else {
      ImportRowsFirstError(rows, m, groupId, translations, mapping, i);
    }
  }

  // ---------------------------------------------------------------------
  // Properties of the whole import
  // ---------------------------------------------------------------------

  /** The import succeeds iff the export has a row and every row is
      accepted; otherwise it yields only an error, so nothing (no group, no
      participant, no expense, no allocation) reaches persistence. */
  lemma ImportSucceedsIff(
    groupId: nat, groupName: string, currency: string, header: seq<string>, rows: seq<Row>,
    translations: map<string, string>, categories: seq<CategoryRow>)
    requires WellShaped(header, rows)
    ensures Import(groupId, groupName, currency, header, rows, translations, categories).Success? <==>
              |rows| > 0 && AllAccepted(rows, |rows|, translations)
    ensures |rows| == 0 ==> Import(groupId, groupName, currency, header, rows, translations, categories) == Failure(EmptyLedger)
  {
    ImportRowsSucceeds(rows, |rows|, groupId, translations, CategoryMapping(categories));
  }

  /** A row whose normalised category has no translation aborts the import;
      when every earlier row went through, the error names that label. */
  lemma ImportFailsOnUnknownCategory(
    groupId: nat, groupName: string, currency: string, header: seq<string>, rows: seq<Row>,
    translations: map<string, string>, categories: seq<CategoryRow>, i: nat)
    requires WellShaped(header, rows)
    requires i < |rows| && NormaliseLabel(rows[i].category) !in translations
    ensures Import(groupId, groupName, currency, header, rows, translations, categories).Failure?
    ensures AllAccepted(rows, i, translations) ==>
              Import(groupId, groupName, currency, header, rows, translations, categories)
              == Failure(CategoryNotFound(NormaliseLabel(rows[i].category)))
  {
    ImportSucceedsIff(groupId, groupName, currency, header, rows, translations, categories);
    assert !RowAccepted(rows[i], translations);
    if AllAccepted(rows, i, translations) {
      var mapping := CategoryMapping(categories);
      ImportRowsFirstError(rows, |rows|, groupId, translations, mapping, i);
      ProcessRowSucceeds(rows[i], i, groupId, translations, mapping);
    }
  }

  /** The participants: one per column after the first five, in header
      order, each with its own identity and the group's identity. */
  lemma ImportParticipants(
    groupId: nat, groupName: string, currency: string, header: seq<string>, rows: seq<Row>,
    translations: map<string, string>, categories: seq<CategoryRow>)
    requires WellShaped(header, rows)
    requires Import(groupId, groupName, currency, header, rows, translations, categories).Success?
    ensures var m := Import(groupId, groupName, currency, header, rows, translations, categories).value;
      && m.group == Group(groupId, groupName, currency)
      && |m.participants| == (if |header| <= 5 then 0 else |header| - 5)
      && (forall i :: 0 <= i < |m.participants| ==>
            m.participants[i].name == header[5 + i] && m.participants[i].groupId == groupId)
      && (forall i, k :: 0 <= i < k < |m.participants| ==> m.participants[i].id != m.participants[k].id)
  {
  }

  /** The expenses: exactly one per row with a positive share, in row
      order, identified by the row index, with the amount in cents, the
      reimbursement flag, the category id, the last positive column as payer
      and the row's split mode; a row without a positive share has none,
      and the rows after it are processed all the same. */
  lemma ImportExpenses(
    groupId: nat, groupName: string, currency: string, header: seq<string>, rows: seq<Row>,
    translations: map<string, string>, categories: seq<CategoryRow>)
    requires WellShaped(header, rows)
    requires Import(groupId, groupName, currency, header, rows, translations, categories).Success?
    ensures AllAccepted(rows, |rows|, translations)
    ensures var exps := Import(groupId, groupName, currency, header, rows, translations, categories).value.expenses;
      && ExpensesOrdered(exps)
      && (forall k :: 0 <= k < |exps| ==> exps[k].id < |rows| && HasPayer(rows[exps[k].id]))
      && (forall i :: 0 <= i < |rows| && HasPayer(rows[i]) ==> exists k :: 0 <= k < |exps| && exps[k].id == i)
      && (forall k :: 0 <= k < |exps| ==>
            var row := rows[exps[k].id];
            var category := translations[NormaliseLabel(row.category)];
            && exps[k].amount == row.cost
            && exps[k].groupId == groupId
            && exps[k].isReimbursement == (category == Payment)
            && exps[k].categoryId == CategoryId(category, CategoryMapping(categories))
            && exps[k].paidById == LastPositive(row.shares, |row.shares|).value
            && row.shares[exps[k].paidById] > 0
            && (forall q :: exps[k].paidById < q < |row.shares| ==> row.shares[q] <= 0)
            && (exps[k].splitMode == ByAmount <==> AnyTrigger(row.shares, row.cost, |row.shares|)))
  {
    var mapping := CategoryMapping(categories);
    ImportSucceedsIff(groupId, groupName, currency, header, rows, translations, categories);
    ImportRowsExpenses(rows, |rows|, groupId, translations, mapping);
    ExpectedExpensesSound(rows, |rows|, groupId, translations, mapping);
    ExpectedExpensesOrdered(rows, |rows|, groupId, translations, mapping);
    var exps := ExpectedExpenses(rows, |rows|, groupId, translations, mapping);
    forall i | 0 <= i < |rows| && HasPayer(rows[i])
      ensures exists k :: 0 <= k < |exps| && exps[k].id == i
    {
      ExpectedExpensesComplete(rows, |rows|, groupId, translations, mapping, i);
    }
  }

  /** The allocations: those of every row in row order, including the rows
      that produced no expense. */
  lemma ImportAllocations(
    groupId: nat, groupName: string, currency: string, header: seq<string>, rows: seq<Row>,
    translations: map<string, string>, categories: seq<CategoryRow>)
    requires WellShaped(header, rows)
    requires Import(groupId, groupName, currency, header, rows, translations, categories).Success?
    ensures Import(groupId, groupName, currency, header, rows, translations, categories).value.allocations
            == AllAllocations(rows, |rows|, PaymentFlags(rows, translations))
  {
    ImportSucceedsIff(groupId, groupName, currency, header, rows, translations, categories);
    ImportRowsAllocations(rows, |rows|, groupId, translations, CategoryMapping(categories));
  }
}
