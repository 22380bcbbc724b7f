/** Entities of the ledger importer: the rows of an expense-ledger export, the
    records the import produces (group, participants, expenses, expense
    allocations) and the errors that abort an import.

    Amounts are integer cents throughout. Identities are abstract: a
    participant is identified by its column index among the participant
    columns, an expense by the index of the row it came from, and the group
    by an identity supplied by the caller. */
module LedgerTypes {

  datatype Option<+T> = None | Some(value: T)

  /** Why an import aborts. */
  datatype ImportError =
    | EmptyLedger                          // the export has no row, so there is no header to read
    | CategoryNotFound(key: string)      // a normalised label has no translation
    | ParticipantNotFound(paidBy: Option<nat>)  // a BY_AMOUNT share has no allocation to go on

  datatype Result<+T> = Success(value: T) | Failure(error: ImportError) {
    predicate IsFailure() { Failure? }

    function PropagateFailure<U>(): Result<U>
      requires Failure?
    {
      Failure(error)
    }

    function Extract(): T
      requires Success?
    {
      value
    }
  }

  datatype SplitMode = Evenly | ByAmount

  /** One row of the export: the four metadata fields that are read and one
      signed share (in cents) per participant column, in header order. */
  datatype Row = Row(date: string, description: string, category: string, cost: int, shares: seq<int>)

  /** One entry of the category table of the application. */
  datatype CategoryRow = CategoryRow(name: string, id: int)

  datatype Group = Group(id: nat, name: string, currency: string)

  datatype Participant = Participant(id: nat, groupId: nat, name: string)

  datatype Expense = Expense(
    id: nat,
    amount: int,
    groupId: nat,
    title: string,
    expenseDate: string,
    categoryId: int,
    isReimbursement: bool,
    paidById: nat,
    splitMode: SplitMode)

  /** An expense-participant link; `shares` is the explicit amount in cents,
      present only once the row switched to BY_AMOUNT for that participant. */
  datatype Allocation = Allocation(expenseId: nat, participantId: nat, shares: Option<int>)

  /** Everything the import hands to persistence, in write order. */
  datatype ImportModel = ImportModel(
    group: Group,
    participants: seq<Participant>,
    expenses: seq<Expense>,
    allocations: seq<Allocation>)
}
