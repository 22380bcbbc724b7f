# Ledger export import, modelled in Dafny

This project models `writeData` in `src/scripts/import.ts`. It is the script
that turns an expense-ledger export into a group, its participants, its
expenses and the expense–participant allocations. An export has one row per
expense. Five metadata columns (Date, Description, Category, Cost, Currency)
are followed by one signed share column per participant. The model covers:

- **Category map.** The map from lower-cased category name to category id,
  built from the application's categories (`Category.CategoryMapping`).
- **Participants.** One participant per header column after the first five
  (`Importer.MakeParticipants`).
- **Category resolution.** A row's label is lower-cased. The first
  " - other" is removed, then the first " - autre", and the result is looked
  up in the translation table. A missing entry aborts the whole import
  (`Category.NormaliseLabel`, `Category.Resolve`).
- **Column reconciliation.** Columns are visited left to right
  (`RowReconcile.Visit`, `RowReconcile.RowFold`, `RowReconcile.ReconcileRow`):
  - the last column with a positive share becomes the payer;
  - every recipient gets an allocation;
  - a nonzero share whose magnitude is neither the cost nor any of the
    three half-cost candidates switches the row to BY_AMOUNT and writes an
    explicit amount onto that participant's allocation, or aborts when the
    participant has none.
- **Expense assembly.** A row with a payer produces one expense
  (`Importer.ProcessRow`). All rows are folded in order, and the first error
  aborts everything (`Importer.ImportRows`, `Importer.Import`).

Amounts are integer cents. On whole cents the three half-cost candidates
of the source are `HalfFloor(c) = c / 2` (Math.floor) and
`HalfCeil(c) = HalfRound(c) = (c + 1) / 2` (Math.ceil, and Math.round, which
rounds a tie upward). Dafny's `/` by 2 floors, so these are exact for
negative costs too. The script computes them from `Cost * 100` in floating
point, which is not always a whole number (see "## Left out").

Identities are abstract:
- a participant is its column index among the participant columns;
- an expense is its row index;
- the group identity is a parameter.

The source looks an allocation up with `find` over the list of all
allocations. That list can only match allocations of the current row,
because every row gets a fresh expense identity. The model therefore looks
only in the row's own allocations.

Each operation has a reference description next to it:
`RowReconcile.Expected` for a row, and `Importer.ExpectedExpenses` and
`Importer.AllAllocations` for a whole import. A lemma proves that the
importer's fold computes exactly the reference. The properties below are
stated against these references.

Where the importer's documentation and its code disagree, the model
follows the code:

- **Marker removal.** It is not limited to a trailing marker. `String.replace`
  removes the first occurrence anywhere in the label, and only one per
  marker: "a - other - other" normalises to "a - other", so normalisation is
  not idempotent.
- **Split mode on reimbursements.** It is decided on `payment` rows too. A
  payment recipient whose share triggers gets an explicit amount and the
  row becomes BY_AMOUNT. A payer whose share triggers has no allocation, so
  the import aborts.
- **Recipients of a payment row.** Every participant with a negative share
  gets an allocation, not exactly one.
- **The BY_AMOUNT test.** A share triggers BY_AMOUNT when it is nonzero
  and its magnitude is neither the cost nor any of the three half-cost
  candidates. The test does not ask whether the three candidates agree.
  A cost of 10.01 split +10.01/−5.01/−5.00 stays EVENLY, because 5.01 is the rounded half and 5.00 the floored half.
- **Explicit amounts.** Under BY_AMOUNT they do not always add up to the
  expense amount (see Findings).

## Model

| member | source | states |
|---|---|---|
| Category.CategoryMappingKeys | src/scripts/import.ts:18-20 | the category map's keys are exactly the lower-cased names of the categories |
| Category.CategoryMappingLastWins | src/scripts/import.ts:18-20 | each key maps to the id of the last category with that lower-cased name |
| Category.CategoryIdOfCategories | src/scripts/import.ts:152-155 | an expense's category id is 1 for `payment`; otherwise it is the id of the last category whose lower-cased name is the canonical key, or 1 when there is none |
| Importer.MakeParticipants | src/scripts/import.ts:35-46 | one participant per participant column, in header order, each with the group's id and its own distinct id |
| Importer.ImportParticipants | src/scripts/import.ts:22-46 | a successful import has the given group and exactly one participant per header column after the first five, in order, with distinct ids |
| Category.ToLowerSpec | src/scripts/import.ts:57 | lower-casing maps every character to its lower-case form in place, so the result is lower-case |
| Category.ToLowerOfLower | src/scripts/import.ts:57 | lower-casing a lower-case label changes nothing |
| Category.ToLowerAppend | src/scripts/import.ts:57 | lower-casing distributes over concatenation |
| Category.IndexOfFromSpec | src/scripts/import.ts:57-61 | the pattern search returns an occurrence that is the first one at or after its start, and returns nothing only when there is none |
| Category.RemoveFirstAbsent | src/scripts/import.ts:57-61 | removing a marker the label does not contain leaves the label unchanged |
| Category.RemoveFirstOccurrence | src/scripts/import.ts:57-61 | removing a marker cuts exactly its first occurrence out of the label |
| Category.RemoveFirstKeepsLower | src/scripts/import.ts:57-61 | removing a marker keeps a lower-case label lower-case |
| Category.NormaliseShape | src/scripts/import.ts:57-61 | a normalised label is lower-case and as long as the raw label, or shorter by one or two markers |
| Category.NormaliseWithoutMarkers | src/scripts/import.ts:57-61 | a label holding neither marker is only lower-cased |
| Category.NormaliseStripsOtherSuffix | src/scripts/import.ts:56-60 | "Name - Other" normalises to the lower-cased name when that marker is the first in the label and no " - autre" is present |
| Category.NormaliseOneMarker | src/scripts/import.ts:57-61 | a lower-case label loses its first " - other", wherever it stands, when no " - autre" remains once it is gone |
| Category.NormaliseInnerMarker | src/scripts/import.ts:57-61 | a " - other" between two lower-case parts is removed even when text follows it, provided the part before it cannot hold an earlier " - other" (it has no 'h') and neither part can hold " - autre" (neither has a 'u') |
| Category.NormaliseRemovesInnerMarker | src/scripts/import.ts:57-61 | "sports - other games" normalises to "sports games" |
| Category.NormaliseNotIdempotent | src/scripts/import.ts:57-61 | normalising "a - other - other" gives "a - other", and normalising that again gives "a" |
| Category.OtherSuffixSameLabel | src/scripts/import.ts:56-61 | "Name - Other" and "Name" share one normal form when the appended marker is the first " - other" and no " - autre" is present |
| Category.ResolveOtherSuffix | src/scripts/import.ts:56-68 | under the same conditions an "other" sub-category resolves exactly as its parent category, translation or error alike |
| Split.HalfFloor | src/scripts/import.ts:98 | the floored half is the largest whole cent not above half the cost |
| Split.HalfCeil | src/scripts/import.ts:99 | the ceiled half is the smallest whole cent not below half the cost |
| Split.HalfRound | src/scripts/import.ts:97 | the rounded half is the nearest whole cent to half the cost, a tie going upward |
| Split.AsWrittenIsEffective | src/scripts/import.ts:101-110 | the eight-conjunct test holds iff the share is nonzero and its magnitude differs from the cost and from each half-cost candidate |
| Split.TriggersByAmountOnCents | src/scripts/import.ts:96-110 | on cents a share triggers iff it is nonzero, its magnitude is not the cost, and twice its magnitude is more than one cent from the cost |
| Split.HalvesAgreeIffEven | src/scripts/import.ts:97-99 | the three half-cost candidates agree iff the cost is an even number of cents |
| Split.EvenHalfStaysEvenly | src/scripts/import.ts:96-110 | a clean half of an even cost never triggers BY_AMOUNT |
| Split.TriggerHasAllocation | src/scripts/import.ts:77-94 | a triggering share has an allocation unless it is a payment row's positive share or an ordinary row's share equal to a negative cost; on an ordinary row with a non-negative cost it always has one |
| Split.ExplicitShareIsOwed | src/scripts/import.ts:134-140 | with an export share of paid minus owed, where only the payer paid and paid the whole cost, the explicit amount is exactly what the participant owes, payer included |
| RowReconcile.FindAllocationFrom | src/scripts/import.ts:125-129 | the lookup returns the first allocation of the participant on the expense, and nothing only when there is none |
| RowReconcile.LastPositive | src/scripts/import.ts:74-75 | the payer is the last column with a positive share, and there is none iff no share is positive |
| RowReconcile.FirstStuck | src/scripts/import.ts:125-132 | the first column whose share triggers BY_AMOUNT without an allocation, and none iff there is no such column |
| RowReconcile.ExpectedAllocationsSound | src/scripts/import.ts:77-94 | every reference allocation is on the row's expense, belongs to a recipient, and carries an explicit amount iff that recipient's share triggers |
| RowReconcile.ExpectedAllocationsOrdered | src/scripts/import.ts:72-94 | reference allocations are in strictly increasing column order, so nobody has two |
| RowReconcile.ExpectedAllocationsComplete | src/scripts/import.ts:77-94 | every recipient has a reference allocation |
| RowReconcile.ModeMonotone | src/scripts/import.ts:101-123 | on the reference description, once a row is BY_AMOUNT it stays BY_AMOUNT for its remaining columns |
| RowReconcile.RowFoldModeMonotone | src/scripts/import.ts:70-143 | the column loop never switches a row back to EVENLY: BY_AMOUNT after some columns stays BY_AMOUNT after every later column |
| RowReconcile.VisitStep | src/scripts/import.ts:72-142 | visiting one column takes the reference state of the columns before it to the reference outcome including it |
| RowReconcile.RowFoldIsExpected | src/scripts/import.ts:72-143 | the column loop computes exactly the reference outcome |
| RowReconcile.ReconcileRow | src/scripts/import.ts:72-143 | the loop aborts iff some column is stuck, with a participant-not-found error; otherwise it yields the last positive column as payer, exactly the reference allocations, and BY_AMOUNT iff some share triggers |
| RowReconcile.RowAllocationsExact | src/scripts/import.ts:77-94 | a reconciled row allocates each recipient exactly once and nobody else, in column order, on its own expense, with an explicit amount iff the share triggered |
| RowReconcile.RowPayer | src/scripts/import.ts:74-75 | a reconciled row's payer has a positive share, no later column does, and there is no payer iff no share is positive |
| RowReconcile.RowMode | src/scripts/import.ts:70-123 | a reconciled row is BY_AMOUNT iff some share triggers it |
| RowReconcile.RowAborts | src/scripts/import.ts:125-132 | a row aborts iff some triggering share has no allocation; on a payment row iff some positive share triggers; an ordinary row with a non-negative cost never aborts |
| RowReconcile.EvenSplitStaysEvenly | src/scripts/import.ts:96-123 | a row whose nonzero shares are all the cost or half an even cost goes through EVENLY |
| RowReconcile.ExampleEvenSplit | src/scripts/import.ts:72-142 | 10.00 paid by A and split with B: two allocations without amounts, EVENLY |
| RowReconcile.ExampleThreeWaySplit | src/scripts/import.ts:72-142 | 9.00 split in thirds: every allocation carries 3.00, BY_AMOUNT |
| RowReconcile.ExampleOddCentSplit | src/scripts/import.ts:72-142 | 10.01 split +10.01/−5.01/−5.00 stays EVENLY with allocations for the two debtors only |
| RowReconcile.ExamplePaymentAborts | src/scripts/import.ts:125-132 | a reimbursement of 10.00 whose payer's share is 3.00 aborts, naming the payer |
| Importer.ProcessRowSucceeds | src/scripts/import.ts:56-68 | a row goes through iff its category translates and no column is stuck; an untranslatable category fails with the normalised label |
| Importer.ProcessRowOutput | src/scripts/import.ts:145-161 | an accepted row yields an expense iff it has a positive share; that expense is the reference one, and its allocations are the reference ones, kept even without an expense |
| Importer.ExpectedExpensesSound | src/scripts/import.ts:145-161 | each reference expense is that of a row with a payer, identified by the row's index |
| Importer.ExpectedExpensesOrdered | src/scripts/import.ts:52-162 | reference expenses follow row order, at most one per row |
| Importer.ExpectedExpensesComplete | src/scripts/import.ts:145-161 | every row with a payer has a reference expense |
| Importer.ImportRowsSucceeds | src/scripts/import.ts:52-162 | the row loop succeeds iff every row is accepted |
| Importer.ImportRowsExpenses | src/scripts/import.ts:52-162 | on success the loop's expenses are exactly the reference expenses |
| Importer.ImportRowsAllocations | src/scripts/import.ts:52-162 | on success the loop's allocations are those of every row, in row order |
| Importer.ImportRowsFirstError | src/scripts/import.ts:52-162 | the loop fails with the error of the first row that is not accepted |
| Importer.ImportSucceedsIff | src/scripts/import.ts:35-174 | the import succeeds iff there is a row and every row is accepted; otherwise it yields only an error, so nothing reaches persistence |
| Importer.ImportFailsOnUnknownCategory | src/scripts/import.ts:64-66 | an untranslatable category aborts the import, with that label when every earlier row went through |
| Importer.ImportExpenses | src/scripts/import.ts:145-161 | one expense per row with a positive share, in row order, with the row's cost, the group, the reimbursement flag, the category id, the last positive column as payer and BY_AMOUNT iff some share triggers |
| Importer.ImportAllocations | src/scripts/import.ts:78-94 | the allocations are those of every row in row order, including rows that produced no expense |
| Corrections.SkippedRowAllocationsDangle | src/scripts/import.ts:78-94 | an accepted row with a recipient and no positive share leaves an allocation on an expense that the import does not contain |
| Corrections.DanglingAllocationExample | src/scripts/import.ts:145-161 | a 10.00 dinner with shares −5.00/−5.00 imports with no expense and two allocations on the missing expense 0 |
| Corrections.MissingShareExample | src/scripts/import.ts:101-140 | 10.00 paid by A, owed 3.00 by A, 5.00 by B and 2.00 by C: BY_AMOUNT, B's allocation has no explicit amount, and the amounts add up to 5.00 |
| Corrections.ProcessRowCorrectedSucceeds | src/scripts/import.ts:56-68 | the corrections never change whether a row goes through |
| Corrections.ProcessRowCorrectedOutput | src/scripts/import.ts:145-161 | a corrected row has the same expense as before, no allocation without it, and every allocation of a BY_AMOUNT expense with its explicit amount |
| Corrections.ProcessRowCorrectedLinked | src/scripts/import.ts:145-161 | a corrected row's allocations all point at its own expense, which exists |
| Corrections.ImportCorrectedLinked | src/scripts/import.ts:145-161 | after correction every allocation points at an expense of the import |
| Corrections.FilledSum | src/scripts/import.ts:134-140 | on an ordinary row with a positive cost, the filled explicit amounts add up to the cost counted once per positive share, minus the sum of the shares |
| Corrections.CorrectedSharesSumToAmount | src/scripts/import.ts:134-140 | after correction, a BY_AMOUNT expense from a balanced row with a single payer carries explicit amounts that add up to its amount |

## Left out

- Persistence: the Prisma client, the `create`/`createMany` calls and the
  pg client (src/scripts/import.ts:12, 164-176). These are I/O. The model
  returns the records instead, or the error that would have stopped the
  script before any write.
- Reading the export: `main`, `withClient`, and the CSV stream through `fs`
  and `csv-parser` (src/scripts/import.ts:179-215). These are file I/O and
  callbacks. Rows are given as a sequence.
- The translation table `fr.json` and `getCategories()` are external data.
  They are parameters: a `map<string, string>` and a sequence of name/id
  pairs.
- `randomId()` is not deterministic. Ids are indices, and the group id is a
  parameter.
- `new Date(...)` and `createdAt`: the expense date is kept as the raw
  string; creation timestamps are left out.
- `console.log` is output only.
- Number handling: shares and cost are modelled as parsed integer cents.
  The script works on CSV strings, so line 87 compares two raw strings,
  lines 97-99 use floating point, line 140 multiplies by 100 and line 148
  rounds `Number(Cost) * 100`. At lines 97-99, `Cost * 100` in doubles is
  not always a whole number: 0.58 × 100 is 57.99999999999999, so the floored
  half is 0.28 while the other two are 0.29, and 0.14 × 100 is
  14.000000000000002, so the ceiled half is 0.08. The model's halves are
  those of the exact cost in cents. On such costs the model and the script
  differ. For cost 0.58 with shares +0.28/−0.28, the script keeps the row
  EVENLY, because 0.28 equals its floored half. The model makes it
  BY_AMOUNT with amounts 0.30 and 0.28 (RowReconcile.ExampleWholeCentHalves).
- `toLowerCase` is modelled on ASCII letters only. Unicode case mapping is
  not modelled.
- A participant column named by the empty string cannot be told apart from
  "no payer" in the script, which uses `''` as its sentinel. The model uses
  `Option`.
- Duplicate participant column names cannot occur: the keys of a parsed
  CSV row are distinct. The model does not check the header for them.
- Short rows. Importer.Import requires every row to carry one share per
  participant column (`WellShaped`). The script parses with `csv()` and no
  options (line 189), so a row with fewer cells than the header lacks its
  trailing keys, and the share is `undefined`. Lines 74-140 then behave as
  follows: an ordinary row pushes an allocation for that column, because
  `undefined` differs from 0 and from the cost, and `Math.abs(undefined)`
  is NaN, so the row goes BY_AMOUNT with a NaN amount. A payment row throws
  at line 131. None of this is modelled.
- Malformed exports. The first five header keys are assumed to be Date,
  Description, Category, Cost and Currency, and every share and cost cell
  is assumed to parse to cents. Not modelled: the TypeError at line 57 when
  there is no Category column; participant columns with integer-like names,
  which `Object.keys` lists first, so `slice(5)` at line 35 keeps a
  metadata column; and non-numeric cells, which reach lines 86-140 as NaN.
- The translation table and the category map are plain objects in the
  script (lines 15, 64, 155), so they also answer for `Object.prototype`
  keys such as "constructor". The model uses maps without those keys, so
  such a label is rejected where the script would accept it.
- An export without rows fails with `EmptyLedger`, standing for the
  exception `Object.keys(data[0])` raises.
- Category.NormaliseStripsOtherSuffix: only covers a marker that is the
  first " - other" in the label and no " - autre". Other labels are covered
  by NormaliseInnerMarker, NormaliseWithoutMarkers and NormaliseShape.
- Corrections.CorrectedSharesSumToAmount: stated only for an ordinary row
  with a positive cost whose shares sum to zero with exactly one positive
  share. FilledSum gives the sum for every ordinary row with a positive
  cost.

## Findings

| source | as written | input that shows it | evidently intended | confidence | as-written member | corrected member |
|---|---|---|---|---|---|---|
| src/scripts/import.ts:78-94, 145-161 | allocations are pushed while the columns are visited; the expense is pushed only when a payer was found | one row "food", cost 10.00, shares −5.00 and −5.00: no expense, two allocations on expense 0 | a row that produces no expense produces no allocations, so every allocation refers to an existing expense | not executed | Corrections.DanglingAllocationExample | Corrections.ImportCorrectedLinked |
| src/scripts/import.ts:101-140 | only a share that itself triggers BY_AMOUNT receives an explicit amount | cost 10.00, shares +7.00, −5.00, −2.00: BY_AMOUNT, but −5.00 is half the cost and gets no amount; the amounts add up to 5.00 | once a row is BY_AMOUNT every allocation carries its explicit amount, and the amounts add up to the expense amount | not executed | Corrections.MissingShareExample | Corrections.CorrectedSharesSumToAmount |

The corrected importer is `Corrections.ImportCorrected`. A row keeps its
allocations only when it produces an expense. Every allocation of a
BY_AMOUNT expense receives `Split.ExplicitShare` of its participant's share.
`Corrections.SkippedRowAllocationsDangle` states the first defect for every
input.
