/** Category handling of the importer: normalising a raw category label of the
    export (lower-casing, dropping the "other" markers of the English and
    French exports), translating it through the translation table, and the
    table from lower-cased category name to category id built from the
    application's categories. */
module Category {
  import opened LedgerTypes

  /** The marker the English export appends to "other" sub-categories. */
  const OtherEn: string := " - other"
  /** The marker the French export appends to "other" sub-categories. */
  const OtherFr: string := " - autre"
  /** The canonical key of a reimbursement between two participants. */
  const Payment: string := "payment"

  predicate IsUpper(c: char) { 'A' <= c <= 'Z' }

  function LowerChar(c: char): (r: char)
    ensures !IsUpper(r)
    ensures !IsUpper(c) ==> r == c
  {
    if IsUpper(c) then (c as int + ('a' as int - 'A' as int)) as char else c
  }

  predicate IsLower(s: string) {
    forall i :: 0 <= i < |s| ==> !IsUpper(s[i])
  }

  /** Lower-cases the ASCII letters of `s`, character by character. */
  function ToLower(s: string): (r: string)
    ensures |r| == |s|
  {
    if s == [] then [] else [LowerChar(s[0])] + ToLower(s[1..])
  }

  /** Every character is lower-cased in place, so the result is lower-case. */
  lemma {:induction false} ToLowerSpec(s: string)
    ensures forall i :: 0 <= i < |s| ==> ToLower(s)[i] == LowerChar(s[i])
    ensures IsLower(ToLower(s))
  {
    if s != [] {
      ToLowerSpec(s[1..]);
      var r := ToLower(s);
      assert r == [LowerChar(s[0])] + ToLower(s[1..]);
      forall i | 0 < i < |s| ensures r[i] == LowerChar(s[i]) {
        assert r[i] == ToLower(s[1..])[i - 1];
        assert s[1..][i - 1] == s[i];
      }
    }
  }

  lemma {:induction false} ToLowerOfLower(s: string)
    requires IsLower(s)
    ensures ToLower(s) == s
  {
    ToLowerSpec(s);
    var r := ToLower(s);
    assert forall i :: 0 <= i < |s| ==> r[i] == s[i];
  }

  lemma {:induction false} ToLowerAppend(a: string, b: string)
    ensures ToLower(a + b) == ToLower(a) + ToLower(b)
  {
    ToLowerSpec(a + b);
    ToLowerSpec(a);
    ToLowerSpec(b);
    var l, r := ToLower(a + b), ToLower(a) + ToLower(b);
    assert |l| == |r|;
    forall i | 0 <= i < |l|
      ensures l[i] == r[i]
    {
      if i < |a| {
        assert (a + b)[i] == a[i];
      } else {
        assert (a + b)[i] == b[i - |a|];
      }
    }
  }

  /** `pat` occurs in `s` starting at index `i`. */
  predicate OccursAt(s: string, pat: string, i: int) {
    0 <= i && i + |pat| <= |s| && s[i..i + |pat|] == pat
  }

  /** `i` is where the first occurrence of `pat` in `s` starts. */
  predicate IsFirstOccurrence(s: string, pat: string, i: int) {
    OccursAt(s, pat, i) && forall k :: 0 <= k < i ==> !OccursAt(s, pat, k)
  }

  predicate Absent(s: string, pat: string) {
    forall k :: 0 <= k <= |s| ==> !OccursAt(s, pat, k)
  }

  /** The first index at or after `from` where `pat` occurs in `s`. */
  function IndexOfFrom(s: string, pat: string, from: nat): (r: Option<nat>)
    decreases |s| - from
    ensures r.Some? ==> from <= r.value && r.value + |pat| <= |s|
  {
    if from + |pat| > |s| then None
    else if s[from..from + |pat|] == pat then Some(from)
    else IndexOfFrom(s, pat, from + 1)
  }

  /** The search finds an occurrence, and it is the first one at or after
      `from`; when it finds none there is none. */
  lemma {:induction false} IndexOfFromSpec(s: string, pat: string, from: nat)
    decreases |s| - from
    ensures var r := IndexOfFrom(s, pat, from);
      && (r.Some? ==> OccursAt(s, pat, r.value))
      && (r.Some? ==> forall k :: from <= k < r.value ==> !OccursAt(s, pat, k))
      && (r.None? ==> forall k :: from <= k ==> !OccursAt(s, pat, k))
  {
    if from + |pat| <= |s| && s[from..from + |pat|] != pat {
      IndexOfFromSpec(s, pat, from + 1);
    }
  }

  /** String.replace with a string pattern and an empty replacement: the first
      occurrence of `pat`, wherever it is, is removed; without one, `s` is
      returned unchanged. */
  function RemoveFirst(s: string, pat: string): (r: string)
    ensures |r| == |s| || |r| == |s| - |pat|
  {
    match IndexOfFrom(s, pat, 0)
    case None => s
    case Some(i) => s[..i] + s[i + |pat|..]
  }

  lemma RemoveFirstAbsent(s: string, pat: string)
    requires Absent(s, pat)
    ensures RemoveFirst(s, pat) == s
  {
    IndexOfFromSpec(s, pat, 0);
  }

  lemma RemoveFirstOccurrence(s: string, pat: string, i: int)
    requires IsFirstOccurrence(s, pat, i)
    ensures RemoveFirst(s, pat) == s[..i] + s[i + |pat|..]
  {
    IndexOfFromSpec(s, pat, 0);
  }

  lemma RemoveFirstKeepsLower(s: string, pat: string)
    requires IsLower(s)
    ensures IsLower(RemoveFirst(s, pat))
  {
    var r := RemoveFirst(s, pat);
    match IndexOfFrom(s, pat, 0)
    case None =>
    case Some(i) =>
      assert r == s[..i] + s[i + |pat|..];
      forall j | 0 <= j < |r|
        ensures !IsUpper(r[j])
      {
        if j < i {
          assert r[j] == s[j];
        } else {
          assert r[j] == s[j + |pat|];
        }
      }
  }

  /** The label normalisation of the importer: lower-case, then drop the first
      " - other", then the first " - autre". */
  function NormaliseLabel(raw: string): string {
    RemoveFirst(RemoveFirst(ToLower(raw), OtherEn), OtherFr)
  }

  /** Translates a raw label into its canonical category key, or fails with
      the normalised label when the translation table has no entry for it. */
  function Resolve(raw: string, translations: map<string, string>): Result<string> {
    var key := NormaliseLabel(raw);
    if key in translations then Success(translations[key]) else Failure(CategoryNotFound(key))
  }

  /** A normalised label is lower-case and is the raw label shortened by the
      markers it removed (none, one or both). */
  lemma NormaliseShape(raw: string)
    ensures IsLower(NormaliseLabel(raw))
    ensures |NormaliseLabel(raw)| in {|raw|, |raw| - 8, |raw| - 16}
  {
    ToLowerSpec(raw);
    RemoveFirstKeepsLower(ToLower(raw), OtherEn);
    RemoveFirstKeepsLower(RemoveFirst(ToLower(raw), OtherEn), OtherFr);
  }

  /** A label that carries neither marker is only lower-cased. */
  lemma NormaliseWithoutMarkers(raw: string)
    requires Absent(ToLower(raw), OtherEn) && Absent(ToLower(raw), OtherFr)
    ensures NormaliseLabel(raw) == ToLower(raw)
  {
    RemoveFirstAbsent(ToLower(raw), OtherEn);
    RemoveFirstAbsent(ToLower(raw), OtherFr);
  }

  /** The documented case: an "other" sub-category loses its trailing marker,
      "Entertainment - Other" becoming "entertainment", provided the appended
      marker is the first one in the label and no French marker is present. */
  lemma {:induction false} NormaliseStripsOtherSuffix(name: string)
    requires IsFirstOccurrence(ToLower(name) + OtherEn, OtherEn, |name|)
    requires Absent(ToLower(name), OtherFr)
    ensures NormaliseLabel(name + " - Other") == ToLower(name)
  {
    var low := ToLower(name);
    var s := low + OtherEn;
    assert ToLower(name + " - Other") == s by {
      ToLowerAppend(name, " - Other");
      LowerOtherMarker();
    }
    RemoveFirstOccurrence(s, OtherEn, |low|);
    assert s[..|low|] + s[|low| + 8..] == low;
    RemoveFirstAbsent(low, OtherFr);
  }

  /** An "other" sub-category resolves exactly as its parent category does,
      translation or error alike, whenever its marker is the first one in the
      label and no French marker is present. */
  lemma ResolveOtherSuffix(name: string, translations: map<string, string>)
    requires IsFirstOccurrence(ToLower(name) + OtherEn, OtherEn, |name|)
    requires Absent(ToLower(name), OtherFr)
    ensures Resolve(name + " - Other", translations) == Resolve(name, translations)
  {
    OtherSuffixSameLabel(name);
    ResolveByLabel(name + " - Other", name, translations);
  }

  /** Under the same conditions the sub-category and its parent share one
      normal form. */
  lemma OtherSuffixSameLabel(name: string)
    requires IsFirstOccurrence(ToLower(name) + OtherEn, OtherEn, |name|)
    requires Absent(ToLower(name), OtherFr)
    ensures NormaliseLabel(name + " - Other") == NormaliseLabel(name)
  {
    NormaliseStripsOtherSuffix(name);
    PrefixOfFirstIsAbsent(ToLower(name), OtherEn);
    NormaliseWithoutMarkers(name);
  }

  /** Resolution sees a label only through its normal form. */
  lemma ResolveByLabel(a: string, b: string, translations: map<string, string>)
    requires NormaliseLabel(a) == NormaliseLabel(b)
    ensures Resolve(a, translations) == Resolve(b, translations)
  {
  }

  /** Text before the first occurrence of a pattern does not hold it. */
  lemma PrefixOfFirstIsAbsent(low: string, pat: string)
    requires |pat| > 0
    requires IsFirstOccurrence(low + pat, pat, |low|)
    ensures Absent(low, pat)
  {
    var s := low + pat;
    forall k | 0 <= k <= |low|
      ensures !OccursAt(low, pat, k)
    {
      if k + |pat| <= |low| {
        assert s[k..k + |pat|] == low[k..k + |pat|];
        assert OccursAt(s, pat, k) == OccursAt(low, pat, k);
      }
    }
  }

  /** The capitalised marker of the export lower-cases to the English
      marker. */
  lemma LowerOtherMarker()
    ensures ToLower(" - Other") == OtherEn
  {
    var r := ToLower(" - Other");
    assert r[5] == 'h';
    assert forall i :: 0 <= i < 8 ==> r[i] == OtherEn[i];
  }

  /** No occurrence of `pat` in `s` when some character of `pat` never
      appears in `s`. */
  lemma AbsentByMissingChar(s: string, pat: string, j: int)
    requires 0 <= j < |pat| && pat[j] !in s
    ensures Absent(s, pat)
  {
    forall k | 0 <= k <= |s|
      ensures !OccursAt(s, pat, k)
    {
      if k + |pat| <= |s| {
        assert s[k..k + |pat|][j] == s[k + j];
        assert s[k..k + |pat|][j] != pat[j];
      }
    }
  }

  /** An occurrence at `i` is the first one when character `j` of `pat` does
      not appear in `s` before `i + j`. */
  lemma FirstByMissingChar(s: string, pat: string, i: int, j: int)
    requires OccursAt(s, pat, i)
    requires 0 <= j < |pat| && pat[j] !in s[..i + j]
    ensures IsFirstOccurrence(s, pat, i)
  {
    forall k | 0 <= k < i
      ensures !OccursAt(s, pat, k)
    {
      assert s[..i + j][k + j] == s[k + j];
      assert s[k..k + |pat|][j] == s[k + j];
      assert s[k..k + |pat|][j] != pat[j];
    }
  }

  /** A lower-case label whose first " - other" starts at `i` and that has no
      " - autre" once that marker is gone normalises to the label without it. */
  lemma NormaliseOneMarker(s: string, i: int)
    requires IsLower(s)
    requires IsFirstOccurrence(s, OtherEn, i)
    requires Absent(s[..i] + s[i + 8..], OtherFr)
    ensures NormaliseLabel(s) == s[..i] + s[i + 8..]
  {
    ToLowerOfLower(s);
    RemoveFirstOccurrence(s, OtherEn, i);
    RemoveFirstAbsent(s[..i] + s[i + 8..], OtherFr);
  }

  /** String.replace removes the first marker anywhere in the label, not only
      at its end: a lower-case `a + " - other" + b` loses the marker whenever
      `a` cannot hold an earlier one and neither part holds " - autre". */
  lemma NormaliseInnerMarker(a: string, b: string)
    requires IsLower(a) && IsLower(b)
    requires 'h' !in a && 'u' !in a && 'u' !in b
    ensures NormaliseLabel(a + OtherEn + b) == a + b
  {
    var s := a + OtherEn + b;
    var i := |a|;
    assert IsLower(s) by {
      forall k | 0 <= k < |s| ensures !IsUpper(s[k]) {
        if k < i {
          assert s[k] == a[k];
        } else if k < i + 8 {
          assert s[k] == OtherEn[k - i];
        } else {
          assert s[k] == b[k - i - 8];
        }
      }
    }
    assert s[i..i + 8] == OtherEn;
    assert s[..i + 5] == a + OtherEn[..5];
    assert s[..i] + s[i + 8..] == a + b;
    FirstByMissingChar(s, OtherEn, i, 5);
    AbsentByMissingChar(a + b, OtherFr, 4);
    NormaliseOneMarker(s, i);
  }

  lemma NormaliseRemovesInnerMarker()
    ensures NormaliseLabel("sports - other games") == "sports games"
  {
    assert "sports - other games" == "sports" + OtherEn + " games";
    assert "sports games" == "sports" + " games";
    NormaliseInnerMarker("sports", " games");
  }

  /** Normalisation is not idempotent: a label carrying the marker twice loses
      one copy per pass. */
  lemma NormaliseNotIdempotent()
    ensures NormaliseLabel("a - other - other") == "a - other"
    ensures NormaliseLabel(NormaliseLabel("a - other - other")) == "a"
  {
    NormaliseTwiceMarked();
    NormaliseOnceMarked();
  }

  lemma NormaliseTwiceMarked()
    ensures NormaliseLabel("a - other - other") == "a - other"
  {
    assert "a - other" == "a" + OtherEn;
    assert "a - other - other" == "a" + OtherEn + OtherEn;
    NormaliseInnerMarker("a", OtherEn);
  }

  lemma NormaliseOnceMarked()
    ensures NormaliseLabel("a - other") == "a"
  {
    assert "a - other" == "a" + OtherEn + "";
    NormaliseInnerMarker("a", "");
  }

  /** The table from lower-cased category name to id, filled in order so that
      a later category with the same lower-cased name overwrites an earlier
      one. */
  function CategoryMapping(categories: seq<CategoryRow>): map<string, int> {
    if categories == [] then map[]
    else
      var last := categories[|categories| - 1];
      CategoryMapping(categories[..|categories| - 1])[ToLower(last.name) := last.id]
  }

  /** The keys are exactly the lower-cased names of the categories. */
  lemma {:induction false} CategoryMappingKeys(categories: seq<CategoryRow>)
    ensures forall i :: 0 <= i < |categories| ==> ToLower(categories[i].name) in CategoryMapping(categories)
    ensures forall k :: k in CategoryMapping(categories) ==>
              exists i :: 0 <= i < |categories| && ToLower(categories[i].name) == k
  {
    if categories != [] {
      var n := |categories| - 1;
      var init := categories[..n];
      CategoryMappingKeys(init);
      assert forall i :: 0 <= i < n ==> init[i] == categories[i];
    }
  }

  /** Each key carries the id of the last category with that lower-cased
      name. */
  lemma {:induction false} CategoryMappingLastWins(categories: seq<CategoryRow>, i: int)
    requires 0 <= i < |categories|
    requires forall j :: i < j < |categories| ==> ToLower(categories[j].name) != ToLower(categories[i].name)
    ensures ToLower(categories[i].name) in CategoryMapping(categories)
    ensures CategoryMapping(categories)[ToLower(categories[i].name)] == categories[i].id
  {
    var n := |categories| - 1;
    if i < n {
      var init := categories[..n];
      assert init[i] == categories[i];
      assert forall j :: i < j < n ==> init[j] == categories[j];
      CategoryMappingLastWins(init, i);
    }
  }

  /** The category id an expense receives: 1 for a reimbursement, otherwise
      the id of its canonical name, falling back to 1. */
  function CategoryId(canonical: string, mapping: map<string, int>): int {
    if canonical == Payment then 1
    else if canonical in mapping then mapping[canonical]
    else 1
  }

  /** The category id of an expense, against the application's categories:
      1 for a reimbursement; otherwise the id of the last category whose
      lower-cased name is the canonical name, or 1 when there is none. */
  lemma CategoryIdOfCategories(canonical: string, categories: seq<CategoryRow>)
    ensures canonical == Payment ==> CategoryId(canonical, CategoryMapping(categories)) == 1
    ensures canonical != Payment && (forall i :: 0 <= i < |categories| ==> ToLower(categories[i].name) != canonical) ==>
              CategoryId(canonical, CategoryMapping(categories)) == 1
    ensures forall i :: (&& 0 <= i < |categories| && canonical != Payment && ToLower(categories[i].name) == canonical
                         && (forall j :: i < j < |categories| ==> ToLower(categories[j].name) != canonical)) ==>
              CategoryId(canonical, CategoryMapping(categories)) == categories[i].id
  {
    CategoryMappingKeys(categories);
    forall i | 0 <= i < |categories| && canonical != Payment && ToLower(categories[i].name) == canonical
              && (forall j :: i < j < |categories| ==> ToLower(categories[j].name) != canonical)
      ensures CategoryId(canonical, CategoryMapping(categories)) == categories[i].id
    {
      CategoryMappingLastWins(categories, i);
    }
  }
}
