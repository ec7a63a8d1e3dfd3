/**
 The sidebar filter of the dashboard. The two multiselects give lists of
 genders and cities, the slider a pair of ages (lo, hi). A boolean mask is true
 for a row when its gender is one of the listed genders, its city one of the
 listed cities and its age lies between lo and hi, both ends included; the
 filtered frame keeps the rows whose mask entry is true, in their original
 order and with their original index labels.
 */
module RowFilter {
  import opened SalesTable

  /** What the three sidebar widgets return. */
  datatype Selection = Selection(genders: seq<string>, cities: seq<string>, ageLo: int, ageHi: int)

  /** The value of the boolean mask for one row. */
  predicate Keeps(r: Record, sel: Selection) {
    && r.gender in sel.genders
    && r.city in sel.cities
    && sel.ageLo <= r.age <= sel.ageHi
  }

  /** Indexing the frame by the mask: the rows whose mask entry is true. */
  function Filter(t: Table, sel: Selection): (f: Table)
    ensures |f| <= |t|
    ensures forall r :: r in f ==> r in t && Keeps(r, sel)
    ensures forall r :: r in t && Keeps(r, sel) ==> r in f
  {
    if t == [] then []
    else
      assert forall r :: r in t <==> r == t[0] || r in t[1..];
      if Keeps(t[0], sel) then [t[0]] + Filter(t[1..], sel) else Filter(t[1..], sel)
  }

  /** The index labels of the filtered frame: the positions, from `i` on, whose
      mask entry is true, in increasing order. */
  function MaskIndicesFrom(t: Table, sel: Selection, i: nat): seq<nat>
    requires i <= |t|
    decreases |t| - i
  {
    if i == |t| then []
    else (if Keeps(t[i], sel) then [i] else []) + MaskIndicesFrom(t, sel, i + 1)
  }

  function MaskIndices(t: Table, sel: Selection): seq<nat> {
    MaskIndicesFrom(t, sel, 0)
  }

  /** `f` is the subsequence of `t` at the strictly increasing positions `idx`. */
  ghost predicate SubsequenceAt(f: Table, t: Table, idx: seq<nat>) {
    && |idx| == |f|
    && (forall k :: 0 <= k < |idx| ==> idx[k] < |t| && f[k] == t[idx[k]])
    && (forall k, l :: 0 <= k < l < |idx| ==> idx[k] < idx[l])
  }

  lemma SubsequenceCons(t: Table, i: nat, rest: Table, restIdx: seq<nat>)
    requires i < |t| && SubsequenceAt(rest, t, restIdx)
    requires forall k :: 0 <= k < |restIdx| ==> i < restIdx[k]
    ensures SubsequenceAt([t[i]] + rest, t, [i] + restIdx)
  {
  }

  lemma {:induction false} MaskIndicesFromMembers(t: Table, sel: Selection, i: nat)
    requires i <= |t|
    ensures forall j :: j in MaskIndicesFrom(t, sel, i) <==> i <= j < |t| && Keeps(t[j], sel)
    decreases |t| - i
  {
    if i < |t| {
      MaskIndicesFromMembers(t, sel, i + 1);
    }
  }

  lemma {:induction false} MaskedSuffix(t: Table, sel: Selection, i: nat)
    requires i <= |t|
    ensures SubsequenceAt(Filter(t[i..], sel), t, MaskIndicesFrom(t, sel, i))
    decreases |t| - i
  {
    if i < |t| {
      MaskedSuffix(t, sel, i + 1);
      MaskIndicesFromMembers(t, sel, i + 1);
      var rest := Filter(t[i + 1..], sel);
      var restIdx := MaskIndicesFrom(t, sel, i + 1);
      assert t[i..][0] == t[i] && t[i..][1..] == t[i + 1..];
      assert forall k :: 0 <= k < |restIdx| ==> i < restIdx[k] by {
        forall k | 0 <= k < |restIdx| ensures i < restIdx[k] {
          assert restIdx[k] in restIdx;
        }
      }
      if Keeps(t[i], sel) {
        SubsequenceCons(t, i, rest, restIdx);
      }
    }
  }

  /** The filtered frame is exactly the subsequence of the original rows whose
      mask entry is true: every kept row qualifies, no qualifying row is
      dropped, duplicates are kept, and the original order is preserved. */
  lemma FilterIsMaskedSubsequence(t: Table, sel: Selection)
    ensures SubsequenceAt(Filter(t, sel), t, MaskIndices(t, sel))
    ensures forall i :: 0 <= i < |t| ==> (i in MaskIndices(t, sel) <==> Keeps(t[i], sel))
  {
    MaskedSuffix(t, sel, 0);
    MaskIndicesFromMembers(t, sel, 0);
    assert t[0..] == t;
  }

  /** A table whose every row passes the mask comes back unchanged. */
  lemma {:induction false} FilterKeepsQualifyingTable(t: Table, sel: Selection)
    requires forall r :: r in t ==> Keeps(r, sel)
    ensures Filter(t, sel) == t
  {
    if t != [] {
      assert t[0] in t;
      assert forall r :: r in t[1..] ==> r in t;
      FilterKeepsQualifyingTable(t[1..], sel);
    }
  }

  /** Filtering a filtered frame again with the same selection changes nothing. */
  lemma FilterIdempotent(t: Table, sel: Selection)
    ensures Filter(Filter(t, sel), sel) == Filter(t, sel)
  {
    FilterKeepsQualifyingTable(Filter(t, sel), sel);
  }

  /** No gender selected, no city selected, or a slider pair with `lo > hi`:
      every mask entry is false and the result is the empty frame. */
  lemma EmptySelectionGivesEmptyTable(t: Table, sel: Selection)
    requires sel.genders == [] || sel.cities == [] || sel.ageLo > sel.ageHi
    ensures Filter(t, sel) == []
  {
  }

  /** `sel` asks for no more than `wider`. */
  predicate Narrows(sel: Selection, wider: Selection) {
    && (forall g :: g in sel.genders ==> g in wider.genders)
    && (forall c :: c in sel.cities ==> c in wider.cities)
    && wider.ageLo <= sel.ageLo
    && sel.ageHi <= wider.ageHi
  }

  /** Narrowing the sidebar selection is the same as filtering the frame that
      the wider selection produced. */
  lemma {:induction false} NarrowedFilter(t: Table, sel: Selection, wider: Selection)
    requires Narrows(sel, wider)
    ensures Filter(Filter(t, wider), sel) == Filter(t, sel)
  {
    if t != [] {
      NarrowedFilter(t[1..], sel, wider);
    }
  }

  /** The age pair the slider starts at. */
  const InitialAgeRange: (int, int) := (25, 45)

  /** The options of the two multiselects, which are also their defaults. */
  function GenderOptions(t: Table): seq<string> { Unique(Column(t, (r: Record) => r.gender)) }

  function CityOptions(t: Table): seq<string> { Unique(Column(t, (r: Record) => r.city)) }

  /** The widgets' state when the page is first shown: every gender and every
      city that occurs, ages 25 to 45. None when the table is empty, where the
      slider bounds cannot be computed and the page stops before any widget
      state exists. */
  function InitialSelection(t: Table): (sel: Option<Selection>)
    ensures sel.Some? <==> t != []
    ensures sel.Some? ==> forall g :: g in sel.value.genders <==> exists r :: r in t && r.gender == g
    ensures sel.Some? ==> forall c :: c in sel.value.cities <==> exists r :: r in t && r.city == c
    ensures sel.Some? ==> sel.value.ageLo == 25 && sel.value.ageHi == 45
  {
    OptionsAreColumnValues(t);
    match AgeBounds(t)
    case None => None
    case Some(_) => Some(Selection(GenderOptions(t), CityOptions(t), InitialAgeRange.0, InitialAgeRange.1))
  }

  /** The widest state the widgets can reach: every gender, every city and the
      slider pushed to its two ends. None when the table is empty, where the
      slider bounds cannot be computed. */
  function WidestSelection(t: Table): (sel: Option<Selection>)
    ensures sel.Some? <==> t != []
  {
    match AgeBounds(t)
    case None => None
    case Some((lo, hi)) => Some(Selection(GenderOptions(t), CityOptions(t), lo, hi))
  }

  /** A state the widgets can produce: each multiselect holds some of its
      options and the slider pair lies in order between its ends. */
  predicate ReachableSelection(t: Table, sel: Selection) {
    && (forall g :: g in sel.genders ==> g in GenderOptions(t))
    && (forall c :: c in sel.cities ==> c in CityOptions(t))
    && match AgeBounds(t)
       case None => false
       case Some((lo, hi)) => lo <= sel.ageLo <= sel.ageHi <= hi
  }

  lemma OptionsAreColumnValues(t: Table)
    ensures forall g :: g in GenderOptions(t) <==> exists r :: r in t && r.gender == g
    ensures forall c :: c in CityOptions(t) <==> exists r :: r in t && r.city == c
  {
    var gs := Column(t, (r: Record) => r.gender);
    var cs := Column(t, (r: Record) => r.city);
    forall g ensures g in gs <==> exists r :: r in t && r.gender == g {
      if g in gs {
        var i :| 0 <= i < |gs| && gs[i] == g;
        assert t[i] in t;
      }
      if r :| r in t && r.gender == g {
        var i :| 0 <= i < |t| && t[i] == r;
        assert gs[i] == g;
      }
    }
    forall c ensures c in cs <==> exists r :: r in t && r.city == c {
      if c in cs {
        var i :| 0 <= i < |cs| && cs[i] == c;
        assert t[i] in t;
      }
      if r :| r in t && r.city == c {
        var i :| 0 <= i < |t| && t[i] == r;
        assert cs[i] == c;
      }
    }
  }

  /** With every gender, every city and the slider at its two ends the filter
      returns the whole table. */
  lemma WidestSelectionKeepsTable(t: Table)
    requires t != []
    ensures WidestSelection(t).Some?
    ensures Filter(t, WidestSelection(t).value) == t
  {
    OptionsAreColumnValues(t);
    FilterKeepsQualifyingTable(t, WidestSelection(t).value);
  }

  /** The widest selection is one the widgets can produce, and every selection
      they can produce narrows it. */
  lemma WidestSelectionIsReachable(t: Table, sel: Selection)
    requires t != []
    ensures ReachableSelection(t, WidestSelection(t).value)
    ensures ReachableSelection(t, sel) ==> Narrows(sel, WidestSelection(t).value)
  {
  }

  /** The first-display state is one the widgets accept when the ages span
      `[25, 45]`; otherwise `(25, 45)` lies outside `[min Age, max Age]`. */
  lemma InitialSelectionIsReachable(t: Table)
    requires AgeBounds(t).Some? && AgeBounds(t).value.0 <= 25 && 45 <= AgeBounds(t).value.1
    ensures InitialSelection(t).Some? && ReachableSelection(t, InitialSelection(t).value)
  {
  }

  /** On first display the filter drops no gender and no city: a row is kept
      exactly when its age lies in [25, 45]. */
  lemma InitialSelectionFiltersAgeOnly(t: Table)
    requires t != []
    ensures InitialSelection(t).Some?
    ensures forall i :: 0 <= i < |t| ==> (i in MaskIndices(t, InitialSelection(t).value) <==> 25 <= t[i].age <= 45)
  {
    OptionsAreColumnValues(t);
    FilterIsMaskedSubsequence(t, InitialSelection(t).value);
  }
}
