/** The pure parts of `src/components/FilterPanel.tsx`. The panel never
    changes the filters itself: each control reports one or more
    `onFilterChange(field, value)` calls, modelled as `FilterUpdate`s that
    the page applies in order. */
module FilterPanel {
  import opened Wrappers
  import opened Seqs
  import opened DoctorTypes

  /** One `onFilterChange(field, value)` call, one case per field of the
      filters. */
  datatype FilterUpdate =
    | SetSearch(search: string)
    | SetConsultation(consultation: Option<string>)
    | SetSpecialties(specialties: seq<string>)
    | SetSort(sort: Option<string>)

  /** The "Clear All" button is shown when a consultation mode or a sort
      key is set or some specialty is selected. */
  predicate ShowClearAll(f: Filters) {
    Truthy(f.consultation) || |f.specialties| > 0 || Truthy(f.sort)
  }

  /** `clearFilters`: unset the consultation mode, select no specialty,
      unset the sort key -- in that order. */
  function ClearFilters(): seq<FilterUpdate> {
    [SetConsultation(None), SetSpecialties([]), SetSort(None)]
  }

  function Differs(s: string): string -> bool {
    x => x != s
  }

  /** The checkbox of specialty `s`: remove every occurrence of `s` when it
      is selected, append it at the end otherwise. */
  function ToggleSpecialty(selected: seq<string>, s: string): (r: seq<string>)
    ensures s in r <==> s !in selected
    ensures s !in selected ==> r == selected + [s]
    ensures s in selected ==> IsSubsequence(r, selected)
    ensures s in selected ==> forall x :: x != s ==> multiset(r)[x] == multiset(selected)[x]
  {
    if s in selected then
      FilterIsSubsequence(selected, Differs(s));
      FilterMultiset(selected, Differs(s));
      Filter(selected, Differs(s))
    else selected + [s]
  }

  /** Ticking an unselected specialty and then unticking it restores the
      selection. */
  lemma ToggleTwice(selected: seq<string>, s: string)
    requires s !in selected
    ensures ToggleSpecialty(ToggleSpecialty(selected, s), s) == selected
  {
    FilterAppend(selected, [s], Differs(s));
    FilterAll(selected, Differs(s));
  }

  /** The update the checkbox of specialty `s` reports. */
  function SpecialtyChanged(f: Filters, s: string): FilterUpdate {
    SetSpecialties(ToggleSpecialty(f.specialties, s))
  }

  /** The update a consultation radio button reports: its own mode name. */
  function ConsultationRadio(m: Mode): FilterUpdate {
    SetConsultation(Some(ModeName(m)))
  }

  /** The update a sort radio button reports: its own key name. */
  function SortRadio(k: SortKey): FilterUpdate {
    SetSort(Some(SortName(k)))
  }

  /** Which radio buttons are checked. */
  predicate ConsultationChecked(f: Filters, m: Mode) {
    f.consultation == Some(ModeName(m))
  }

  predicate SortChecked(f: Filters, k: SortKey) {
    f.sort == Some(SortName(k))
  }

  /** At most one consultation radio and one sort radio is checked. */
  lemma AtMostOneChecked(f: Filters, m1: Mode, m2: Mode, k1: SortKey, k2: SortKey)
    ensures ConsultationChecked(f, m1) && ConsultationChecked(f, m2) ==> m1 == m2
    ensures SortChecked(f, k1) && SortChecked(f, k2) ==> k1 == k2
  {
    if m1 != m2 {
      assert ModeName(m1) != ModeName(m2) by {
        assert ModeName(m1)[0] != ModeName(m2)[0];
      }
    }
    if k1 != k2 {
      assert SortName(k1) != SortName(k2) by {
        assert SortName(k1)[0] != SortName(k2)[0];
      }
    }
  }
}
