/** The pure parts of `src/pages/Doctors.tsx`: reading the filters from the
    URL query, writing them back, the two filter-update handlers, and the
    effect that re-filters the list. */
module DoctorsPage {
  import opened Wrappers
  import opened JsText
  import opened DoctorTypes
  import opened DoctorService
  import opened FilterPanel

  /** The URL query parameters, by name. Percent-encoding is the browser's
      business and is not modelled. */
  type Params = map<string, string>

  /** `handleFilterChange(field, value)`: the field named by the update takes
      the new value; every other field stays. */
  function HandleFilterChange(f: Filters, u: FilterUpdate): (r: Filters)
    ensures u.SetSearch? ==> r.search == u.search
    ensures u.SetConsultation? ==> r.consultation == u.consultation
    ensures u.SetSpecialties? ==> r.specialties == u.specialties
    ensures u.SetSort? ==> r.sort == u.sort
    ensures !u.SetSearch? ==> r.search == f.search
    ensures !u.SetConsultation? ==> r.consultation == f.consultation
    ensures !u.SetSpecialties? ==> r.specialties == f.specialties
    ensures !u.SetSort? ==> r.sort == f.sort
  {
    match u
    case SetSearch(v) => f.(search := v)
    case SetConsultation(v) => f.(consultation := v)
    case SetSpecialties(v) => f.(specialties := v)
    case SetSort(v) => f.(sort := v)
  }

  /** `handleSearchChange(term)`: only the search term changes. */
  function HandleSearchChange(f: Filters, term: string): (r: Filters)
    ensures r.search == term
    ensures r.consultation == f.consultation && r.specialties == f.specialties && r.sort == f.sort
  {
    HandleFilterChange(f, SetSearch(term))
  }

  /** Several updates reported one after another, each applied to the result
      of the previous one (React's functional state updates). */
  function ApplyUpdates(f: Filters, us: seq<FilterUpdate>): Filters
    decreases |us|
  {
    if |us| == 0 then f else ApplyUpdates(HandleFilterChange(f, us[0]), us[1..])
  }

  /** "Clear All" resets consultation, specialties and sort, keeps the
      search term, and hides itself. */
  lemma ClearAllResets(f: Filters)
    ensures ApplyUpdates(f, ClearFilters()) == Filters(f.search, None, [], None)
    ensures !ShowClearAll(ApplyUpdates(f, ClearFilters()))
  {
    var us := ClearFilters();
    assert us[1..] == [SetSpecialties([]), SetSort(None)];
    assert us[1..][1..] == [SetSort(None)];
  }

  /** A consultation radio button checks itself, unchecks the other and
      changes nothing else. */
  lemma ConsultationRadioSelects(f: Filters, m: Mode, other: Mode)
    requires other != m
    ensures var r := HandleFilterChange(f, ConsultationRadio(m));
            && ConsultationChecked(r, m) && !ConsultationChecked(r, other)
            && r.search == f.search && r.specialties == f.specialties && r.sort == f.sort
  {
    AtMostOneChecked(HandleFilterChange(f, ConsultationRadio(m)), m, other, Fees, Fees);
  }

  /** A sort radio button checks itself, unchecks the other and changes
      nothing else. */
  lemma SortRadioSelects(f: Filters, k: SortKey, other: SortKey)
    requires other != k
    ensures var r := HandleFilterChange(f, SortRadio(k));
            && SortChecked(r, k) && !SortChecked(r, other)
            && r.search == f.search && r.consultation == f.consultation
            && r.specialties == f.specialties
  {
    AtMostOneChecked(HandleFilterChange(f, SortRadio(k)), VideoConsult, VideoConsult, k, other);
  }

  /** Filters that survive the trip through the URL: no empty consultation
      or sort string, and specialties that a comma split gives back. */
  predicate Canonical(f: Filters) {
    && f.consultation != Some("")
    && f.sort != Some("")
    && f.specialties != [""]
    && forall k :: 0 <= k < |f.specialties| ==> ',' !in f.specialties[k]
  }

  /** The initial filters, read from the URL query: a missing or empty
      parameter leaves its field unset, and `specialties` is split at
      commas. */
  function Decode(p: Params): (f: Filters)
    ensures "search" !in p ==> f.search == ""
    ensures "consultation" !in p ==> f.consultation.None?
    ensures "specialties" !in p ==> f.specialties == []
    ensures "sort" !in p ==> f.sort.None?
    ensures "search" in p ==> f.search == p["search"]
    ensures "consultation" in p ==>
      f.consultation == if p["consultation"] == "" then None else Some(p["consultation"])
    ensures "specialties" in p ==>
      f.specialties == if p["specialties"] == "" then [] else Split(p["specialties"])
    ensures "sort" in p ==> f.sort == if p["sort"] == "" then None else Some(p["sort"])
    ensures Canonical(f)
  {
    Filters(
      if "search" in p then p["search"] else "",
      if "consultation" in p && p["consultation"] != "" then Some(p["consultation"]) else None,
      if "specialties" in p && p["specialties"] != "" then
        JoinSplit(p["specialties"]);
        Split(p["specialties"])
      else [],
      if "sort" in p && p["sort"] != "" then Some(p["sort"]) else None)
  }

  /** The URL query written back after each filtering: empty and unset fields
      are left out, specialties are joined with commas. */
  function Encode(f: Filters): (p: Params)
    ensures p.Keys <= {"search", "consultation", "specialties", "sort"}
    ensures "search" in p <==> f.search != ""
    ensures "consultation" in p <==> Truthy(f.consultation)
    ensures "specialties" in p <==> |f.specialties| > 0
    ensures "sort" in p <==> Truthy(f.sort)
    ensures "search" in p ==> p["search"] == f.search
    ensures "consultation" in p ==> p["consultation"] == f.consultation.value
    ensures "specialties" in p ==> p["specialties"] == Join(f.specialties)
    ensures "sort" in p ==> p["sort"] == f.sort.value
  {
    var p0: Params := map[];
    var p1 := if f.search != "" then p0["search" := f.search] else p0;
    var p2 := if Truthy(f.consultation) then p1["consultation" := f.consultation.value] else p1;
    var p3 := if |f.specialties| > 0 then p2["specialties" := Join(f.specialties)] else p2;
    if Truthy(f.sort) then p3["sort" := f.sort.value] else p3
  }

  /** Reading back what was written gives the same filters. */
  lemma DecodeEncode(f: Filters)
    requires Canonical(f)
    ensures Decode(Encode(f)) == f
  {
    var p := Encode(f);
    if |f.specialties| > 0 {
      assert p["specialties"] == Join(f.specialties);
      JoinEmptyIff(f.specialties);
      SplitJoin(f.specialties);
    }
  }

  /** Writing back what was read gives the same query, for a query holding
      only the four parameters, none of them empty. */
  lemma EncodeDecode(p: Params)
    requires p.Keys <= {"search", "consultation", "specialties", "sort"}
    requires forall k :: k in p ==> p[k] != ""
    ensures Encode(Decode(p)) == p
  {
    var q := Encode(Decode(p));
    if "specialties" in p {
      JoinSplit(p["specialties"]);
    }
    assert q.Keys == p.Keys;
  }

  /** Why `Canonical` asks for more than a well-formed record: one empty
      specialty is written as an empty parameter and read back as none, and
      a specialty containing a comma comes back as two. */
  lemma RoundTripCounterexamples()
    ensures Decode(Encode(Filters("", None, [""], None))).specialties == []
    ensures Decode(Encode(Filters("", None, ["a,b"], None))).specialties == ["a", "b"]
  {
    assert Join(["a,b"]) == "a,b";
    assert "a,b" == "a" + "," + "b";
    SplitPiece("a", "b");
    SplitNoComma("b");
  }

  /** The page's state as far as filtering goes. */
  datatype Page = Page(doctors: seq<Doctor>, filters: Filters, shown: seq<Doctor>, params: Params)

  /** The effect run when the doctors or the filters change: with a
      non-empty doctor list, filter it and rewrite the URL; with an empty
      one, do neither. */
  function Refilter(pg: Page): (r: Page)
    ensures r.doctors == pg.doctors && r.filters == pg.filters
    ensures |pg.doctors| == 0 ==> r == pg
    ensures |pg.doctors| > 0 ==> r.shown == FilterDoctors(pg.doctors, pg.filters)
    ensures |pg.doctors| > 0 ==> r.params == Encode(pg.filters)
  {
    if |pg.doctors| > 0 then
      pg.(shown := FilterDoctors(pg.doctors, pg.filters), params := Encode(pg.filters))
    else pg
  }

  /** Ticking the checkbox of specialty `s` flips it in the selection and
      changes no other filter. */
  lemma SpecialtyCheckboxToggles(f: Filters, s: string)
    ensures HandleFilterChange(f, SpecialtyChanged(f, s))
            == f.(specialties := ToggleSpecialty(f.specialties, s))
    ensures var r := HandleFilterChange(f, SpecialtyChanged(f, s));
            (s in r.specialties <==> s !in f.specialties)
            && r.search == f.search && r.consultation == f.consultation && r.sort == f.sort
  {
  }

  /** After the effect, the URL describes the filters in force, and running
      the effect again changes nothing. */
  lemma RefilterSyncsUrl(pg: Page)
    requires |pg.doctors| > 0 && Canonical(pg.filters)
    ensures Decode(Refilter(pg).params) == pg.filters
    ensures Refilter(Refilter(pg)) == Refilter(pg)
  {
    DecodeEncode(pg.filters);
  }
}
