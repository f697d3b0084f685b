/** The pure parts of `src/components/SearchBar.tsx`: the suggestion list
    computed from the search term, and the flag that shows or hides it. */
module SearchBar {
  import opened Wrappers
  import opened JsText
  import opened Seqs
  import opened DoctorTypes
  import opened DoctorService

  function Min(a: int, b: int): int {
    if a <= b then a else b
  }

  /** `.map(doctor => doctor.name)` */
  function DoctorNames(ds: seq<Doctor>): (r: seq<string>)
    ensures |r| == |ds|
    ensures forall i :: 0 <= i < |ds| ==> r[i] == ds[i].name
    decreases |ds|
  {
    if |ds| == 0 then [] else [ds[0].name] + DoctorNames(ds[1..])
  }

  /** The suggestions for a term: nothing when the trimmed term is empty;
      otherwise the names of the first three doctors whose lower-cased name
      includes the lower-cased, untrimmed term. Two doctors with one name
      give that name twice. */
  function Suggestions(doctors: seq<Doctor>, searchTerm: string): (r: seq<string>)
    ensures |r| <= 3
    ensures Blank(searchTerm) ==> r == []
  {
    if |Trim(searchTerm)| == 0 then []
    else
      var names := DoctorNames(Filter(doctors, SearchTest(searchTerm)));
      names[..Min(3, |names|)]
  }

  /** Every name of the search-filtered list belongs to a doctor of the list
      whose name matches the term. */
  lemma MatchedNamesMatch(doctors: seq<Doctor>, searchTerm: string)
    ensures var names := DoctorNames(Filter(doctors, SearchTest(searchTerm)));
            forall i :: 0 <= i < |names| ==>
              exists d :: d in doctors && d.name == names[i] && MatchesSearch(d, searchTerm)
  {
    var matched := Filter(doctors, SearchTest(searchTerm));
    var names := DoctorNames(matched);
    forall i | 0 <= i < |names|
      ensures exists d :: d in doctors && d.name == names[i] && MatchesSearch(d, searchTerm)
    {
      var d := matched[i];
      assert d in matched;
      assert SearchTest(searchTerm)(d);
    }
  }

  /** For a non-blank term the suggestions are a prefix of the names of
      the search-filtered list. */
  lemma SuggestionsArePrefix(doctors: seq<Doctor>, searchTerm: string)
    requires !Blank(searchTerm)
    ensures var names := DoctorNames(Filter(doctors, SearchTest(searchTerm)));
            var r := Suggestions(doctors, searchTerm);
            |r| <= |names| && forall i :: 0 <= i < |r| ==> r[i] == names[i]
  {
  }

  /** Every suggestion is the name of a doctor of the list whose name
      matches the term. */
  lemma SuggestionsMatch(doctors: seq<Doctor>, searchTerm: string)
    ensures var r := Suggestions(doctors, searchTerm);
            forall i :: 0 <= i < |r| ==>
              exists d :: d in doctors && d.name == r[i] && MatchesSearch(d, searchTerm)
  {
    if !Blank(searchTerm) {
      SuggestionsArePrefix(doctors, searchTerm);
      MatchedNamesMatch(doctors, searchTerm);
    }
  }

  /** The filters that only search. */
  function SearchOnly(term: string): Filters {
    Filters(term, None, [], None)
  }

  /** For a non-blank term the suggestions are the leading names of what
      `filterDoctors` returns for that term alone: all of them when there
      are at most three, otherwise exactly three. */
  lemma SuggestionsLeadFilterResult(doctors: seq<Doctor>, term: string)
    requires !Blank(term)
    ensures var names := DoctorNames(FilterDoctors(doctors, SearchOnly(term)));
            var r := Suggestions(doctors, term);
            |r| == Min(3, |names|) && r == names[..|r|]
  {
    assert term != "";
    FilterCongruent(doctors, SearchTest(term), SelectedTest(SearchOnly(term)));
  }

  /** The search box's own state: the term shown (the page's search filter)
      and whether the suggestion list may be shown. */
  datatype BarState = BarState(term: string, show: bool)

  /** The inputs the search box reacts to; a mouse press outside the box is
      `ClickedOutside`. */
  datatype BarEvent =
    | Typed(value: string)
    | Focused
    | SuggestionClicked(suggestion: string)
    | KeyDown(key: string)
    | ClickedOutside

  /** `handleInputChange`, `onFocus`, `handleSuggestionClick`,
      `handleKeyDown` and the outside-click listener. */
  function Step(st: BarState, e: BarEvent): (r: BarState)
    ensures e.Typed? || e.Focused? ==> r.show
    ensures e.SuggestionClicked? || e.ClickedOutside? || e == KeyDown("Enter") ==> !r.show
    ensures e.KeyDown? && e.key != "Enter" ==> r == st
    ensures e.Typed? ==> r.term == e.value
    ensures e.SuggestionClicked? ==> r.term == e.suggestion
    ensures !(e.Typed? || e.SuggestionClicked?) ==> r.term == st.term
  {
    match e
    case Typed(v) => BarState(v, true)
    case Focused => st.(show := true)
    case SuggestionClicked(s) => BarState(s, false)
    case KeyDown(key) => if key == "Enter" then st.(show := false) else st
    case ClickedOutside => st.(show := false)
  }

  /** The list is on screen when the flag is set and there is something to
      show. */
  predicate Displayed(doctors: seq<Doctor>, st: BarState) {
    st.show && |Suggestions(doctors, st.term)| > 0
  }

  /** A suggested name is not blank, and a doctor of the list carries it. */
  lemma SuggestedNameNotBlank(doctors: seq<Doctor>, t: string, s: string) returns (d: Doctor)
    requires s in Suggestions(doctors, t)
    ensures d in doctors && d.name == s && !Blank(s)
  {
    var sugg := Suggestions(doctors, t);
    var i :| 0 <= i < |sugg| && sugg[i] == s;
    SuggestionsMatch(doctors, t);
    d :| d in doctors && d.name == s && MatchesSearch(d, t);
    assert !Blank(t);
    LowerKeepsBlankness(t);
    ContainsNonBlank(ToLower(s), ToLower(t));
    LowerKeepsBlankness(s);
  }

  /** Clicking a suggestion hides the list and puts the name in the box;
      focusing the box again shows a non-empty list, since the doctor with
      that name matches it. */
  lemma ClickedSuggestionReappearsOnFocus(doctors: seq<Doctor>, st: BarState, s: string)
    requires s in Suggestions(doctors, st.term)
    ensures !Displayed(doctors, Step(st, SuggestionClicked(s)))
    ensures Step(st, SuggestionClicked(s)).term == s
    ensures Displayed(doctors, Step(Step(st, SuggestionClicked(s)), Focused))
  {
    var clicked := Step(st, SuggestionClicked(s));
    assert clicked == BarState(s, false);
    var focused := Step(clicked, Focused);
    assert focused == BarState(s, true);
    var d := SuggestedNameNotBlank(doctors, st.term, s);
    SelfMatchSuggested(doctors, d);
  }

  /** A doctor whose name is not blank makes the suggestions for that name
      non-empty. */
  lemma SelfMatchSuggested(doctors: seq<Doctor>, d: Doctor)
    requires d in doctors && !Blank(d.name)
    ensures |Suggestions(doctors, d.name)| > 0
  {
    ContainsSelf(ToLower(d.name));
    assert SearchTest(d.name)(d);
    FilterMultiset(doctors, SearchTest(d.name));
    assert d in multiset(Filter(doctors, SearchTest(d.name)));
  }
}
