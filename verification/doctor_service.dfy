/** `src/services/doctorService.ts` without the network: the mapping from
    already-parsed provider records to doctors, the sorted list of all
    specialties, and `filterDoctors`. */
module DoctorService {
  import opened Wrappers
  import opened JsText
  import opened JsParseInt
  import opened Seqs
  import opened DoctorTypes
  import opened DoctorSort

  // ---------------------------------------------------------------------
  // Provider records, as parsed from the JSON document

  datatype RawSpeciality = RawSpeciality(name: string)

  datatype RawAddress = RawAddress(
    addressLine1: Option<string>,
    locality: Option<string>,
    city: Option<string>)

  datatype RawClinic = RawClinic(name: Option<string>, address: Option<RawAddress>)

  /** A provider record. An absent or falsy `video_consult`/`in_clinic`
      flag is `false`. */
  datatype RawRecord = RawRecord(
    id: int,
    name: string,
    specialities: Option<seq<RawSpeciality>>,
    experience: Option<string>,
    fees: Option<string>,
    clinic: Option<RawClinic>,
    videoConsult: bool,
    inClinic: bool)

  /** `x || ""` for an optional string: absent and "" both give "". */
  function OrEmpty(o: Option<string>): string {
    o.GetOr("")
  }

  /** `item.clinic?.address` */
  function AddressOf(clinic: Option<RawClinic>): Option<RawAddress> {
    match clinic
    case None => None
    case Some(c) => c.address
  }

  /** `item.clinic?.address?.<field>` for the three address fields. */
  function AddressLine1(clinic: Option<RawClinic>): Option<string> {
    match AddressOf(clinic)
    case None => None
    case Some(a) => a.addressLine1
  }

  function Locality(clinic: Option<RawClinic>): Option<string> {
    match AddressOf(clinic)
    case None => None
    case Some(a) => a.locality
  }

  function City(clinic: Option<RawClinic>): Option<string> {
    match AddressOf(clinic)
    case None => None
    case Some(a) => a.city
  }

  /** `item.clinic?.name` */
  function ClinicName(clinic: Option<RawClinic>): Option<string> {
    match clinic
    case None => None
    case Some(c) => c.name
  }

  /** `s.replace(/[^\d]/g, '')`: the ASCII digits of `s`, in order. */
  function DigitsOnly(s: string): (r: string)
    ensures AllDigits(r, 10)
    ensures IsSubsequence(r, s)
    ensures forall c :: multiset(r)[c] == if IsDecimalDigit(c) then multiset(s)[c] else 0
  {
    FilterIsSubsequence(s, IsDecimalDigit);
    FilterMultiset(s, IsDecimalDigit);
    Filter(s, IsDecimalDigit)
  }

  /** `parseInt(item.fees?.replace(/[^\d]/g, '')) || 0`: the decimal value
      of all the digits of the fee string, read as one numeral; 0 when there
      are none or the field is absent (`parseInt(undefined)` is NaN). */
  function FeeOf(fees: Option<string>): (fee: int)
    ensures fee >= 0
    ensures fees.None? ==> fee == 0
    ensures fees.Some? ==> fee == DigitsValue(DigitsOnly(fees.value), 10)
  {
    match fees
    case None => 0
    case Some(s) =>
      var d := DigitsOnly(s);
      ParseDigits(d);
      ParseIntOrZero(d)
  }

  /** `parseInt(item.experience) || 0`: 0 when the field is absent or holds
      no number; otherwise the leading integer of the text, after any white
      space -- which is negative for "-3 years". */
  function ExperienceOf(experience: Option<string>): (e: int)
    ensures experience.None? ==> e == 0
    ensures experience.Some? && NoNumber(experience.value) ==> e == 0
    ensures experience.Some? && !NoNumber(experience.value) && !HexPrefix(Unsigned(experience.value)) ==>
      e == WithSign(experience.value, LeadingValue(Unsigned(experience.value), 10))
    ensures experience.Some? && HexPrefix(Unsigned(experience.value)) ==>
      e == WithSign(experience.value, LeadingValue(Unsigned(experience.value)[2..], 16))
    ensures forall w, n, rest ::
      experience == Some(w + IntToString(n) + rest) && Blank(w) && EndsNumeral(n, rest) ==> e == n
  {
    match experience
    case None => 0
    case Some(s) =>
      forall w, n, rest | s == w + IntToString(n) + rest && Blank(w) && EndsNumeral(n, rest) {
        ParseNumeralOrZero(w, n, rest);
      }
      if NoNumber(s) then
        ParseIntNoNumber(s);
        ParseIntOrZero(s)
      else if HexPrefix(Unsigned(s)) then
        ParseIntHex(s);
        ParseIntOrZero(s)
      else
        ParseIntDecimal(s);
        ParseIntOrZero(s)
  }

  /** `item.specialities.map(s => s.name)` */
  function Names(xs: seq<RawSpeciality>): (r: seq<string>)
    ensures |r| == |xs|
    ensures forall j :: 0 <= j < |xs| ==> r[j] == xs[j].name
    decreases |xs|
  {
    if |xs| == 0 then [] else [xs[0].name] + Names(xs[1..])
  }

  /** The two flags, Video Consult first. */
  function ModesOf(video: bool, clinic: bool): (r: seq<Mode>)
    ensures VideoConsult in r <==> video
    ensures InClinic in r <==> clinic
    ensures |r| <= 2
    ensures forall i, j :: 0 <= i < j < |r| ==> r[i] != r[j]
    ensures |r| == 2 ==> r == [VideoConsult, InClinic]
  {
    (if video then [VideoConsult] else []) + (if clinic then [InClinic] else [])
  }

  /** The transform of one provider record. */
  function Normalize(item: RawRecord): (d: Doctor)
    ensures d.id == item.id && d.name == item.name
    ensures d.fee >= 0
    ensures item.fees.Some? ==> d.fee == DigitsValue(DigitsOnly(item.fees.value), 10)
    ensures item.fees.None? || DigitsOnly(item.fees.value) == "" ==> d.fee == 0
    ensures item.specialities.None? ==> d.specialty == []
    ensures item.specialities.Some? ==>
      |d.specialty| == |item.specialities.value|
      && forall j :: 0 <= j < |d.specialty| ==> d.specialty[j] == item.specialities.value[j].name
    ensures VideoConsult in d.consultationMode <==> item.videoConsult
    ensures InClinic in d.consultationMode <==> item.inClinic
    ensures |d.consultationMode| <= 2
    ensures d.consultationMode == ModesOf(item.videoConsult, item.inClinic)
    ensures d.experience == ExperienceOf(item.experience)
    ensures d.address == OrEmpty(AddressLine1(item.clinic))
    ensures d.clinicName == OrEmpty(ClinicName(item.clinic))
    ensures d.place == OrEmpty(Locality(item.clinic)) + ", " + OrEmpty(City(item.clinic))
    ensures item.clinic.None? ==> d.address == "" && d.clinicName == "" && d.place == ", "
  {
    var specialty := match item.specialities
      case None => []
      case Some(xs) => Names(xs);
    var modes := ModesOf(item.videoConsult, item.inClinic);
    var place := OrEmpty(Locality(item.clinic)) + ", " + OrEmpty(City(item.clinic));
    assert item.clinic.None? ==> place == ", " by {
      assert "" + ", " + "" == ", ";
    }
    var fee := FeeOf(item.fees);
    assert DigitsValue("", 10) == 0;
    Doctor(item.id, item.name, specialty, ExperienceOf(item.experience), fee,
           OrEmpty(AddressLine1(item.clinic)), OrEmpty(ClinicName(item.clinic)), place, modes)
  }

  /** The `data.map(...)` in `fetchDoctors`: one doctor per record, in order. */
  function Transform(data: seq<RawRecord>): (r: seq<Doctor>)
    ensures |r| == |data|
    ensures forall i :: 0 <= i < |data| ==> r[i] == Normalize(data[i])
    decreases |data|
  {
    if |data| == 0 then [] else [Normalize(data[0])] + Transform(data[1..])
  }

  /** The digits of "₹500" are "500". */
  lemma DigitsOfRupees()
    ensures DigitsOnly("₹500") == "500"
  {
    var digits := "500";
    assert "₹500" == ['₹'] + digits;
    assert !IsDecimalDigit('₹');
    FilterCons('₹', digits, IsDecimalDigit);
    FilterAll(digits, IsDecimalDigit);
    assert Filter("₹500", IsDecimalDigit) == digits;
  }

  /** The numeral "500" is 500. */
  lemma FiveHundred()
    ensures DigitsValue("500", 10) == 500
  {
    assert "500"[..2] == "50" && "50"[..1] == "5" && "5"[..0] == "";
  }

  /** A fee written "₹500" is 500. */
  lemma FeeExample()
    ensures FeeOf(Some("₹500")) == 500
  {
    DigitsOfRupees();
    FiveHundred();
  }

  /** An experience written "13 Years of experience" is 13. */
  lemma ExperienceExample()
    ensures ExperienceOf(Some("13 Years of experience")) == 13
  {
    var rest := " Years of experience";
    Thirteen(rest);
    assert "13" + rest == "13 Years of experience";
    ParseNumeralOrZero("", 13, rest);
  }

  /** The numeral of 13 is "13". */
  lemma Thirteen(rest: string)
    ensures "" + IntToString(13) + rest == "13" + rest
  {
    assert NatToString(13) == NatToString(1) + [DigitChar(3)];
  }

  /** An experience with no number, "Fresher", is 0. */
  lemma FresherExample()
    ensures ExperienceOf(Some("Fresher")) == 0
  {
    var s := "Fresher";
    assert !IsSpace(s[0]);
    assert TrimStart(s) == s;
    assert Unsigned(s) == s;
  }

  /** The digit run of "05 years" is "05". */
  lemma ZeroFiveRun()
    ensures DigitRun("05 years", 10) == 2
  {
    var s := "05 years";
    var r := s[2..];
    assert s[1..] == "5" + r && ("5" + r)[1..] == r;
    assert DigitRun(r, 10) == 0;
  }

  /** The digit run of "05 years" is "05", worth 5. */
  lemma ZeroFive()
    ensures LeadingValue("05 years", 10) == 5
  {
    ZeroFiveRun();
    assert "05 years"[..2] == "05";
    assert "05"[..1] == "0" && "0"[..0] == "";
  }

  /** A leading zero is read as a decimal digit: "05 years" is 5. */
  lemma LeadingZeroExample()
    ensures ExperienceOf(Some("05 years")) == 5
  {
    var s := "05 years";
    assert !IsSpace(s[0]);
    assert TrimStart(s) == s;
    assert Unsigned(s) == s;
    assert !HexPrefix(s) && !MinusSign(s);
    ZeroFive();
  }

  /** A record with fee "₹500", experience "13 Years of experience", no
      clinic and only the video flag set. */
  lemma NormalizeExample(id: int, name: string)
    ensures var d := Normalize(RawRecord(id, name, None, Some("13 Years of experience"),
                                          Some("₹500"), None, true, false));
            d.fee == 500 && d.experience == 13 && d.consultationMode == [VideoConsult]
  {
    FeeExample();
    ExperienceExample();
  }

  // ---------------------------------------------------------------------
  // getAllSpecialties

  /** Strictly ascending in the JavaScript string order, hence free of
      duplicates. */
  predicate StrictlySorted(s: seq<string>) {
    forall i, j :: 0 <= i < j < |s| ==> Less(s[i], s[j])
  }

  /** Adds `x` to a strictly sorted list unless it is there already. */
  function InsertUnique(x: string, s: seq<string>): (r: seq<string>)
    requires StrictlySorted(s)
    ensures StrictlySorted(r)
    ensures forall y :: y in r <==> y in s || y == x
    decreases |s|
  {
    if |s| == 0 then [x]
    else if x == s[0] then s
    else if Less(x, s[0]) then
      assert forall j :: 0 < j < |s| ==> Less(x, s[j]) by {
        forall j | 0 < j < |s| ensures Less(x, s[j]) {
          LessTransitive(x, s[0], s[j]);
        }
      }
      [x] + s
    else
      LessTotal(x, s[0]);
      var rest := InsertUnique(x, s[1..]);
      assert forall y :: y in rest ==> Less(s[0], y);
      [s[0]] + rest
  }

  /** The distinct elements of `xs`, strictly sorted. */
  function SortUnique(xs: seq<string>): (r: seq<string>)
    ensures StrictlySorted(r)
    ensures forall y :: y in r <==> y in xs
    decreases |xs|
  {
    if |xs| == 0 then [] else InsertUnique(xs[0], SortUnique(xs[1..]))
  }

  /** Every doctor's specialty list, one after the other. */
  function AllSpecialties(doctors: seq<Doctor>): (r: seq<string>)
    ensures forall s :: s in r <==> exists d :: d in doctors && s in d.specialty
    decreases |doctors|
  {
    if |doctors| == 0 then []
    else
      var rest := AllSpecialties(doctors[1..]);
      assert forall d :: d in doctors[1..] ==> d in doctors;
      assert forall d :: d in doctors ==> d == doctors[0] || d in doctors[1..];
      doctors[0].specialty + rest
  }

  /** `getAllSpecialties`: every specialty of every doctor, once, sorted. */
  function GetAllSpecialties(doctors: seq<Doctor>): (r: seq<string>)
    ensures StrictlySorted(r)
    ensures forall s :: s in r <==> exists d :: d in doctors && s in d.specialty
  {
    SortUnique(AllSpecialties(doctors))
  }

  /** A strictly sorted list is determined by its elements, so the result
      does not depend on the order in which the source's `Set` collected
      them before `Array.prototype.sort`. */
  lemma {:induction false} StrictlySortedUnique(a: seq<string>, b: seq<string>)
    requires StrictlySorted(a) && StrictlySorted(b)
    requires forall y :: y in a <==> y in b
    ensures a == b
    decreases |a|
  {
    if |a| > 0 {
      assert a[0] in a;
    }
    if |b| > 0 {
      assert b[0] in b;
    }
    if |a| > 0 && |b| > 0 {
      if a[0] != b[0] {
        var i :| 0 <= i < |b| && b[i] == a[0];
        var j :| 0 <= j < |a| && a[j] == b[0];
        assert Less(b[0], a[0]) by {
          if i != 0 {
            assert Less(b[0], b[i]);
          }
        }
        assert Less(a[0], b[0]) by {
          if j != 0 {
            assert Less(a[0], a[j]);
          }
        }
        LessAsymmetric(a[0], b[0]);
      }
      assert a == [a[0]] + a[1..] && b == [b[0]] + b[1..];
      forall y ensures y in a[1..] <==> y in b[1..] {
        LessIrreflexive(y);
        if y in a[1..] {
          var i :| 0 <= i < |a[1..]| && a[1..][i] == y;
          assert Less(a[0], a[i + 1]);
          assert y != b[0] && y in b;
        }
        if y in b[1..] {
          var i :| 0 <= i < |b[1..]| && b[1..][i] == y;
          assert Less(b[0], b[i + 1]);
          assert y != a[0] && y in a;
        }
      }
      StrictlySortedUnique(a[1..], b[1..]);
    }
  }

  // ---------------------------------------------------------------------
  // filterDoctors

  /** The search filter: the lower-cased name includes the lower-cased term. */
  predicate MatchesSearch(d: Doctor, search: string) {
    Contains(ToLower(d.name), ToLower(search))
  }

  /** `doctor.consultationMode.includes(c)` */
  predicate HasMode(d: Doctor, c: string) {
    exists m :: m in d.consultationMode && ModeName(m) == c
  }

  /** `doctor.specialty.some(s => wanted.includes(s))` */
  predicate HasAnySpecialty(d: Doctor, wanted: seq<string>) {
    exists s :: s in d.specialty && s in wanted
  }

  function SearchTest(search: string): Doctor -> bool {
    d => MatchesSearch(d, search)
  }

  function ModeTest(c: string): Doctor -> bool {
    d => HasMode(d, c)
  }

  function SpecialtyTest(wanted: seq<string>): Doctor -> bool {
    d => HasAnySpecialty(d, wanted)
  }

  /** The three steps of `filterDoctors`, each skipped when its filter is
      empty or unset. */
  function SearchStep(ds: seq<Doctor>, search: string): seq<Doctor> {
    if search != "" then Filter(ds, SearchTest(search)) else ds
  }

  function ConsultationStep(ds: seq<Doctor>, consultation: Option<string>): seq<Doctor> {
    if Truthy(consultation) then Filter(ds, ModeTest(consultation.value)) else ds
  }

  function SpecialtyStep(ds: seq<Doctor>, wanted: seq<string>): seq<Doctor> {
    if |wanted| > 0 then Filter(ds, SpecialtyTest(wanted)) else ds
  }

  /** A doctor passes every active filter of `f`. */
  predicate Selected(d: Doctor, f: Filters) {
    && (f.search != "" ==> MatchesSearch(d, f.search))
    && (Truthy(f.consultation) ==> HasMode(d, f.consultation.value))
    && (|f.specialties| > 0 ==> HasAnySpecialty(d, f.specialties))
  }

  function SelectedTest(f: Filters): Doctor -> bool {
    d => Selected(d, f)
  }

  /** The reference for the filtering part: one pass keeping the doctors
      that pass all active filters. */
  function Matching(ds: seq<Doctor>, f: Filters): seq<Doctor> {
    Filter(ds, SelectedTest(f))
  }

  function SearchOk(f: Filters): Doctor -> bool {
    d => f.search != "" ==> MatchesSearch(d, f.search)
  }

  function ConsultationOk(f: Filters): Doctor -> bool {
    d => Truthy(f.consultation) ==> HasMode(d, f.consultation.value)
  }

  function SearchAndConsultationOk(f: Filters): Doctor -> bool {
    d => SearchOk(f)(d) && ConsultationOk(f)(d)
  }

  function SpecialtyOk(f: Filters): Doctor -> bool {
    d => |f.specialties| > 0 ==> HasAnySpecialty(d, f.specialties)
  }

  /** The search step, skipped or not, keeps the doctors `SearchOk`. */
  lemma SearchStepIs(ds: seq<Doctor>, f: Filters)
    ensures SearchStep(ds, f.search) == Filter(ds, SearchOk(f))
  {
    if f.search != "" {
      FilterCongruent(ds, SearchTest(f.search), SearchOk(f));
    } else {
      FilterAll(ds, SearchOk(f));
    }
  }

  /** The consultation step, skipped or not, keeps the doctors
      `ConsultationOk`. */
  lemma ConsultationStepIs(ds: seq<Doctor>, f: Filters)
    ensures ConsultationStep(ds, f.consultation) == Filter(ds, ConsultationOk(f))
  {
    if Truthy(f.consultation) {
      FilterCongruent(ds, ModeTest(f.consultation.value), ConsultationOk(f));
    } else {
      FilterAll(ds, ConsultationOk(f));
    }
  }

  /** The specialty step, skipped or not, keeps the doctors `SpecialtyOk`. */
  lemma SpecialtyStepIs(ds: seq<Doctor>, f: Filters)
    ensures SpecialtyStep(ds, f.specialties) == Filter(ds, SpecialtyOk(f))
  {
    if |f.specialties| > 0 {
      FilterCongruent(ds, SpecialtyTest(f.specialties), SpecialtyOk(f));
    } else {
      FilterAll(ds, SpecialtyOk(f));
    }
  }

  /** The three steps one after the other keep exactly the doctors that pass
      all active filters, in input order. */
  lemma StepsAreMatching(ds: seq<Doctor>, f: Filters)
    ensures SpecialtyStep(ConsultationStep(SearchStep(ds, f.search), f.consultation), f.specialties)
            == Matching(ds, f)
  {
    var s1 := SearchStep(ds, f.search);
    SearchStepIs(ds, f);
    var s2 := ConsultationStep(s1, f.consultation);
    ConsultationStepIs(s1, f);
    FilterFilter(ds, SearchOk(f), ConsultationOk(f), SearchAndConsultationOk(f));
    assert s2 == Filter(ds, SearchAndConsultationOk(f));
    SpecialtyStepIs(s2, f);
    FilterFilter(ds, SearchAndConsultationOk(f), SpecialtyOk(f), SelectedTest(f));
  }

  /** A consultation value other than the two mode names, which the URL
      can supply. */
  predicate UnknownMode(consultation: Option<string>) {
    Truthy(consultation) && consultation.value != "Video Consult" && consultation.value != "In Clinic"
  }

  /** `filterDoctors`: the three filters, then the stable sort when the
      sort string is "fees" or "experience". */
  function FilterDoctors(ds: seq<Doctor>, f: Filters): (r: seq<Doctor>)
    ensures forall d :: d in r ==> d in ds && Selected(d, f)
    ensures forall d :: Selected(d, f) ==> multiset(r)[d] == multiset(ds)[d]
    ensures multiset(r) == multiset(Matching(ds, f))
    ensures SortKeyOf(f.sort).None? ==> r == Matching(ds, f)
    ensures SortKeyOf(f.sort).Some? ==> SortedBy(r, SortKeyOf(f.sort).value)
    ensures f.sort == Some("fees") ==> forall i, j :: 0 <= i < j < |r| ==> r[i].fee <= r[j].fee
    ensures f.sort == Some("experience") ==>
      forall i, j :: 0 <= i < j < |r| ==> r[i].experience >= r[j].experience
  {
    var filtered := SpecialtyStep(ConsultationStep(SearchStep(ds, f.search), f.consultation), f.specialties);
    StepsAreMatching(ds, f);
    MatchingKeeps(ds, f);
    match SortKeyOf(f.sort)
    case None => filtered
    case Some(k) =>
      SortKeeps(filtered, k);
      Sort(filtered, k)
  }

  /** What the reference filter keeps, and how often. */
  lemma MatchingKeeps(ds: seq<Doctor>, f: Filters)
    ensures forall d :: d in Matching(ds, f) ==> d in ds && Selected(d, f)
    ensures forall d :: Selected(d, f) ==> multiset(Matching(ds, f))[d] == multiset(ds)[d]
  {
    FilterMultiset(ds, SelectedTest(f));
  }

  /** The sort keeps the elements, and orders by fee or by experience. */
  lemma SortKeeps(s: seq<Doctor>, k: SortKey)
    ensures forall d :: d in Sort(s, k) ==> d in s
    ensures k == Fees ==> forall i, j :: 0 <= i < j < |Sort(s, k)| ==> Sort(s, k)[i].fee <= Sort(s, k)[j].fee
    ensures k == Experience ==>
      forall i, j :: 0 <= i < j < |Sort(s, k)| ==> Sort(s, k)[i].experience >= Sort(s, k)[j].experience
  {
    var r := Sort(s, k);
    forall d | d in r ensures d in s {
      assert d in multiset(r);
    }
    forall i, j | 0 <= i < j < |r|
      ensures k == Fees ==> r[i].fee <= r[j].fee
      ensures k == Experience ==> r[i].experience >= r[j].experience
    {
      assert Key(k, r[i]) <= Key(k, r[j]);
    }
  }

  /** Without a recognised sort key -- unset, or any other string -- the
      result is the input with some doctors deleted, in input order. */
  lemma FilterDoctorsKeepsOrder(ds: seq<Doctor>, f: Filters)
    requires SortKeyOf(f.sort).None?
    ensures IsSubsequence(FilterDoctors(ds, f), ds)
  {
    FilterIsSubsequence(ds, SelectedTest(f));
  }

  /** With a recognised sort key the sort is stable: the doctors that tie on
      the key keep the order the filters left them in. */
  lemma FilterDoctorsStable(ds: seq<Doctor>, f: Filters, v: int)
    requires SortKeyOf(f.sort).Some?
    ensures var k := SortKeyOf(f.sort).value;
            Filter(FilterDoctors(ds, f), KeyIs(k, v)) == Filter(Matching(ds, f), KeyIs(k, v))
  {
    StepsAreMatching(ds, f);
    SortStable(Matching(ds, f), SortKeyOf(f.sort).value, v);
  }

  /** Filtering a second time with the same filters changes nothing. */
  lemma FilterDoctorsIdempotent(ds: seq<Doctor>, f: Filters)
    ensures FilterDoctors(FilterDoctors(ds, f), f) == FilterDoctors(ds, f)
  {
    var r := FilterDoctors(ds, f);
    StepsAreMatching(r, f);
    FilterAll(r, SelectedTest(f));
    if SortKeyOf(f.sort).Some? {
      SortSorted(r, SortKeyOf(f.sort).value);
    }
  }

  /** A consultation value other than the two mode names matches no doctor. */
  lemma UnknownConsultationMatchesNothing(ds: seq<Doctor>, f: Filters)
    requires UnknownMode(f.consultation)
    ensures FilterDoctors(ds, f) == []
  {
    FilterNone(ds, SelectedTest(f));
  }

  /** Two doctors with fees 500 and 300: sorting by fee puts the one with
      fee 300 first. */
  lemma ScenarioSortByFees(a: Doctor, b: Doctor)
    requires a.fee == 500 && b.fee == 300
    ensures FilterDoctors([a, b], Filters("", None, [], Some("fees"))) == [b, a]
  {
    var f := Filters("", None, [], Some("fees"));
    NoFiltersKeepAll([a, b], f);
    SortTwoByFee(a, b);
  }

  /** Filters that select nothing keep every doctor. */
  lemma NoFiltersKeepAll(ds: seq<Doctor>, f: Filters)
    requires f.search == "" && f.consultation.None? && f.specialties == []
    ensures Matching(ds, f) == ds
  {
    FilterAll(ds, SelectedTest(f));
  }

  /** Sorting fees 500 and 300 swaps them. */
  lemma SortTwoByFee(a: Doctor, b: Doctor)
    requires a.fee == 500 && b.fee == 300
    ensures Sort([a, b], Fees) == [b, a]
  {
    calc {
      Sort([a, b], Fees);
      { assert [a, b][1..] == [b]; }
      Insert(a, Sort([b], Fees), Fees);
      { assert Sort([b], Fees) == [b]; }
      Insert(a, [b], Fees);
      [b, a];
    }
  }

  /** An in-clinic doctor and a video doctor: the Video Consult filter
      keeps only the video doctor. */
  lemma ScenarioVideoConsult(a: Doctor, b: Doctor)
    requires a.consultationMode == [InClinic] && b.consultationMode == [VideoConsult]
    ensures FilterDoctors([a, b], Filters("", Some("Video Consult"), [], None)) == [b]
  {
    var f := Filters("", Some("Video Consult"), [], None);
    assert !HasMode(a, "Video Consult");
    assert HasMode(b, "Video Consult") by {
      assert VideoConsult in b.consultationMode;
    }
    FilterCons(a, [b], SelectedTest(f));
    FilterCons(b, [], SelectedTest(f));
  }
}
