# Doctor finder: the filtering pipeline in Dafny

This project models the pure core of a small client-side doctor directory.
The application fetches provider records from a JSON endpoint and normalises
them into doctors. The user can then search by name with autocomplete,
filter by consultation mode and specialty, and sort by fee or experience.
The filter selection is mirrored in the URL query.

The model covers:

- **Record normalisation** (`DoctorService.Normalize`, `Transform`). This
  extracts the fee from its digit characters and reads the experience with
  ECMAScript `parseInt` semantics (module `JsParseInt`). That includes the
  leading white space, the sign and the `0x` prefix. Experience can
  therefore be negative. The two consultation flags become a mode list,
  Video Consult first. Missing clinic fields default to "".
- **`getAllSpecialties`** (`DoctorService.GetAllSpecialties`). Its result is
  the distinct specialties, strictly sorted in the ECMAScript string order
  (`JsText.Less`).
- **`filterDoctors`** (`DoctorService.FilterDoctors`). The search,
  consultation and specialty filters run one after another. A stable sort
  follows when the sort string is `"fees"` or `"experience"`
  (module `DoctorSort`, an insertion sort).
- **The search box** (module `SearchBar`). This covers the suggestion list
  and the flag that shows or hides it.
- **The filter panel** (module `FilterPanel`). This covers the specialty
  checkbox toggle, "Clear All", and the radio buttons. Each control is
  modelled as the `onFilterChange` updates it reports.
- **The page** (module `DoctorsPage`). This covers the two update handlers,
  reading the filters from the URL, writing them back, and the effect that
  re-filters only when the doctor list is non-empty.

Consultation and sort values read from the URL are cast, not checked. So the
filters keep them as arbitrary optional strings, and "truthy" means present
and non-empty (`DoctorTypes.Truthy`). An unknown consultation string matches
no doctor. An unknown sort string leaves the order alone. The functions are
pure, so `filterDoctors` never changing its input array holds by
construction.

Experience is whatever `parseInt` reads at the start of the text, so
`parseInt("-3 years")` gives a doctor with experience -3. Two doctors with
the same name give the same suggestion twice. Suggestions appear only when
the trimmed term is non-empty, but the matching uses the untrimmed term, so
a leading or trailing space takes part in the match. The model keeps all
three behaviours.

## Model

| member | source | states |
|---|---|---|
| JsText.Trim | src/components/SearchBar.tsx:18 | the trimmed term is empty exactly when every character is ECMAScript white space, and otherwise starts and ends with a non-space |
| JsText.ContainsIff | src/services/doctorService.ts:61-63 | `includes` holds exactly when the term occurs at some position of the name |
| JsText.Split | src/pages/Doctors.tsx:24 | splitting at commas gives at least one piece and no piece contains a comma |
| JsText.SplitJoin | src/pages/Doctors.tsx:24 | splitting the comma-join of one or more comma-free strings gives those strings back |
| JsText.JoinSplit | src/pages/Doctors.tsx:62 | joining the pieces of a split with commas gives the original string |
| JsText.JoinEmptyIff | src/pages/Doctors.tsx:62 | the join is empty exactly for no pieces or a single empty piece |
| JsText.LessIrreflexive | src/services/doctorService.ts:45 | no string sorts before itself |
| JsText.LessTransitive | src/services/doctorService.ts:45 | the string order used by the default sort is transitive |
| JsText.LessTotal | src/services/doctorService.ts:45 | of two different strings one sorts before the other |
| JsText.LessAsymmetric | src/services/doctorService.ts:45 | two strings never sort before each other both ways |
| JsParseInt.ParseIntToString | src/services/doctorService.ts:19 | `parseInt` reads back any integer's numeral followed by text such as " Years of experience", unless the text starts with a digit or turns "0" into a "0x" hex prefix |
| JsParseInt.ParseIntSkipsSpace | src/services/doctorService.ts:19 | leading white space does not change what `parseInt` reads |
| JsParseInt.ParseDigits | src/services/doctorService.ts:20 | `parseInt(...) \|\| 0` of a digits-only string is its decimal value, and 0 for the empty string |
| DoctorService.DigitsOnly | src/services/doctorService.ts:20 | removing every non-digit leaves only ASCII digits, and keeps every digit of the input in its order and with its multiplicity |
| DoctorService.FeeOf | src/services/doctorService.ts:20 | the fee is the decimal value of all digits of the fee string read as one numeral, 0 when there are none or the field is absent, and never negative |
| JsParseInt.ParseIntNoNumber | src/services/doctorService.ts:19 | `ParseInt`, the model of `parseInt`, gives NaN for text with no decimal digit after its leading white space and optional sign, and `parseInt(...) \|\| 0` turns that into 0 |
| JsParseInt.ParseIntDecimal | src/services/doctorService.ts:19 | without a `0x` prefix, `ParseInt` reads the longest decimal digit run after the white space and sign, with that sign, leading zeros included |
| JsParseInt.ParseIntHex | src/services/doctorService.ts:19 | after a `0x`/`0X` prefix `ParseInt` reads the longest hexadecimal digit run, with the sign; with no hex digit it is NaN, so `\|\| 0` gives 0 |
| JsParseInt.ParseNumeralOrZero | src/services/doctorService.ts:19 | `parseInt(x) \|\| 0` of white space, the numeral of an integer n, then text that cannot continue the numeral, is n |
| DoctorService.ExperienceOf | src/services/doctorService.ts:19 | an absent experience is 0; text with no digit after its white space and sign is 0; otherwise it is the signed value of the leading decimal digit run, or of the hex digit run after `0x`; in particular white space, the numeral of an integer n (negative ones included), then anything that cannot continue the numeral, gives n |
| DoctorService.Names | src/services/doctorService.ts:18 | the specialty list is the records' `name` fields, one per record, in order |
| DoctorService.ModesOf | src/services/doctorService.ts:25-28 | Video Consult is present iff the video flag is set and In Clinic iff the clinic flag is set; no duplicates, at most two, Video Consult first |
| DoctorService.Normalize | src/services/doctorService.ts:16-28 | id and name are copied; the fee is the digit value and non-negative; the specialty names come in order or the list is empty; the modes are exactly those of `ModesOf` for the two flags, Video Consult first and no duplicates; experience is read as `ExperienceOf` reads it; address, clinic name and place are the clinic's address line, name, and locality ", " city, with absent parts as "", so without a clinic they are "", "" and ", " |
| DoctorService.Transform | src/services/doctorService.ts:15-29 | one doctor per record, same length, the i-th doctor normalised from the i-th record |
| DoctorService.FeeExample | src/services/doctorService.ts:20 | the fee string "₹500" gives fee 500 |
| DoctorService.ExperienceExample | src/services/doctorService.ts:19 | "13 Years of experience" gives experience 13 |
| DoctorService.FresherExample | src/services/doctorService.ts:19 | "Fresher", which holds no number, gives experience 0 |
| DoctorService.LeadingZeroExample | src/services/doctorService.ts:19 | "05 years" gives experience 5 |
| DoctorService.NormalizeExample | src/services/doctorService.ts:15-29 | the record with fee "₹500", experience "13 Years of experience", video only gives fee 500, experience 13, modes [Video Consult] |
| DoctorService.InsertUnique | src/services/doctorService.ts:41 | adding one specialty to a strictly sorted list keeps it strictly sorted and adds exactly that element |
| DoctorService.SortUnique | src/services/doctorService.ts:45 | the result is strictly sorted and holds exactly the elements of the input |
| DoctorService.AllSpecialties | src/services/doctorService.ts:39-43 | a string is collected iff some doctor lists it as a specialty |
| DoctorService.GetAllSpecialties | src/services/doctorService.ts:36-46 | the result is strictly sorted (so duplicate-free) and its elements are exactly the union of all doctors' specialties |
| DoctorService.StrictlySortedUnique | src/services/doctorService.ts:45 | two strictly sorted lists with the same elements are equal, so the order in which the `Set` collected them does not matter |
| DoctorService.StepsAreMatching | src/services/doctorService.ts:59-79 | the three filters applied one after another, each skipped when empty or unset, keep exactly the doctors passing all active filters, in input order |
| DoctorService.FilterDoctors | src/services/doctorService.ts:48-89 | every result is an input doctor passing every active filter; every input doctor passing them all is kept, as often as it occurs; the result is a permutation of the filtered list; without a recognised sort key it is the filtered list itself; with "fees" fees never decrease, with "experience" experience never increases |
| DoctorService.FilterDoctorsKeepsOrder | src/services/doctorService.ts:57-88 | with the sort unset or unrecognised, the result is a subsequence of the input |
| DoctorService.FilterDoctorsStable | src/services/doctorService.ts:82-86 | doctors tying on the sort key keep the relative order they had after filtering |
| DoctorService.FilterDoctorsIdempotent | src/services/doctorService.ts:48-89 | filtering the result again with the same filters returns it unchanged |
| DoctorService.UnknownConsultationMatchesNothing | src/services/doctorService.ts:68-72 | a non-empty consultation string other than the two mode names yields an empty result |
| DoctorService.ScenarioSortByFees | src/services/doctorService.ts:82-83 | doctors with fees 500 and 300 sorted by "fees" come out as the 300 one, then the 500 one |
| DoctorService.ScenarioVideoConsult | src/services/doctorService.ts:68-72 | of an In Clinic doctor and a Video Consult doctor, the "Video Consult" filter keeps only the second |
| DoctorSort.Sort | src/services/doctorService.ts:82-86 | the sort returns a permutation of its input, ordered by the comparator's key |
| DoctorSort.SortStable | src/services/doctorService.ts:82-86 | among elements with equal key the input order is kept |
| DoctorSort.SortSorted | src/services/doctorService.ts:82-86 | sorting an already sorted list changes nothing |
| SearchBar.DoctorNames | src/components/SearchBar.tsx:26 | one name per doctor, in order |
| SearchBar.Suggestions | src/components/SearchBar.tsx:17-30 | at most three suggestions, and none for a blank term |
| SearchBar.SuggestionsMatch | src/components/SearchBar.tsx:23-27 | each suggestion is the name of a listed doctor whose lower-cased name includes the lower-cased, untrimmed term |
| SearchBar.SuggestionsLeadFilterResult | src/components/SearchBar.tsx:23-27 | for a non-blank term the suggestions are the first min(3, n) names of the n doctors `filterDoctors` returns for that search alone, in list order |
| SearchBar.SelfMatchSuggested | src/components/SearchBar.tsx:23-27 | a listed doctor with a non-blank name always gets suggestions for that name |
| SearchBar.Step | src/components/SearchBar.tsx:45-59 | typing or focusing sets the show flag; clicking a suggestion, Enter or an outside click clears it; other keys change nothing; only typing and clicking a suggestion change the term, to the typed value or to exactly that suggestion |
| SearchBar.ClickedSuggestionReappearsOnFocus | src/components/SearchBar.tsx:50-53 | after clicking a suggestion the term is that suggestion and the list is hidden (`SearchBar.Displayed`, the render condition at line 77, is false); focusing again shows a non-empty list |
| FilterPanel.ToggleSpecialty | src/components/FilterPanel.tsx:79-81 | the specialty's checkbox flips; an unselected one is appended at the end with the rest unchanged; a selected one loses every occurrence while the others keep their order and counts |
| DoctorsPage.SpecialtyCheckboxToggles | src/components/FilterPanel.tsx:78-83 | the update a specialty checkbox reports (`FilterPanel.SpecialtyChanged`), once applied, replaces the selection by its toggle: the specialty flips and no other filter changes |
| FilterPanel.ToggleTwice | src/components/FilterPanel.tsx:79-82 | toggling an unselected specialty twice restores the selection |
| FilterPanel.AtMostOneChecked | src/components/FilterPanel.tsx:47-57 | at most one consultation radio and at most one sort radio is checked |
| DoctorsPage.HandleFilterChange | src/pages/Doctors.tsx:71-76 | the update's field takes the new value and every other field keeps its value |
| DoctorsPage.HandleSearchChange | src/pages/Doctors.tsx:79-84 | only the search term changes, to the given term |
| DoctorsPage.ClearAllResets | src/components/FilterPanel.tsx:15-25 | the three updates of `FilterPanel.ClearFilters`, applied in order by `DoctorsPage.ApplyUpdates` as React's functional updates are, unset consultation and sort, empty the specialties and keep the search term; `FilterPanel.ShowClearAll`, the button's condition, is then false |
| DoctorsPage.ConsultationRadioSelects | src/components/FilterPanel.tsx:47-58 | a consultation radio sets the consultation to its own mode name, which checks it and unchecks the other, and changes no other field |
| DoctorsPage.SortRadioSelects | src/components/FilterPanel.tsx:102-113 | a sort radio sets the sort to its own key name, which checks it and unchecks the other, and changes no other field |
| DoctorsPage.Decode | src/pages/Doctors.tsx:21-26 | a present search is copied and an absent one is ""; a non-empty consultation or sort is copied and an absent or empty one is unset; a non-empty specialties parameter is split at commas and an absent or empty one gives none; the result never holds an empty consultation or sort, a lone empty specialty, or a specialty with a comma |
| DoctorsPage.Encode | src/pages/Doctors.tsx:57-64 | a parameter is written exactly when its field is non-empty or set, and no other parameter is written; search, consultation and sort are written as they are, and the specialties as their comma-join |
| DoctorsPage.DecodeEncode | src/pages/Doctors.tsx:57-64 | reading back the written query gives the same filters, provided no specialty contains a comma, the specialties are not a lone "", and consultation and sort are not "" |
| DoctorsPage.EncodeDecode | src/pages/Doctors.tsx:21-26 | writing back filters read from a query of the four parameters, none empty, reproduces the query |
| DoctorsPage.RoundTripCounterexamples | src/pages/Doctors.tsx:62 | a lone empty specialty comes back as none, and a specialty "a,b" comes back as two |
| DoctorsPage.Refilter | src/pages/Doctors.tsx:51-68 | with an empty doctor list nothing changes; otherwise the shown list is `filterDoctors` of the doctors and filters, which themselves are untouched, and the URL is `Encode` of the filters |
| DoctorsPage.RefilterSyncsUrl | src/pages/Doctors.tsx:51-68 | after re-filtering a non-empty list, the URL decodes to the filters in force, provided no selected specialty contains a comma, the selection is not a lone "", and consultation and sort are not ""; a second run changes nothing |

## Left out

- The HTTP fetch, the `response.ok` check, JSON parsing and the error re-throw of `fetchDoctors` are network I/O. The model starts from already-parsed records.
- React state, effects, `setSearchParams`, loading, error and retry state, and all rendering are UI plumbing. The suggestion list is taken as the one computed for the current term, which is what the effect keeps it.
- The document mousedown listener is browser event wiring. An outside click is the abstract `ClickedOutside` event.
- `AppointmentDialog.tsx` depends on the wall clock and date formatting. `Index.tsx` is static markup. `DoctorCard` is not part of this model.
- The constant rating 4.5 is a floating-point placeholder. It is not kept in `Doctor`.
- `Number(item.id)` coercion is not modelled. The raw record already carries an integer id, and its name is assumed to be a string.
- A fee or experience sent as a JSON number is not modelled, only the string forms (a number fee makes `replace` throw). Absent or falsy consultation flags are `false`.
- The URL's percent-encoding is the browser's business. Parameters are modelled as decoded strings.
- JsText.LowerChar: lower-cases ASCII letters only, because full Unicode case mapping is outside the model.
- JsText.Less: orders strings by Unicode code point. ECMAScript compares UTF-16 code units, and the two orders differ only between supplementary-plane characters and those from U+E000 to U+FFFF.
- DoctorService.Names: a speciality entry without a `name` is not modelled. `RawSpeciality.name` is always a string, where the source would put `undefined` in the list.
- DoctorService.FeeOf: computes the exact integer. ECMAScript numbers round beyond 2^53, so fee strings with more than 15 digits may differ.
- DoctorService.ExperienceOf: reads the leading digits as an exact integer. ECMAScript numbers round beyond 2^53, so a longer digit run may read differently.
- JsParseInt.ParseIntToString: holds for exact integers. The same rounding applies to `parseInt` beyond 2^53.
- DoctorSort.Sort: compares keys exactly. The source's comparators subtract floating-point numbers, which agrees for keys below 2^53.
