/** The shapes of `src/types/doctor.ts`: a normalised doctor and the filter
    selection. */
module DoctorTypes {
  import opened Wrappers

  /** The two consultation modes a doctor record can carry. */
  datatype Mode = VideoConsult | InClinic

  /** The display string of a mode, which is also its filter value. */
  function ModeName(m: Mode): string {
    match m
    case VideoConsult => "Video Consult"
    case InClinic => "In Clinic"
  }

  /** A normalised doctor. The constant rating of the source is not kept. */
  datatype Doctor = Doctor(
    id: int,
    name: string,
    specialty: seq<string>,
    experience: int,
    fee: int,
    address: string,
    clinicName: string,
    place: string,
    consultationMode: seq<Mode>)

  /** The filter selection. `search` and `specialties` are optional in the
      source, and an absent one acts exactly like "" or [] wherever it is
      read; `consultation` and `sort` keep any string, since values read
      from the URL are cast rather than checked. */
  datatype Filters = Filters(
    search: string,
    consultation: Option<string>,
    specialties: seq<string>,
    sort: Option<string>)

  /** JavaScript truthiness of an optional string: present and non-empty. */
  predicate Truthy(o: Option<string>) {
    o.Some? && o.value != ""
  }

  /** The two recognised sort keys. */
  datatype SortKey = Fees | Experience

  function SortName(k: SortKey): string {
    match k
    case Fees => "fees"
    case Experience => "experience"
  }

  /** The key a sort string selects, if it is one of the two recognised ones. */
  function SortKeyOf(sort: Option<string>): (r: Option<SortKey>)
    ensures r.Some? <==> sort == Some("fees") || sort == Some("experience")
    ensures r.Some? ==> sort == Some(SortName(r.value))
  {
    if sort == Some("fees") then Some(Fees)
    else if sort == Some("experience") then Some(Experience)
    else None
  }
}
