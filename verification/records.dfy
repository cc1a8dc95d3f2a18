/** The résumé data as the scripts receive it after `response.json()`:
    two collections of event records.  A date is an integer time value at
    the resolution of the clock (the milliseconds of a JavaScript `Date`);
    how one is spelled out (`toLocaleDateString`) is a parameter `fmt` of
    every operation that formats one. */
module Records {

  type Str = seq<char>

  datatype Option<+T> = None | Some(value: T)

  /** The `end_date` field of a record.  `Open` is a missing (or empty)
      field, `PresentLiteral` is the string 'Présent' that some records
      carry, and `On(time)` is a parsable date. */
  datatype EndDate = Open | PresentLiteral | On(time: int)

  /** One experience or formation.  Optional string fields are `None` when
      the JSON object lacks them; `kind` is the `type` field. */
  datatype Record = Record(
    kind: Option<Str>,
    title: Str,
    description: Str,
    startDate: int,
    endDate: EndDate,
    location: Option<Str>,
    company: Option<Str>,
    school: Option<Str>,
    contractType: Option<Str>,
    skills: seq<Str>)

  /** The parsed data file; a collection is `None` when its key is absent. */
  datatype Data = Data(experiences: Option<seq<Record>>, formations: Option<seq<Record>>)

  /** Outcome of fetching and parsing the data file: a failed fetch, a
      non-success status and a body that is not JSON all end in `LoadFailed`. */
  datatype Load = Loaded(data: Data) | LoadFailed

  /** `item.type === 'experience'` */
  predicate IsExperience(r: Record) {
    r.kind == Some("experience")
  }

  /** The text a template literal produces for an optional string field:
      the string itself, or "undefined" when the field is missing. */
  function Shown(o: Option<Str>): (s: Str)
    ensures o.Some? ==> s == o.value
    ensures o.None? ==> s == "undefined"
  {
    match o
    case Some(v) => v
    case None => "undefined"
  }

  /** A present, non-empty string: JavaScript truthiness of a string field. */
  predicate Truthy(o: Option<Str>) {
    o.Some? && o.value != ""
  }

  /** `field || fallback` on an optional string field. */
  function OrElse(o: Option<Str>, fallback: Str): (s: Str)
    ensures Truthy(o) ==> s == o.value
    ensures !Truthy(o) ==> s == fallback
  {
    if Truthy(o) then o.value else fallback
  }

  /** The titles of a collection, in collection order (`items.map(x => x.title)`). */
  function Titles(items: seq<Record>): (ts: seq<Str>)
    ensures |ts| == |items|
    ensures forall i :: 0 <= i < |items| ==> ts[i] == items[i].title
  {
    seq(|items|, i requires 0 <= i < |items| => items[i].title)
  }
}
