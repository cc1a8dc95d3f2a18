/** The formations detail page (js/formations_only.js): every formation as
    a detail card, most recent end date first. */
module FormationList {
  import opened Records
  import opened Dates
  import opened Sorting
  import Home

  /** A record whose end date is a date.  The page compares end dates by
      subtracting them, so it orders only collections of such records. */
  type DatedRecord = r: Record | r.endDate.On?
    witness Record(None, "", "", 0, On(0), None, None, None, None, [])

  function EndKey(r: DatedRecord): int {
    r.endDate.time
  }

  /** `formations.sort((a, b) => new Date(b.end_date) - new Date(a.end_date))` */
  function SortByEnd(formations: seq<DatedRecord>): (sorted: seq<DatedRecord>)
    ensures |sorted| == |formations|
    ensures multiset(sorted) == multiset(formations)
    ensures forall i, j :: 0 <= i < j < |sorted| ==> sorted[i].endDate.time >= sorted[j].endDate.time
    ensures forall k :: WithKey(sorted, EndKey, k) == WithKey(formations, EndKey, k)
  {
    var sorted := SortDesc(formations, EndKey);
    assert forall i, j :: 0 <= i < j < |sorted| ==> EndKey(sorted[i]) >= EndKey(sorted[j]);
    sorted
  }

  /** The kind-specific lines of a detail card, in the order shown. */
  datatype Line = ContractLine(contract: Str) | SchoolLine(school: Str) | LocationLine(location: Str)

  /** The detail card of `displayItems`, as the fields it shows. */
  datatype DetailCard = DetailCard(
    cssClass: Str,
    title: Str,
    entity: Str,
    period: Str,
    specific: seq<Line>,
    description: Str,
    skillTags: seq<Str>)

  const NoContract: Str := "Non Spécifié"

  /** One card of `displayItems`: the class and the entity line follow the
      record's kind, and so do the kind-specific lines: the contract type
      (or a placeholder) then the location for an experience, the school then
      the location for anything else. */
  function DisplayItem(r: Record, fmt: int -> Str): (c: DetailCard)
    ensures c.cssClass == "experience-detail" <==> IsExperience(r)
    ensures c.cssClass == "formation-detail" <==> !IsExperience(r)
    ensures c.title == r.title && c.description == r.description
    ensures c.period == PeriodAsWritten(r, fmt)
    ensures |c.skillTags| == |r.skills| && forall i :: 0 <= i < |r.skills| ==> c.skillTags[i] == r.skills[i]
    ensures |c.specific| == 2 && c.specific[1] == LocationLine(Shown(r.location))
    ensures IsExperience(r) ==> c.entity == Shown(r.company) && c.specific[0].ContractLine?
    ensures IsExperience(r) && Truthy(r.contractType) ==> c.specific[0] == ContractLine(r.contractType.value)
    ensures IsExperience(r) && !Truthy(r.contractType) ==> c.specific[0] == ContractLine(NoContract)
    ensures !IsExperience(r) ==> c.entity == Shown(r.school) && c.specific[0] == SchoolLine(c.entity)
  {
    var experience := IsExperience(r);
    var first := if experience then ContractLine(OrElse(r.contractType, NoContract)) else SchoolLine(Shown(r.school));
    DetailCard(
      if experience then "experience-detail" else "formation-detail",
      r.title,
      Shown(if experience then r.company else r.school),
      PeriodAsWritten(r, fmt),
      [first, LocationLine(Shown(r.location))],
      r.description,
      r.skills)
  }

  /** `displayItems`: one card per record, in the given order. */
  function DisplayItems(items: seq<Record>, fmt: int -> Str): (cards: seq<DetailCard>)
    ensures |cards| == |items|
    ensures forall i :: 0 <= i < |items| ==> cards[i] == DisplayItem(items[i], fmt)
  {
    seq(|items|, i requires 0 <= i < |items| => DisplayItem(items[i], fmt))
  }

  /** The details container: the cards, or the fixed error message. */
  datatype Details = Cards(cards: seq<DetailCard>) | Failure(message: Str)

  const LoadFailure: Str := "Désolé, impossible de charger les détails des formations."

  predicate AllDated(items: seq<Record>) {
    forall i :: 0 <= i < |items| ==> items[i].endDate.On?
  }

  /** `loadData`: a failed load, or a missing collection (`.sort` of
      `undefined` throws), shows the error message; otherwise every
      formation is shown, sorted by end date. */
  function LoadDetails(load: Load, fmt: int -> Str): (d: Details)
    requires load.Loaded? && load.data.formations.Some? ==> AllDated(load.data.formations.value)
    ensures d.Failure? <==> load.LoadFailed? || load.data.formations.None?
    ensures d.Failure? ==> d.message == LoadFailure
    ensures d.Cards? ==> d.cards == DisplayItems(SortByEnd(load.data.formations.value), fmt)
  {
    match load
    case LoadFailed => Failure(LoadFailure)
    case Loaded(data) =>
      if data.formations.None? then Failure(LoadFailure)
      else
        var dated: seq<DatedRecord> := data.formations.value;
        Cards(DisplayItems(SortByEnd(dated), fmt))
  }

  /** The page shows one card per formation, each formation once, with end
      dates never increasing down the page. */
  lemma OneCardPerFormationInEndOrder(formations: seq<Record>, fmt: int -> Str)
    requires AllDated(formations)
    ensures
      var d := LoadDetails(Loaded(Data(None, Some(formations))), fmt);
      var sorted := SortByEnd(formations);
      && d.Cards? && |d.cards| == |formations|
      && multiset(sorted) == multiset(formations)
      && forall i :: 0 <= i < |d.cards| ==>
           d.cards[i] == DisplayItem(sorted[i], fmt)
           && (i + 1 < |d.cards| ==> sorted[i].endDate.time >= sorted[i + 1].endDate.time)
  {
  }

  /** On lists whose formations all carry a date, the period as written and
      the corrected period coincide on every card. */
  lemma PeriodsCoincideOnDatedLists(formations: seq<Record>, fmt: int -> Str)
    requires AllDated(formations)
    ensures
      var d := LoadDetails(Loaded(Data(None, Some(formations))), fmt);
      var sorted := SortByEnd(formations);
      forall i :: 0 <= i < |d.cards| ==> d.cards[i].period == Period(sorted[i], fmt)
  {
  }

  /** Counterexample: a lone formation stored with the end date 'Présent'
      is never handed to the comparator, and its card ends in "Invalid Date";
      the corrected period ends in 'Présent'. */
  lemma PresentFormationShowsInvalidDate(fmt: int -> Str)
    ensures
      var r := Record(Some("formation"), "Master", "", 0, PresentLiteral, None, None, None, None, []);
      && !AllDated([r])
      && DisplayItems([r], fmt)[0].period == fmt(0) + " - Invalid Date"
      && Period(r, fmt) == fmt(0) + " - Présent"
  {
  }

  /** The detail card and the home card agree on the title, the period and
      the entity, and on a given contract type; they spell the missing
      contract placeholder differently ('Non Spécifié' here, 'Non spécifié'
      on the home page). */
  lemma DetailAndHomeCardsAgree(r: Record, fmt: int -> Str)
    ensures
      var detail, home := DisplayItem(r, fmt), Home.DisplayItem(r, fmt);
      && detail.title == home.title && detail.period == home.period
      && detail.entity == home.entityName
      && (IsExperience(r) && Truthy(r.contractType) ==> detail.specific[0].contract == home.contract.value)
      && (IsExperience(r) && !Truthy(r.contractType) ==> detail.specific[0].contract != home.contract.value)
  {
    var detail, home := DisplayItem(r, fmt), Home.DisplayItem(r, fmt);
    if IsExperience(r) && !Truthy(r.contractType) {
      assert detail.specific[0].contract[4] != home.contract.value[4];
    }
  }
}
