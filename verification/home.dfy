/** The home page (js/main.js): the most recent experience and the most
    recent formation, each shown as a summary card, or a fixed message when
    the collection is empty.  "Most recent" means the greatest effective end
    date, where a record that is still running ends `now`. */
module Home {
  import opened Records
  import opened Dates
  import opened Sorting

  /** The end date `findLatestItem` compares: `now` for a missing end date
      or the literal 'Présent', the date itself otherwise. */
  function EffectiveEnd(r: Record, now: int): (d: int)
    ensures r.endDate.On? ==> d == r.endDate.time
    ensures !r.endDate.On? ==> d == now
  {
    match r.endDate
    case On(m) => m
    case _ => now
  }

  /** `findLatestItem`: the head of a copy of `items` stably sorted by
      descending effective end date. */
  function FindLatest(items: Option<seq<Record>>, now: int): (latest: Option<Record>)
    ensures latest.None? <==> items.None? || items.value == []
    ensures latest.Some? ==> latest.value in items.value
    ensures latest.Some? ==> forall x :: x in items.value ==> EffectiveEnd(x, now) <= EffectiveEnd(latest.value, now)
  {
    if items.None? || items.value == [] then None
    else
      var sorted := SortDesc(items.value, ByEffectiveEnd(now));
      assert sorted[0] in multiset(items.value);
      assert forall x :: x in items.value ==> x in multiset(sorted);
      Some(sorted[0])
  }

  /** The comparator of `findLatestItem`, as a sort key. */
  function ByEffectiveEnd(now: int): Record -> int {
    (r: Record) => EffectiveEnd(r, now)
  }

  /** `items[i]` is the first record of greatest effective end date. */
  ghost predicate IsFirstLatest(items: seq<Record>, now: int, i: int) {
    && 0 <= i < |items|
    && (forall j :: 0 <= j < |items| ==> EffectiveEnd(items[j], now) <= EffectiveEnd(items[i], now))
    && (forall j :: 0 <= j < i ==> EffectiveEnd(items[j], now) < EffectiveEnd(items[i], now))
  }

  /** Ties on the effective end date go to the record listed first. */
  lemma {:induction false} FindLatestIsFirstMaximum(items: seq<Record>, now: int)
    requires items != []
    ensures exists i :: IsFirstLatest(items, now, i) && FindLatest(Some(items), now) == Some(items[i])
  {
    var i := SortDescHeadIsFirstMax(items, ByEffectiveEnd(now));
    assert IsFirstLatest(items, now, i);
  }

  lemma FirstLatestUnique(items: seq<Record>, now: int, i: int, j: int)
    requires IsFirstLatest(items, now, i) && IsFirstLatest(items, now, j)
    ensures i == j
  {
    var ei, ej := EffectiveEnd(items[i], now), EffectiveEnd(items[j], now);
    assert ei <= ej && ej <= ei;
  }

  /** A one-pass scan for the first record of greatest effective end date,
      an independent formulation of `findLatestItem`. */
  method ScanLatest(items: seq<Record>, now: int) returns (latest: Option<Record>)
    ensures latest == FindLatest(Some(items), now)
  {
    if items == [] {
      return None;
    }
    var best := 0;
    var i := 1;
    while i < |items|
      invariant 1 <= i <= |items|
      invariant 0 <= best < i
      invariant forall j :: 0 <= j < i ==> EffectiveEnd(items[j], now) <= EffectiveEnd(items[best], now)
      invariant forall j :: 0 <= j < best ==> EffectiveEnd(items[j], now) < EffectiveEnd(items[best], now)
    {
      if EffectiveEnd(items[i], now) > EffectiveEnd(items[best], now) {
        best := i;
      }
      i := i + 1;
    }
    FindLatestIsFirstMaximum(items, now);
    ghost var k :| IsFirstLatest(items, now, k) && FindLatest(Some(items), now) == Some(items[k]);
    FirstLatestUnique(items, now, best, k);
    latest := Some(items[best]);
  }

  /** A record dated after `now` wins over every record that is still
      running: open-ended counts as `now`, not as the far future. */
  lemma FutureDateBeatsOpenEnded(items: seq<Record>, now: int, d: Record)
    requires d in items && d.endDate.On? && d.endDate.time > now
    ensures FindLatest(Some(items), now).Some?
    ensures FindLatest(Some(items), now).value.endDate.On?
    ensures FindLatest(Some(items), now).value.endDate.time >= d.endDate.time
  {
  }

  /** When every dated record ended before `now`, the first record that is
      still running is selected, wherever it stands. */
  lemma OpenEndedBeatsPastDates(items: seq<Record>, now: int, i: int)
    requires 0 <= i < |items| && !items[i].endDate.On?
    requires forall j :: 0 <= j < i ==> items[j].endDate.On?
    requires forall j :: 0 <= j < |items| && items[j].endDate.On? ==> items[j].endDate.time < now
    ensures FindLatest(Some(items), now) == Some(items[i])
  {
    FindLatestIsFirstMaximum(items, now);
    var k :| IsFirstLatest(items, now, k) && FindLatest(Some(items), now) == Some(items[k]);
    assert IsFirstLatest(items, now, i);
    FirstLatestUnique(items, now, i, k);
  }

  /** The summary card of `displayItem`, as the fields it shows. */
  datatype Card = Card(
    title: Str,
    period: Str,
    entityClass: Str,
    entityName: Str,
    contract: Option<Str>,
    location: Option<Str>,
    description: Str,
    tags: seq<Str>)

  const NoContract: Str := "Non spécifié"

  /** `displayItem`: experiences show their company and contract type,
      everything else its school; the location line only when there is one.
      The period is the one the code writes, "Invalid Date" included. */
  function DisplayItem(r: Record, fmt: int -> Str): (c: Card)
    ensures c.title == r.title && c.description == r.description && c.tags == r.skills
    ensures c.period == PeriodAsWritten(r, fmt)
    ensures c.contract.Some? <==> IsExperience(r)
    ensures c.contract.Some? && Truthy(r.contractType) ==> c.contract.value == r.contractType.value
    ensures c.contract.Some? && !Truthy(r.contractType) ==> c.contract.value == NoContract
    ensures c.entityClass == (if IsExperience(r) then "company" else "school")
    ensures c.entityName == Shown(if IsExperience(r) then r.company else r.school)
    ensures c.location.Some? <==> Truthy(r.location)
    ensures c.location.Some? ==> c.location.value == r.location.value
  {
    var experience := IsExperience(r);
    Card(
      r.title,
      PeriodAsWritten(r, fmt),
      if experience then "company" else "school",
      Shown(if experience then r.company else r.school),
      if experience then Some(OrElse(r.contractType, NoContract)) else None,
      if Truthy(r.location) then r.location else None,
      r.description,
      r.skills)
  }

  /** The card as intended: the same fields, with the corrected period in
      which the literal 'Présent' reads 'Présent'. */
  function CorrectedDisplayItem(r: Record, fmt: int -> Str): (c: Card)
    ensures c.period == Period(r, fmt)
    ensures c.(period := "") == DisplayItem(r, fmt).(period := "")
    ensures !r.endDate.PresentLiteral? ==> c == DisplayItem(r, fmt)
  {
    PeriodAsWrittenDiffersOnlyOnPresent(r, fmt);
    DisplayItem(r, fmt).(period := Period(r, fmt))
  }

  /** The corrected card reads 'Présent' exactly for the records
      `findLatestItem` treats as running until `now`, and shows the end
      date it compared for every other record. */
  lemma CardShowsOngoingIffRunning(r: Record, fmt: int -> Str, now: int)
    ensures !r.endDate.On? ==> CorrectedDisplayItem(r, fmt).period == fmt(r.startDate) + Separator + Ongoing
                               && EffectiveEnd(r, now) == now
    ensures r.endDate.On? ==> CorrectedDisplayItem(r, fmt).period == fmt(r.startDate) + Separator + fmt(EffectiveEnd(r, now))
  {
  }

  /** Counterexample: a running experience stored with the end date
      'Présent' wins the selection over one that ended before `now`, and
      the home page shows it as ending on an invalid date; the corrected
      card shows 'Présent'. */
  lemma LatestPresentCardShowsInvalidDate(now: int, fmt: int -> Str)
    ensures
      var past := Record(Some("experience"), "Ancien poste", "", 0, On(now - 1), None, None, None, None, []);
      var running := Record(Some("experience"), "Poste actuel", "", 0, PresentLiteral, None, None, None, None, []);
      var home := LoadHome(Loaded(Data(Some([past, running]), Some([]))), now, fmt);
      && FindLatest(Some([past, running]), now) == Some(running)
      && home.0 == CardShown(DisplayItem(running, fmt))
      && home.0.card.period == fmt(0) + " - Invalid Date"
      && CorrectedDisplayItem(running, fmt).period == fmt(0) + " - Présent"
  {
    var past := Record(Some("experience"), "Ancien poste", "", 0, On(now - 1), None, None, None, None, []);
    var running := Record(Some("experience"), "Poste actuel", "", 0, PresentLiteral, None, None, None, None, []);
    OpenEndedBeatsPastDates([past, running], now, 1);
  }

  /** What one home section shows. */
  datatype Section = CardShown(card: Card) | Message(text: Str)

  const NoExperience: Str := "Aucune expérience disponible pour le moment."
  const NoFormation: Str := "Aucune formation disponible pour le moment."
  const LoadError: Str := "Impossible de charger les données."

  /** One section of `loadData`: the latest record's card, or the fixed
      message when the collection is missing or empty. */
  function ShowLatest(items: Option<seq<Record>>, empty: Str, now: int, fmt: int -> Str): (s: Section)
    ensures s.Message? <==> items.None? || items.value == []
    ensures s.Message? ==> s.text == empty
    ensures s.CardShown? ==> items.Some? && s.card == DisplayItem(FindLatest(items, now).value, fmt)
  {
    match FindLatest(items, now)
    case None => Message(empty)
    case Some(r) => CardShown(DisplayItem(r, fmt))
  }

  /** `loadData`: the experience section and the formation section, each
      decided on its own collection; a failed load shows the error message
      in both. */
  function LoadHome(load: Load, now: int, fmt: int -> Str): (sections: (Section, Section))
    ensures load.LoadFailed? ==> sections == (Message(LoadError), Message(LoadError))
    ensures load.Loaded? ==>
      && sections.0 == ShowLatest(load.data.experiences, NoExperience, now, fmt)
      && sections.1 == ShowLatest(load.data.formations, NoFormation, now, fmt)
  {
    match load
    case LoadFailed => (Message(LoadError), Message(LoadError))
    case Loaded(data) =>
      (ShowLatest(data.experiences, NoExperience, now, fmt), ShowLatest(data.formations, NoFormation, now, fmt))
  }

  /** Each section depends only on its own collection: an empty formation
      list does not hide the latest experience, and vice versa. */
  lemma SectionsIndependent(exps: seq<Record>, forms: seq<Record>, now: int, fmt: int -> Str)
    ensures LoadHome(Loaded(Data(Some(exps), Some(forms))), now, fmt).0.Message? <==> exps == []
    ensures LoadHome(Loaded(Data(Some(exps), Some(forms))), now, fmt).1.Message? <==> forms == []
    ensures exps != [] ==> LoadHome(Loaded(Data(Some(exps), Some(forms))), now, fmt).0
                           == CardShown(DisplayItem(FindLatest(Some(exps), now).value, fmt))
    ensures forms != [] ==> LoadHome(Loaded(Data(Some(exps), Some(forms))), now, fmt).1
                            == CardShown(DisplayItem(FindLatest(Some(forms), now).value, fmt))
  {
  }
}
