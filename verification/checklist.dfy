/** The title checklist of the search page (js/recherche.js): the `type`
    URL parameter picks a collection, whose distinct titles are listed in
    sorted order, one checkbox each. */
module Checklist {
  import opened Records
  import opened StringOrder
  import opened Slug

  /** Every title sorts strictly before the next: sorted and without
      duplicates. */
  ghost predicate StrictlyAscending(s: seq<Str>) {
    forall i, j :: 0 <= i < j < |s| ==> Less(s[i], s[j])
  }

  ghost predicate Distinct(s: seq<Str>) {
    forall i, j :: 0 <= i < j < |s| ==> s[i] != s[j]
  }

  /** `[...new Set(titles)]`: each title of the input, once. */
  function Dedup(titles: seq<Str>): (d: seq<Str>)
    ensures Distinct(d)
    ensures forall t :: t in d <==> t in titles
  {
    if titles == [] then []
    else
      var init := titles[..|titles| - 1];
      var last := titles[|titles| - 1];
      assert titles == init + [last];
      var d := Dedup(init);
      if last in d then d else d + [last]
  }

  /** Inserts a title not yet present into an ascending list. */
  function InsertTitle(x: Str, s: seq<Str>): (r: seq<Str>)
    requires StrictlyAscending(s) && x !in s
    ensures StrictlyAscending(r)
    ensures forall t :: t in r <==> t == x || t in s
    ensures |r| == |s| + 1
  {
    if s == [] then [x]
    else if Less(x, s[0]) then
      forall j | 0 <= j < |s| ensures Less(x, s[j]) {
        if j > 0 {
          LessTransitive(x, s[0], s[j]);
        }
      }
      [x] + s
    else
      LessTotal(x, s[0]);
      assert StrictlyAscending(s[1..]);
      var t := InsertTitle(x, s[1..]);
      assert forall j :: 0 <= j < |t| ==> t[j] == x || t[j] in s[1..];
      [s[0]] + t
  }

  /** `.sort()` of a list of distinct titles. */
  function SortTitles(s: seq<Str>): (r: seq<Str>)
    requires Distinct(s)
    ensures StrictlyAscending(r)
    ensures forall t :: t in r <==> t in s
    ensures |r| == |s|
  {
    if s == [] then []
    else
      assert Distinct(s[1..]);
      assert s[0] !in s[1..];
      InsertTitle(s[0], SortTitles(s[1..]))
  }

  /** `[...new Set(titles)].sort()` */
  function UniqueTitles(titles: seq<Str>): (u: seq<Str>)
    ensures StrictlyAscending(u)
    ensures forall t :: t in u <==> t in titles
    ensures |u| <= |titles|
  {
    var d := Dedup(titles);
    DistinctNoLonger(d, titles);
    SortTitles(d)
  }

  /** A duplicate-free list is no longer than any list holding its elements. */
  lemma {:induction false} DistinctNoLonger(d: seq<Str>, s: seq<Str>)
    requires Distinct(d)
    requires forall t :: t in d ==> t in s
    ensures |d| <= |s|
  {
    var ds := set t | t in d;
    var ss := set t | t in s;
    assert ds <= ss;
    DistinctCard(d);
    SetCardAtMostLength(s);
    SubsetCard(ds, ss);
  }

  lemma {:induction false} DistinctCard(d: seq<Str>)
    requires Distinct(d)
    ensures |set t | t in d| == |d|
  {
    if d != [] {
      var init := d[..|d| - 1];
      assert d == init + [d[|d| - 1]];
      assert Distinct(init);
      DistinctCard(init);
      assert (set t | t in d) == (set t | t in init) + {d[|d| - 1]};
    }
  }

  lemma {:induction false} SetCardAtMostLength(s: seq<Str>)
    ensures |set t | t in s| <= |s|
  {
    if s != [] {
      var init := s[..|s| - 1];
      assert s == init + [s[|s| - 1]];
      SetCardAtMostLength(init);
      assert (set t | t in s) == (set t | t in init) + {s[|s| - 1]};
    }
  }

  lemma SubsetCard(a: set<Str>, b: set<Str>)
    requires a <= b
    ensures |a| <= |b|
  {
    assert b == a + (b - a);
  }

  /** Lists with the same elements are empty together. */
  lemma SameElementsBothEmpty(a: seq<Str>, b: seq<Str>)
    requires forall t :: t in a <==> t in b
    ensures a == [] <==> b == []
  {
    if a != [] {
      assert a[0] in b;
    }
    if b != [] {
      assert b[0] in a;
    }
  }

  /** Two strictly ascending lists of the same titles are equal: the
      sorted, duplicate-free listing of a set of titles is unique. */
  lemma {:induction false} AscendingUnique(a: seq<Str>, b: seq<Str>)
    requires StrictlyAscending(a) && StrictlyAscending(b)
    requires forall t :: t in a <==> t in b
    ensures a == b
  {
    SameElementsBothEmpty(a, b);
    if a != [] {
      assert b[0] in b && a[0] in a;
      var i :| 0 <= i < |a| && a[i] == b[0];
      var j :| 0 <= j < |b| && b[j] == a[0];
      assert a[0] == b[0] || Less(a[0], b[0]) by {
        if i > 0 { assert Less(a[0], a[i]); }
      }
      assert a[0] == b[0] || Less(b[0], a[0]) by {
        if j > 0 { assert Less(b[0], b[j]); }
      }
      if Less(a[0], b[0]) {
        LessAsymmetric(a[0], b[0]);
      }
      assert a[0] == b[0];
      assert StrictlyAscending(a[1..]) && StrictlyAscending(b[1..]);
      forall t ensures t in a[1..] <==> t in b[1..] {
        if t in a[1..] {
          var i :| 0 <= i < |a[1..]| && a[1..][i] == t;
          assert Less(a[0], t);
          LessIrreflexive(t);
          assert t in b;
        }
        if t in b[1..] {
          var j :| 0 <= j < |b[1..]| && b[1..][j] == t;
          assert Less(b[0], t);
          LessIrreflexive(t);
          assert t in a;
        }
      }
      AscendingUnique(a[1..], b[1..]);
      assert a == [a[0]] + a[1..] && b == [b[0]] + b[1..];
    }
  }

  /** `UniqueTitles` is the one sorted duplicate-free listing of the titles,
      whatever order they came in. */
  lemma UniqueTitlesCharacterised(titles: seq<Str>, u: seq<Str>)
    requires StrictlyAscending(u) && forall t :: t in u <==> t in titles
    ensures u == UniqueTitles(titles)
  {
    AscendingUnique(u, UniqueTitles(titles));
  }

  /** A checkbox of the grid: `id` and `for` of the label, `name`, `value`
      and the label text. */
  datatype Checkbox = Checkbox(id: Str, name: Str, value: Str, text: Str)

  /** The filter container: a message, or the grid with its submit button. */
  datatype Body = Notice(message: Str) | Grid(boxes: seq<Checkbox>)

  /** The page: heading and subtitle (`None` when left as loaded) and the
      filter container. */
  datatype Page = Page(heading: Option<Str>, subtitle: Option<Str>, body: Body)

  function NoTitles(criterion: Str): Str {
    "Aucun(e) " + criterion + " disponible pour le moment."
  }

  /** `displayCheckboxes(items, type)` */
  function DisplayCheckboxes(items: seq<Str>, criterion: Str): (b: Body)
    ensures b.Notice? <==> items == []
    ensures b.Notice? ==> b.message == NoTitles(criterion)
    ensures b.Grid? ==> |b.boxes| == |items|
    ensures b.Grid? ==> forall i :: 0 <= i < |items| ==>
      && b.boxes[i].value == items[i] && b.boxes[i].text == items[i]
      && b.boxes[i].id == criterion + "-" + CleanId(items[i])
      && b.boxes[i].name == criterion + "[]"
  {
    if |items| == 0 then Notice(NoTitles(criterion))
    else Grid(seq(|items|, i requires 0 <= i < |items| =>
      Checkbox(criterion + "-" + CleanId(items[i]), criterion + "[]", items[i], items[i])))
  }

  /** The part of an identifier after the criterion is a slug. */
  lemma CheckboxIdsAreSlugs(items: seq<Str>, criterion: Str, i: int)
    requires items != [] && 0 <= i < |items|
    ensures
      var id := DisplayCheckboxes(items, criterion).boxes[i].id;
      && id[..|criterion| + 1] == criterion + "-"
      && IsSlug(id[|criterion| + 1..])
  {
  }

  const LoadFailure: Str := "Désolé, impossible de charger les options de filtre."
  const InvalidCriterion: Str := "Veuillez sélectionner un critère de recherche valide."
  const NotYetAvailable: Str := "Fonctionnalité de filtre non encore disponible pour ce critère."

  /** `fetchUniqueTitles(type)`, after the data file has been fetched.  A
      missing collection makes `.map` throw, which ends in the same catch
      as a failed load, before any heading is set. */
  function FetchUniqueTitles(criterion: Option<Str>, load: Load): (p: Page)
    ensures load.LoadFailed? ==> p == Page(None, None, Notice(LoadFailure))
    ensures load.Loaded? && criterion == Some("metier") && load.data.experiences.None? ==>
      p == Page(None, None, Notice(LoadFailure))
    ensures load.Loaded? && criterion == Some("diplome") && load.data.formations.None? ==>
      p == Page(None, None, Notice(LoadFailure))
    ensures load.Loaded? && criterion == Some("metier") && load.data.experiences.Some? ==>
      p.heading == Some("Sélectionner un métier") && p.subtitle == Some("Cochez les métiers à afficher.")
    ensures load.Loaded? && criterion == Some("diplome") && load.data.formations.Some? ==>
      p.heading == Some("Sélectionner un diplôme") && p.subtitle == Some("Cochez les diplômes à afficher.")
    ensures load.Loaded? && criterion != Some("metier") && criterion != Some("diplome") ==>
      p == Page(Some("Recherche par " + OrElse(criterion, "Critère Inconnu")), Some(NotYetAvailable), Notice(InvalidCriterion))
    ensures load.Loaded? && criterion == Some("metier") && load.data.experiences.Some? ==>
      p.body == DisplayCheckboxes(UniqueTitles(Titles(load.data.experiences.value)), "metier")
    ensures load.Loaded? && criterion == Some("diplome") && load.data.formations.Some? ==>
      p.body == DisplayCheckboxes(UniqueTitles(Titles(load.data.formations.value)), "diplome")
    ensures p.body.Grid? ==> criterion == Some("metier") || criterion == Some("diplome")
  {
    match load
    case LoadFailed => Page(None, None, Notice(LoadFailure))
    case Loaded(data) =>
      if criterion == Some("metier") then
        if data.experiences.None? then Page(None, None, Notice(LoadFailure))
        else
          Page(Some("Sélectionner un métier"), Some("Cochez les métiers à afficher."),
               DisplayCheckboxes(UniqueTitles(Titles(data.experiences.value)), "metier"))
      else if criterion == Some("diplome") then
        if data.formations.None? then Page(None, None, Notice(LoadFailure))
        else
          Page(Some("Sélectionner un diplôme"), Some("Cochez les diplômes à afficher."),
               DisplayCheckboxes(UniqueTitles(Titles(data.formations.value)), "diplome"))
      else
        Page(Some("Recherche par " + OrElse(criterion, "Critère Inconnu")), Some(NotYetAvailable), Notice(InvalidCriterion))
  }

  function Values(boxes: seq<Checkbox>): (vs: seq<Str>)
    ensures |vs| == |boxes|
    ensures forall i :: 0 <= i < |boxes| ==> vs[i] == boxes[i].value
  {
    seq(|boxes|, i requires 0 <= i < |boxes| => boxes[i].value)
  }

  /** The checkboxes of a title checklist list each title of the chosen
      collection exactly once, in ascending order; there are none exactly
      when the collection is empty. */
  lemma ChecklistListsEachTitleOnce(criterion: Option<Str>, data: Data)
    requires criterion == Some("metier") || criterion == Some("diplome")
    requires (if criterion == Some("metier") then data.experiences else data.formations).Some?
    ensures
      var items := (if criterion == Some("metier") then data.experiences else data.formations).value;
      var body := FetchUniqueTitles(criterion, Loaded(data)).body;
      && (body.Grid? <==> items != [])
      && (body.Grid? ==>
            && (forall t :: t in Values(body.boxes) <==> t in Titles(items))
            && StrictlyAscending(Values(body.boxes)))
  {
  }

  /** A title is offered exactly when some record of the collection has it. */
  lemma TitlesOfferedAreRecordTitles(items: seq<Record>, t: Str)
    ensures t in Titles(items) <==> exists r :: r in items && r.title == t
  {
  }
}
