/** The timeline page (js/timeline.js): both collections merged into one
    list, most recent start first, each entry a link to its detail page
    with a date label. */
module Timeline {
  import opened Records
  import opened Dates
  import opened Sorting

  /** What `createTimelineItem` renders for one record. */
  datatype Entry = Entry(title: Str, href: Str, dateLabel: Str)

  function StartKey(r: Record): int {
    r.startDate
  }

  /** `[...experiences, ...formations]` sorted by descending start date. */
  function Merge(experiences: seq<Record>, formations: seq<Record>): (r: seq<Record>)
    ensures |r| == |experiences| + |formations|
    ensures multiset(r) == multiset(experiences) + multiset(formations)
    ensures SortedDesc(r, StartKey)
    ensures forall k :: WithKey(r, StartKey, k) == WithKey(experiences, StartKey, k) + WithKey(formations, StartKey, k)
  {
    var all := experiences + formations;
    var r := SortDesc(all, StartKey);
    forall k ensures WithKey(r, StartKey, k) == WithKey(experiences, StartKey, k) + WithKey(formations, StartKey, k) {
      WithKeyConcat(experiences, formations, StartKey, k);
    }
    r
  }

  /** On equal start dates every experience comes before every formation:
      an experience and a formation sharing a start date appear in that
      order in the merged list. */
  lemma ExperienceBeforeFormationOnTie(experiences: seq<Record>, formations: seq<Record>, e: Record, f: Record)
    requires e in experiences && f in formations
    requires e.startDate == f.startDate
    ensures exists i, j :: 0 <= i < j < |Merge(experiences, formations)|
              && Merge(experiences, formations)[i] == e && Merge(experiences, formations)[j] == f
  {
    var r := Merge(experiences, formations);
    var k := e.startDate;
    var we, wf := WithKey(experiences, StartKey, k), WithKey(formations, StartKey, k);
    WithKeyMembers(experiences, StartKey, k, e);
    WithKeyMembers(formations, StartKey, k, f);
    var p :| 0 <= p < |we| && we[p] == e;
    var q :| 0 <= q < |wf| && wf[q] == f;
    var w := WithKey(r, StartKey, k);
    assert w == we + wf;
    assert w[p] == e && w[|we| + q] == f;
    var i, j := SubsequencePositions(r, StartKey, k, p, |we| + q);
    assert r[i] == e && r[j] == f;
  }

  /** Two positions of the filtered view come from increasing positions of
      the sequence it was taken from. */
  lemma {:induction false} SubsequencePositions<T>(s: seq<T>, key: T -> int, k: int, p: nat, q: nat) returns (i: nat, j: nat)
    requires p < q < |WithKey(s, key, k)|
    ensures i < j < |s|
    ensures s[i] == WithKey(s, key, k)[p] && s[j] == WithKey(s, key, k)[q]
  {
    var w := WithKey(s, key, k);
    var w' := WithKey(s[1..], key, k);
    if key(s[0]) == k {
      assert w == [s[0]] + w';
      if p == 0 {
        var j' := SubsequencePosition(s[1..], key, k, q - 1);
        i, j := 0, j' + 1;
      } else {
        var i', j' := SubsequencePositions(s[1..], key, k, p - 1, q - 1);
        i, j := i' + 1, j' + 1;
      }
    } else {
      assert w == w';
      var i', j' := SubsequencePositions(s[1..], key, k, p, q);
      i, j := i' + 1, j' + 1;
    }
  }

  lemma {:induction false} SubsequencePosition<T>(s: seq<T>, key: T -> int, k: int, p: nat) returns (i: nat)
    requires p < |WithKey(s, key, k)|
    ensures i < |s| && s[i] == WithKey(s, key, k)[p]
  {
    var w := WithKey(s, key, k);
    var w' := WithKey(s[1..], key, k);
    if key(s[0]) == k {
      assert w == [s[0]] + w';
      if p == 0 {
        i := 0;
      } else {
        var i' := SubsequencePosition(s[1..], key, k, p - 1);
        i := i' + 1;
      }
    } else {
      assert w == w';
      var i' := SubsequencePosition(s[1..], key, k, p);
      i := i' + 1;
    }
  }

  /** The detail page an entry links to. */
  function Href(r: Record): (h: Str)
    ensures h == "experiences.html" <==> IsExperience(r)
    ensures h == "formations.html" <==> !IsExperience(r)
  {
    if IsExperience(r) then "experiences.html" else "formations.html"
  }

  /** The entry's date label: start and end joined by " - " when the record
      has a (truthy) end date, the start alone otherwise. */
  function DateLabel(r: Record, fmt: int -> Str): (text: Str)
    ensures fmt(r.startDate) <= text
    ensures r.endDate.Open? ==> text == fmt(r.startDate)
    ensures !r.endDate.Open? ==> text[(|fmt(r.startDate)|)..] == Separator + FormatEnd(r.endDate, fmt)
  {
    var start := fmt(r.startDate);
    if r.endDate.Open? then start
    else
      var text := start + Separator + FormatEnd(r.endDate, fmt);
      assert text[(|start|)..] == Separator + FormatEnd(r.endDate, fmt);
      text
  }

  /** A dated record's timeline label is the period its detail card shows;
      an open-ended one shows its start alone where the card adds 'Présent'. */
  lemma DateLabelAgreesWithPeriod(r: Record, fmt: int -> Str)
    ensures r.endDate.On? ==> DateLabel(r, fmt) == Period(r, fmt)
    ensures r.endDate.Open? ==> Period(r, fmt) == DateLabel(r, fmt) + Separator + Ongoing
  {
  }

  /** `createTimelineItem`: the record's title, a link to the detail page
      of its kind, and its date label. */
  function CreateItem(r: Record, fmt: int -> Str): (e: Entry)
    ensures e.title == r.title
    ensures e.href == "experiences.html" <==> IsExperience(r)
    ensures e.href == "formations.html" <==> !IsExperience(r)
    ensures r.endDate.Open? ==> e.dateLabel == fmt(r.startDate)
    ensures r.endDate.On? ==> e.dateLabel == Period(r, fmt)
    ensures r.endDate.PresentLiteral? ==> e.dateLabel == PeriodAsWritten(r, fmt)
  {
    DateLabelAgreesWithPeriod(r, fmt);
    Entry(r.title, Href(r), DateLabel(r, fmt))
  }

  /** ASCII whitespace as the DOM defines it: tab, line feed, form feed,
      carriage return and space. */
  predicate IsAsciiWhitespace(c: char) {
    c == '\t' || c == '\n' || c == '\U{C}' || c == '\r' || c == ' '
  }

  /** `classList.add(item.type)` accepts the type: the string it becomes
      ("undefined" when missing) is non-empty and has no whitespace.
      Otherwise `DOMTokenList.add` throws. */
  predicate IsClassToken(kind: Option<Str>) {
    var token := Shown(kind);
    token != [] && forall i :: 0 <= i < |token| ==> !IsAsciiWhitespace(token[i])
  }

  /** How many entries the `forEach` appends before `createTimelineItem`
      throws on a record whose type is not a class token. */
  function RenderedCount(items: seq<Record>): (n: nat)
    ensures n <= |items|
    ensures forall i :: 0 <= i < n ==> IsClassToken(items[i].kind)
    ensures n < |items| ==> !IsClassToken(items[n].kind)
  {
    if items == [] || !IsClassToken(items[0].kind) then 0
    else 1 + RenderedCount(items[1..])
  }

  /** `renderTimeline`: nothing is rendered when loading failed or when a
      collection is missing (spreading `undefined` throws); otherwise one
      entry per record of both collections, in merged order, up to the
      first record whose type `classList.add` rejects. */
  function RenderTimeline(load: Load, fmt: int -> Str): (view: Option<seq<Entry>>)
    ensures view.Some? <==> load.Loaded? && load.data.experiences.Some? && load.data.formations.Some?
    ensures view.Some? ==>
      var items := Merge(load.data.experiences.value, load.data.formations.value);
      && |view.value| <= |items|
      && (|view.value| < |items| ==> !IsClassToken(items[|view.value|].kind))
      && forall i :: 0 <= i < |view.value| ==>
           IsClassToken(items[i].kind)
           && view.value[i].title == items[i].title
           && view.value[i].href == Href(items[i])
           && view.value[i].dateLabel == DateLabel(items[i], fmt)
  {
    match load
    case LoadFailed => None
    case Loaded(Data(Some(exps), Some(forms))) =>
      var items := Merge(exps, forms);
      Some(seq(RenderedCount(items), i requires 0 <= i < RenderedCount(items) => CreateItem(items[i], fmt)))
    case Loaded(_) => None
  }

  /** Every record of both collections gets an entry exactly when every
      record's type is a class token; a missing type is one ("undefined"). */
  lemma {:induction false} AllRenderedIffAllTypesAreTokens(exps: seq<Record>, forms: seq<Record>, fmt: int -> Str)
    ensures
      var view := RenderTimeline(Loaded(Data(Some(exps), Some(forms))), fmt).value;
      |view| == |exps| + |forms| <==> forall r :: r in exps + forms ==> IsClassToken(r.kind)
  {
    var items := Merge(exps, forms);
    var view := RenderTimeline(Loaded(Data(Some(exps), Some(forms))), fmt).value;
    assert multiset(items) == multiset(exps + forms);
    if |view| == |exps| + |forms| {
      forall r | r in exps + forms ensures IsClassToken(r.kind) {
        assert r in multiset(items);
        var i :| 0 <= i < |items| && items[i] == r;
      }
    } else {
      var r := items[|view|];
      assert r in multiset(exps + forms);
    }
  }
}
