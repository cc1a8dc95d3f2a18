/** How the scripts turn a record's dates into text.  `fmt` stands for
    `toLocaleDateString('fr-FR', { year: 'numeric', month: 'long' })`
    applied to a valid date; an invalid date (what `new Date('Présent')`
    yields) is spelled "Invalid Date" by that method. */
module Dates {
  import opened Records

  const InvalidDate: Str := "Invalid Date"
  const Ongoing: Str := "Présent"
  const Separator: Str := " - "

  /** `new Date(item.end_date).toLocaleDateString(...)` for a truthy end date. */
  function FormatEnd(e: EndDate, fmt: int -> Str): (s: Str)
    requires !e.Open?
    ensures e.On? ==> s == fmt(e.time)
    ensures e.PresentLiteral? ==> s == InvalidDate
  {
    if e.On? then fmt(e.time) else InvalidDate
  }

  /** The end of a period as the cards write it: a truthy end date is
      formatted, a missing one reads 'Présent'. */
  function PeriodEndAsWritten(e: EndDate, fmt: int -> Str): Str {
    if e.Open? then Ongoing else FormatEnd(e, fmt)
  }

  /** The card period exactly as the source builds it: a missing end date
      reads 'Présent', any other is handed to `new Date`, so the literal
      'Présent' comes out as an invalid date. */
  function PeriodAsWritten(r: Record, fmt: int -> Str): (p: Str)
    ensures r.endDate.Open? ==> p == fmt(r.startDate) + Separator + Ongoing
    ensures r.endDate.PresentLiteral? ==> p == fmt(r.startDate) + Separator + InvalidDate
    ensures r.endDate.On? ==> p == fmt(r.startDate) + Separator + fmt(r.endDate.time)
  {
    fmt(r.startDate) + Separator + PeriodEndAsWritten(r.endDate, fmt)
  }

  /** The card period as intended: every open-ended record, whether its
      end date is missing or the literal 'Présent', ends in 'Présent'. */
  function Period(r: Record, fmt: int -> Str): (p: Str)
    ensures r.endDate.On? ==> p == fmt(r.startDate) + Separator + fmt(r.endDate.time)
    ensures !r.endDate.On? ==> p == fmt(r.startDate) + Separator + Ongoing
  {
    fmt(r.startDate) + Separator + (if r.endDate.On? then fmt(r.endDate.time) else Ongoing)
  }

  /** Where the two periods differ: the literal 'Présent' is shown as an
      invalid date by the source, and nowhere else. */
  lemma PeriodAsWrittenDiffersOnlyOnPresent(r: Record, fmt: int -> Str)
    ensures PeriodAsWritten(r, fmt) == Period(r, fmt) <==> !r.endDate.PresentLiteral?
  {
  }

  /** Counterexample: a record that is still running, stored with the
      end date 'Présent', gets a period ending in "Invalid Date" as written
      and in 'Présent' once corrected. */
  lemma PresentLiteralShowsInvalidDate(fmt: int -> Str)
    ensures
      var r := Record(None, "Stage", "", 0, PresentLiteral, None, None, None, None, []);
      && PeriodAsWritten(r, fmt) == fmt(0) + " - Invalid Date"
      && Period(r, fmt) == fmt(0) + " - Présent"
  {
  }
}
