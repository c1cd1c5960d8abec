/** The experience and education timeline: what each entry shows as its
    organisation line, its date range and its "Current" badge, and the icon
    the timeline's kind selects. */
module Timeline {
  import opened Wrappers
  import opened Text

  /** An entry as the timeline receives it. Missing optional fields are None;
      a null end date is None as well. */
  datatype TimelineItem = TimelineItem(
    id: int,
    title: string,
    company: Option<string>,
    institution: Option<string>,
    description: string,
    startDate: string,
    endDate: Option<string>,
    current: Option<bool>)

  /** The timeline's `type` prop. */
  datatype Kind = Experience | Education

  datatype Icon = CalendarIcon | Dot

  /** The text React renders for an optional string: nothing for undefined
      or null. */
  function Shown(s: Option<string>): string {
    if s.Some? then s.value else ""
  }

  /** `item.current` read as a condition, both in the date range and in
      `{item.current && <span>Current</span>}`: undefined is falsy. */
  predicate IsCurrent(item: TimelineItem) {
    item.current == Some(true)
  }

  /** `{item.company || item.institution}`: the company when it is a
      non-empty string, the institution otherwise. */
  function Organisation(item: TimelineItem): string {
    if item.company.Some? && item.company.value != "" then item.company.value
    else Shown(item.institution)
  }

  /** `{item.startDate} - {item.current ? "Present" : item.endDate}`. */
  function DateRange(item: TimelineItem): string {
    item.startDate + " - " + (if IsCurrent(item) then "Present" else Shown(item.endDate))
  }

  /** `type === "experience" ? <Calendar/> : <div/>`. */
  function IconFor(kind: Kind): Icon {
    if kind == Experience then CalendarIcon else Dot
  }

  /** The range always opens with the start date; a current entry closes it
      with "Present", any other entry with its end date, or with nothing when
      that is null. */
  lemma DateRangeParts(item: TimelineItem)
    ensures StartsWith(DateRange(item), item.startDate + " - ")
    ensures IsCurrent(item) ==> DateRange(item)[|item.startDate| + 3..] == "Present"
    ensures !IsCurrent(item) && item.endDate.Some? ==> DateRange(item)[|item.startDate| + 3..] == item.endDate.value
    ensures !IsCurrent(item) && item.endDate.None? ==> DateRange(item) == item.startDate + " - "
  {
    var head := item.startDate + " - ";
    var tail := if IsCurrent(item) then "Present" else Shown(item.endDate);
    assert DateRange(item) == head + tail;
    assert (head + tail)[..|head|] == head;
    assert (head + tail)[|head|..] == tail;
    if !IsCurrent(item) && item.endDate.None? {
      assert tail == "";
    }
  }

  /** The badge appears exactly for current entries, and then the range ends
      in "Present" whatever the stored end date is. */
  lemma BadgeMatchesRange(item: TimelineItem)
    ensures IsCurrent(item) ==> DateRange(item) == item.startDate + " - Present"
    ensures item.current == Some(false) || item.current.None? ==> !IsCurrent(item)
  {
    if IsCurrent(item) {
      assert item.startDate + " - " + "Present" == item.startDate + " - Present";
    }
  }

  /** A non-empty company wins; an empty or missing one falls back to the
      institution, and to nothing when that is missing as well. */
  lemma OrganisationFallback(item: TimelineItem)
    ensures item.company.Some? && item.company.value != "" ==> Organisation(item) == item.company.value
    ensures (item.company.None? || item.company == Some("")) && item.institution.Some? ==>
      Organisation(item) == item.institution.value
    ensures (item.company.None? || item.company == Some("")) && item.institution.None? ==>
      Organisation(item) == ""
  {
  }

  /** The calendar marks the experience timeline and only it. */
  lemma CalendarForExperience(kind: Kind)
    ensures IconFor(kind) == CalendarIcon <==> kind == Experience
  {
  }
}
