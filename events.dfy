/**
 * `Event` of rendercv/data_model.py and its four entry variants: date
 * reconciliation, the cached date-and-location list and the in-place filter
 * that removes the time span from it, highlight lines and the markdown link.
 */
module Events {
  import opened Wrappers
  import opened Text
  import opened Dates
  import opened Lists
  import Spelling

  /** `end_date: PastDate | Literal["present"]` */
  datatype EndDate = Present | On(date: CalendarDate)

  /**
   * The four subclasses of `Event`, as a variant tag carrying each one's own
   * fields; the dates, location, highlights and URL are common to all.
   */
  datatype EntryKind =
    | OneLineEntry(name: string, details: string)
    | NormalEntry(name: string)
    | ExperienceEntry(company: string, position: string)
    | EducationEntry(institution: string, area: string, studyType: Option<string>,
                     gpa: Option<string>, transcriptUrl: Option<string>)

  // ---------------------------------------------------------------------
  // check_dates
  // ---------------------------------------------------------------------

  /** The three date fields `check_dates` reconciles. */
  datatype DateFields = DateFields(startDate: Option<CalendarDate>, endDate: Option<EndDate>, date: Option<string>)

  /** The warning `check_dates` logs, if any. */
  datatype DateWarning = NoWarning | DateIgnored | StartAndEndIgnored

  /**
   * `check_dates` on values: a complete start/end pair wins over `date`;
   * `date` wins over an incomplete pair; no warning exactly when nothing changes.
   */
  function Reconcile(f: DateFields): (r: (DateFields, DateWarning))
    // afterwards `date` never stands beside a start or end date
    ensures r.0.date.Some? ==> r.0.startDate.None? && r.0.endDate.None?
    // fields are only ever cleared, never invented
    ensures r.0.startDate.Some? ==> r.0.startDate == f.startDate
    ensures r.0.endDate.Some? ==> r.0.endDate == f.endDate
    ensures r.0.date.Some? ==> r.0.date == f.date
    // a complete pair is kept; `date` is kept unless a complete pair is given
    ensures f.startDate.Some? && f.endDate.Some? ==> r.0.startDate == f.startDate && r.0.endDate == f.endDate
    ensures !(f.startDate.Some? && f.endDate.Some?) ==> r.0.date == f.date
    ensures r.1 == NoWarning <==> r.0 == f
    ensures r.1 == DateIgnored <==> f.startDate.Some? && f.endDate.Some? && f.date.Some?
    ensures r.1 == StartAndEndIgnored <==>
      f.date.Some? && (f.startDate.Some? || f.endDate.Some?) && !(f.startDate.Some? && f.endDate.Some?)
    // without `date` there is nothing to reconcile
    ensures f.date.None? ==> r == (f, NoWarning)
  {
    if f.startDate.Some? && f.endDate.Some? && f.date.Some? then
      (f.(date := None), DateIgnored)
    else if f.date.Some? && (f.startDate.Some? || f.endDate.Some?) then
      (f.(startDate := None, endDate := None), StartAndEndIgnored)
    else
      (f, NoWarning)
  }

  /** Reconciling a reconciled entry changes nothing and warns about nothing. */
  lemma ReconcileIdempotent(f: DateFields)
    ensures Reconcile(Reconcile(f).0) == (Reconcile(f).0, NoWarning)
  {
    var g := Reconcile(f).0;
    assert g.date.Some? ==> g.startDate.None? && g.endDate.None?;
  }

  // ---------------------------------------------------------------------
  // date_and_location_strings
  // ---------------------------------------------------------------------

  /** The date fields from which `date_and_location_strings` does not crash on `format_date(None)`. */
  predicate Displayable(f: DateFields)
  {
    f.date.Some? || (f.startDate.Some? && f.endDate.Some?)
  }

  /** The free-form `date`: reformatted when it is an ISO date, verbatim otherwise. */
  function DateString(date: string): string
  {
    match ParseIsoDate(date)
    case Some(d) => FormatDate(d)
    case None => date
  }

  /** `"<start> to <end>"`, the end being "present" or a formatted date. */
  function RangeString(start: CalendarDate, end: EndDate): string
  {
    FormatDate(start) + " to " + (match end case Present => "present" case On(e) => FormatDate(e))
  }

  /** The time span from the start to the end date, or to `today` for "present". */
  function SpanString(start: CalendarDate, end: EndDate, today: CalendarDate): string
  {
    ComputeTimeSpanString(start, match end case Present => today case On(e) => e)
  }

  /** What `date_and_location_strings` builds from the current fields. */
  function DateAndLocation(location: Option<string>, f: DateFields, today: CalendarDate): (r: seq<string>)
    requires Displayable(f)
    ensures |r| == (if location.Some? then 1 else 0) + (if f.date.Some? then 1 else 2)
    ensures location.Some? ==> r[0] == location.value
    ensures f.date.Some? ==> r[|r| - 1] == DateString(f.date.value)
    ensures f.date.None? ==>
      r[|r| - 2..] == [RangeString(f.startDate.value, f.endDate.value), SpanString(f.startDate.value, f.endDate.value, today)]
  {
    (if location.Some? then [location.value] else [])
    + (if f.date.Some? then [DateString(f.date.value)]
       else [RangeString(f.startDate.value, f.endDate.value), SpanString(f.startDate.value, f.endDate.value, today)])
  }

  /** An ISO date string is shown as its formatted date. */
  lemma DateStringOfIso(d: CalendarDate)
    ensures DateString(IsoFormat(d)) == FormatDate(d)
  {
    IsoFormatParses(d);
  }

  /** Any other string is shown verbatim. */
  lemma DateStringVerbatim(s: string)
    requires forall d: CalendarDate :: s != IsoFormat(d)
    ensures DateString(s) == s
  {
    if ParseIsoDate(s).Some? {
      IsoRoundTrip(s, ParseIsoDate(s).value);
      assert false;
    }
  }

  // ---------------------------------------------------------------------
  // date_and_location_strings_without_time_span
  // ---------------------------------------------------------------------

  /** The test of `date_and_location_strings_without_time_span`. */
  predicate MentionsTimeSpan(s: string)
  {
    Contains(s, "years") || Contains(s, "months") || Contains(s, "year") || Contains(s, "month")
  }

  /**
   * `for string in lst: if test(string): lst.remove(string)` on values: Python's
   * list iterator advances an index `i` over the list being shortened.
   */
  function RemoveWhileIterating(s: seq<string>, i: nat): seq<string>
    decreases |s| - i
  {
    if i >= |s| then s
    else if MentionsTimeSpan(s[i]) then RemoveWhileIterating(RemoveFirst(s, s[i]), i + 1)
    else RemoveWhileIterating(s, i + 1)
  }

  /** The filter the loop is meant to be: every element that mentions a year or a month removed. */
  function WithoutTimeSpan(s: seq<string>): (r: seq<string>)
    ensures forall x :: x in r ==> x in s && !MentionsTimeSpan(x)
    ensures forall x :: x in s && !MentionsTimeSpan(x) ==> x in r
  {
    if s == [] then []
    else (if MentionsTimeSpan(s[0]) then [] else [s[0]]) + WithoutTimeSpan(s[1..])
  }

  /** The filter works element by element, so it distributes over concatenation. */
  lemma {:induction false} WithoutTimeSpanAppend(a: seq<string>, b: seq<string>)
    ensures WithoutTimeSpan(a + b) == WithoutTimeSpan(a) + WithoutTimeSpan(b)
  {
    if a == [] {
      assert a + b == b;
    } else {
      assert (a + b)[0] == a[0] && (a + b)[1..] == a[1..] + b;
      WithoutTimeSpanAppend(a[1..], b);
    }
  }

  /** One element is kept exactly when it mentions no year or month. */
  lemma WithoutTimeSpanOne(x: string)
    ensures WithoutTimeSpan([x]) == if MentionsTimeSpan(x) then [] else [x]
  {
    assert [x][1..] == [];
  }

  /** "<start> to <end>" never mentions a year or a month. */
  lemma RangeStringFree(start: CalendarDate, end: EndDate)
    ensures !MentionsTimeSpan(RangeString(start, end))
  {
    FormatDateFree(start);
    var tail := match end case Present => "present" case On(e) => FormatDate(e);
    if end.On? { FormatDateFree(end.date); }
    assert FreeOfYearAndMonth(" to ");
    assert FreeOfYearAndMonth(tail);
    FreeOfYearAndMonthConcat(FormatDate(start), " to ");
    FreeOfYearAndMonthConcat(FormatDate(start) + " to ", tail);
    FreeOfYearAndMonthNotContained(RangeString(start, end));
  }

  /** The time span always mentions a month. */
  lemma SpanStringMentions(start: CalendarDate, end: EndDate, today: CalendarDate)
    ensures MentionsTimeSpan(SpanString(start, end, today))
  {
    TimeSpanShape(DaysBetween(start, match end case Present => today case On(e) => e));
  }

  /**
   * With a start/end pair the in-place loop drops the time span, keeps the
   * range, and keeps the location exactly when it mentions no year or month;
   * there it agrees with the intended filter.
   */
  lemma WithoutTimeSpanInRangeCase(location: Option<string>, start: CalendarDate, end: EndDate, today: CalendarDate)
    ensures var s := DateAndLocation(location, DateFields(Some(start), Some(end), None), today);
      var kept := if location.Some? && !MentionsTimeSpan(location.value) then [location.value] else [];
      RemoveWhileIterating(s, 0) == kept + [RangeString(start, end)]
      && WithoutTimeSpan(s) == RemoveWhileIterating(s, 0)
  {
    var range, span := RangeString(start, end), SpanString(start, end, today);
    RangeStringFree(start, end);
    SpanStringMentions(start, end, today);
    assert range != span;
    assert WithoutTimeSpan([span]) == [];
    assert WithoutTimeSpan([range, span]) == [range];
    assert RemoveFirst([range, span], span) == [range];
    assert RemoveWhileIterating([range], 2) == [range];
    assert RemoveWhileIterating([range, span], 1) == [range];
    assert RemoveWhileIterating([range, span], 0) == [range];
    if location.Some? {
      var loc := location.value;
      var s := [loc, range, span];
      assert DateAndLocation(location, DateFields(Some(start), Some(end), None), today) == s;
      assert s[1..] == [range, span];
      if MentionsTimeSpan(loc) {
        assert RemoveFirst(s, loc) == [range, span];
        assert RemoveWhileIterating(s, 0) == RemoveWhileIterating([range, span], 1);
      } else {
        assert loc != span;
        assert RemoveFirst(s, span) == [loc, range];
        assert RemoveWhileIterating([loc, range], 3) == [loc, range];
        assert RemoveWhileIterating(s, 2) == [loc, range];
        assert RemoveWhileIterating(s, 0) == [loc, range];
      }
    } else {
      assert DateAndLocation(location, DateFields(Some(start), Some(end), None), today) == [range, span];
    }
  }

  /**
   * With a free-form date, a location and a date that both mention a month
   * meet the skip: removing the first shifts the second under the advanced
   * index, so it survives the loop although the filter drops it.
   */
  lemma AdjacentMatchSurvives(today: CalendarDate)
    ensures var s := DateAndLocation(Some("6 months"), DateFields(None, None, Some("3 months")), today);
      s == ["6 months", "3 months"]
      && RemoveWhileIterating(s, 0) == ["3 months"]
      && WithoutTimeSpan(s) == []
  {
    assert !IsIsoShape("3 months");
    assert DateString("3 months") == "3 months";
    assert Contains("6 months", "month") by {
      assert "6 months"[2..] == "month" + "s";
      ContainsItself("month", "s");
      ContainsAfter("6 ", "month" + "s", "month");
      assert "6 months" == "6 " + ("month" + "s");
    }
    assert Contains("3 months", "month") by {
      ContainsItself("month", "s");
      ContainsAfter("3 ", "month" + "s", "month");
      assert "3 months" == "3 " + ("month" + "s");
    }
    var s := ["6 months", "3 months"];
    assert RemoveFirst(s, "6 months") == ["3 months"];
    assert RemoveWhileIterating(["3 months"], 1) == ["3 months"];
    assert WithoutTimeSpan(["3 months"]) == [];
    assert s[1..] == ["3 months"];
  }

  // ---------------------------------------------------------------------
  // highlight_strings and markdown_url
  // ---------------------------------------------------------------------

  /** Only an `EducationEntry` with a GPA gets the extra first line. */
  predicate HasGpaLine(kind: EntryKind)
  {
    kind.EducationEntry? && kind.gpa.Some?
  }

  /** `"GPA: <gpa>"`, followed by `" ([Transcript](<url>))"` when a transcript URL is set. */
  function GpaLine(gpa: string, transcriptUrl: Option<string>): (r: string)
    ensures "GPA: " + gpa <= r
    ensures |r| == |"GPA: " + gpa| <==> transcriptUrl.None?
    ensures transcriptUrl.None? ==> r == "GPA: " + gpa
    ensures transcriptUrl.Some? ==> r == "GPA: " + gpa + " ([Transcript](" + transcriptUrl.value + "))"
  {
    "GPA: " + gpa + (if transcriptUrl.Some? then " ([Transcript](" + transcriptUrl.value + "))" else "")
  }

  /** The label `markdown_url` picks: the first of the four platforms the URL names. */
  function LinkLabel(url: string): string
  {
    if Contains(url, "github") then "view on GitHub"
    else if Contains(url, "linkedin") then "view on LinkedIn"
    else if Contains(url, "instagram") then "view on Instagram"
    else if Contains(url, "youtube") then "view on YouTube"
    else "view on my website"
  }

  /** `markdown_url`: absent exactly when the URL is, else `"[<label>](<url>)"`. */
  function MarkdownUrl(url: Option<string>): (r: Option<string>)
    ensures r.None? <==> url.None?
    ensures url.Some? ==> r.value == "[" + LinkLabel(url.value) + "](" + url.value + ")"
  {
    match url
    case None => None
    case Some(u) => Some("[" + LinkLabel(u) + "](" + u + ")")
  }

  /** Each label is chosen exactly when its platform is the first one, in priority order, that the URL names. */
  lemma LinkLabelPriority(url: string)
    ensures LinkLabel(url) == "view on GitHub" <==> Contains(url, "github")
    ensures LinkLabel(url) == "view on LinkedIn" <==> !Contains(url, "github") && Contains(url, "linkedin")
    ensures LinkLabel(url) == "view on Instagram" <==>
      !Contains(url, "github") && !Contains(url, "linkedin") && Contains(url, "instagram")
    ensures LinkLabel(url) == "view on YouTube" <==>
      !Contains(url, "github") && !Contains(url, "linkedin") && !Contains(url, "instagram") && Contains(url, "youtube")
    ensures LinkLabel(url) == "view on my website" <==>
      !Contains(url, "github") && !Contains(url, "linkedin") && !Contains(url, "instagram") && !Contains(url, "youtube")
  {
  }

  /** A URL naming "github.com" renders as `"[view on GitHub](<url>)"`. */
  lemma GitHubLink(prefix: string, suffix: string)
    ensures MarkdownUrl(Some(prefix + "github.com" + suffix))
         == Some("[view on GitHub](" + prefix + "github.com" + suffix + ")")
  {
    var u := prefix + "github.com" + suffix;
    ContainsItself("github", ".com" + suffix);
    assert "github.com" == "github" + ".com";
    assert u == prefix + ("github" + (".com" + suffix));
    ContainsAfter(prefix, "github" + (".com" + suffix), "github");
    assert LinkLabel(u) == "view on GitHub";
    assert "[" + "view on GitHub" + "](" + u + ")" == "[view on GitHub](" + u + ")"
        == "[view on GitHub](" + prefix + "github.com" + suffix + ")";
  }

  // ---------------------------------------------------------------------
  // The entry object
  // ---------------------------------------------------------------------

  /**
   * An entry of a CV section. Only the three date fields are reassigned (by
   * `check_dates`); `date_and_location_strings` and
   * `date_and_location_strings_without_time_span` are cached per object, and
   * the second caches the very list the first cached, after filtering it.
   */
  class Event {
    var startDate: Option<CalendarDate>
    var endDate: Option<EndDate>
    var date: Option<string>
    const location: Option<string>
    const highlights: Option<seq<string>>
    const url: Option<string>
    const kind: EntryKind
    var dateAndLocationCache: StringList?
    var withoutTimeSpanCache: StringList?
    ghost var Repr: set<object>

    ghost predicate Valid()
      reads this, Repr
    {
      this in Repr
      && (dateAndLocationCache != null ==>
            dateAndLocationCache in Repr && dateAndLocationCache.elems in Repr && dateAndLocationCache.Valid())
      && (withoutTimeSpanCache != null ==> withoutTimeSpanCache == dateAndLocationCache)
    }

    function Fields(): DateFields
      reads this
    {
      DateFields(startDate, endDate, date)
    }

    /** The list `date_and_location_strings` returns now: the cached one, or the one it would build. */
    ghost function DateAndLocationView(today: CalendarDate): seq<string>
      reads this, Repr
      requires Valid()
      requires dateAndLocationCache == null ==> Displayable(Fields())
    {
      if dateAndLocationCache == null then DateAndLocation(location, Fields(), today)
      else dateAndLocationCache.Contents()
    }

    /** The fields as given, before `check_dates` runs. */
    constructor (kind: EntryKind, startDate: Option<CalendarDate>, endDate: Option<EndDate>, date: Option<string>,
                 location: Option<string>, highlights: Option<seq<string>>, url: Option<string>)
      ensures Valid() && fresh(Repr)
      ensures Fields() == DateFields(startDate, endDate, date)
      ensures this.kind == kind && this.location == location && this.highlights == highlights && this.url == url
      ensures dateAndLocationCache == null && withoutTimeSpanCache == null
    {
      this.kind := kind;
      this.startDate := startDate;
      this.endDate := endDate;
      this.date := date;
      this.location := location;
      this.highlights := highlights;
      this.url := url;
      dateAndLocationCache := null;
      withoutTimeSpanCache := null;
      Repr := {this};
    }

    /** `check_dates`: clears `date`, or the start/end pair, in place and reports the warning. */
    method CheckDates() returns (warning: DateWarning)
      requires Valid()
      modifies this`startDate, this`endDate, this`date
      ensures Valid()
      ensures (Fields(), warning) == Reconcile(old(Fields()))
    {
      if startDate.Some? && endDate.Some? && date.Some? {
        warning := DateIgnored;
        date := None;
      } else if date.Some? && (startDate.Some? || endDate.Some?) {
        warning := StartAndEndIgnored;
        startDate := None;
        endDate := None;
      } else {
        warning := NoWarning;
      }
    }

    /** `date_and_location_strings`, with `Date.today()` passed in as `today`. */
    method DateAndLocationStrings(today: CalendarDate) returns (r: StringList)
      requires Valid()
      requires dateAndLocationCache == null ==> Displayable(Fields())
      modifies Repr
      ensures Valid() && fresh(Repr - old(Repr))
      ensures r == dateAndLocationCache && r.Valid()
      ensures old(dateAndLocationCache) != null ==> r == old(dateAndLocationCache)
      ensures r.Contents() == old(DateAndLocationView(today))
      ensures Fields() == old(Fields()) && withoutTimeSpanCache == old(withoutTimeSpanCache)
    {
      if dateAndLocationCache == null {
        var strings := BuildDateAndLocation(location, Fields(), today);
        dateAndLocationCache := strings;
        Repr := Repr + {strings, strings.elems};
      }
      r := dateAndLocationCache;
    }

    /**
     * `date_and_location_strings_without_time_span`: removes, in place and while
     * iterating, the elements that mention a year or a month from the list
     * `date_and_location_strings` cached, and caches that same list.
     */
    method DateAndLocationStringsWithoutTimeSpan(today: CalendarDate) returns (r: StringList)
      requires Valid()
      requires dateAndLocationCache == null ==> Displayable(Fields())
      modifies Repr
      ensures Valid() && fresh(Repr - old(Repr))
      ensures r == withoutTimeSpanCache && r == dateAndLocationCache && r.Valid()
      ensures old(dateAndLocationCache) != null ==> r == old(dateAndLocationCache)
      ensures old(withoutTimeSpanCache) != null ==> r.Contents() == old(DateAndLocationView(today))
      ensures old(withoutTimeSpanCache) == null ==> r.Contents() == RemoveWhileIterating(old(DateAndLocationView(today)), 0)
      ensures Fields() == old(Fields())
    {
      if withoutTimeSpanCache != null {
        r := withoutTimeSpanCache;
        return;
      }
      var strings := DateAndLocationStrings(today);
      RemoveTimeSpanInPlace(strings);
      withoutTimeSpanCache := strings;
      r := strings;
    }

    /**
     * `highlight_strings`, with the `EducationEntry` override that puts a GPA
     * line first; `None` where the source fails on `extend(None)` because the
     * entry has no highlights.
     */
    method HighlightStrings() returns (r: Option<seq<string>>)
      ensures r.None? <==> highlights.None?
      ensures r.Some? ==> |r.value| == |highlights.value| + (if HasGpaLine(kind) then 1 else 0)
      ensures r.Some? ==> r.value[|r.value| - |highlights.value|..] == highlights.value
      ensures r.Some? && HasGpaLine(kind) ==> r.value[0] == GpaLine(kind.gpa.value, kind.transcriptUrl)
    {
      var strings: seq<string> := [];
      if kind.EducationEntry? && kind.gpa.Some? {
        strings := strings + [GpaLine(kind.gpa.value, kind.transcriptUrl)];
      }
      if highlights.None? {
        return None;
      }
      strings := strings + highlights.value;
      r := Some(strings);
    }
  }

  /** The body of `date_and_location_strings`: a new list, built by appending. */
  method BuildDateAndLocation(location: Option<string>, f: DateFields, today: CalendarDate) returns (strings: StringList)
    requires Displayable(f)
    ensures fresh(strings) && fresh(strings.elems) && strings.Valid()
    ensures strings.Contents() == DateAndLocation(location, f, today)
  {
    strings := new StringList();
    if location.Some? {
      strings.Append(location.value);
    }
    ghost var prefix := strings.Contents();
    assert prefix == if location.Some? then [location.value] else [];
    if f.date.Some? {
      var parsed := ParseIsoDate(f.date.value);
      if parsed.Some? {
        strings.Append(FormatDate(parsed.value));
      } else {
        strings.Append(f.date.value);
      }
      assert strings.Contents() == prefix + [DateString(f.date.value)];
    } else {
      var startString := FormatDate(f.startDate.value);
      var endString, timeSpan;
      if f.endDate.value.Present? {
        endString := "present";
        timeSpan := ComputeTimeSpanString(f.startDate.value, today);
      } else {
        endString := FormatDate(f.endDate.value.date);
        timeSpan := ComputeTimeSpanString(f.startDate.value, f.endDate.value.date);
      }
      strings.Append(startString + " to " + endString);
      strings.Append(timeSpan);
      assert strings.Contents() == prefix + [RangeString(f.startDate.value, f.endDate.value),
                                             SpanString(f.startDate.value, f.endDate.value, today)];
    }
  }

  /**
   * The loop of `date_and_location_strings_without_time_span`: `for string in
   * strings: if ...: strings.remove(string)`, the iterator's index advancing
   * over the list that shrinks beneath it.
   */
  method RemoveTimeSpanInPlace(strings: StringList)
    requires strings.Valid()
    modifies strings, strings.elems
    ensures strings.Valid() && strings.elems == old(strings.elems)
    ensures strings.Contents() == RemoveWhileIterating(old(strings.Contents()), 0)
  {
    var i := 0;
    while i < strings.size
      invariant strings.Valid() && strings.elems == old(strings.elems)
      invariant RemoveWhileIterating(strings.Contents(), i) == RemoveWhileIterating(old(strings.Contents()), 0)
      decreases strings.size - i
    {
      var s := strings.Get(i);
      if MentionsTimeSpan(s) {
        var _ := strings.Remove(s);
      }
      i := i + 1;
    }
  }

  /** The list after the corrected loop has examined its first `i` elements, filtered as it will be. */
  function FilteredFrom(c: seq<string>, i: nat): seq<string>
    requires i <= |c|
  {
    c[..i] + WithoutTimeSpan(c[i..])
  }

  /** None of the first `i` elements mentions a time span. */
  ghost predicate KeptPrefix(c: seq<string>, i: nat)
  {
    i <= |c| && forall k :: 0 <= k < i ==> !MentionsTimeSpan(c[k])
  }

  /** Removing a matching element at the loop's index leaves the eventual result unchanged. */
  lemma FilterStepRemove(c: seq<string>, i: nat)
    requires i < |c| && MentionsTimeSpan(c[i]) && KeptPrefix(c, i)
    ensures var d := RemoveFirst(c, c[i]);
      KeptPrefix(d, i) && FilteredFrom(d, i) == FilteredFrom(c, i)
  {
    RemoveFirstAt(c, c[i], i);
    var d := c[..i] + c[i + 1..];
    assert d[..i] == c[..i] && d[i..] == c[i + 1..];
    var t := c[i..];
    assert t[0] == c[i] && t[1..] == c[i + 1..];
    assert WithoutTimeSpan(t) == WithoutTimeSpan(c[i + 1..]);
  }

  /** Stepping past a kept element leaves the eventual result unchanged. */
  lemma FilterStepKeep(c: seq<string>, i: nat)
    requires i < |c| && !MentionsTimeSpan(c[i]) && KeptPrefix(c, i)
    ensures KeptPrefix(c, i + 1) && FilteredFrom(c, i + 1) == FilteredFrom(c, i)
  {
    assert c[i..] == [c[i]] + c[i + 1..];
    assert c[..i + 1] == c[..i] + [c[i]];
  }

  /**
   * The corrected loop: the index advances only past an element that is kept,
   * so the element that shifts into a removed one's place is tested too.
   */
  method FilterTimeSpanInPlace(strings: StringList)
    requires strings.Valid()
    modifies strings, strings.elems
    ensures strings.Valid() && strings.elems == old(strings.elems)
    ensures strings.Contents() == WithoutTimeSpan(old(strings.Contents()))
  {
    var i := 0;
    ghost var c := strings.Contents();
    ghost var c0 := c;
    assert FilteredFrom(c, 0) == WithoutTimeSpan(c0);
    while i < strings.size
      invariant strings.Valid() && strings.elems == old(strings.elems)
      invariant c == strings.Contents() && |c| == strings.size && KeptPrefix(c, i)
      invariant FilteredFrom(c, i) == WithoutTimeSpan(c0)
      decreases |c| - i
    {
      var s := strings.Get(i);
      if MentionsTimeSpan(s) {
        FilterStepRemove(c, i);
        var _ := strings.Remove(s);
        c := RemoveFirst(c, s);
      } else {
        FilterStepKeep(c, i);
        i := i + 1;
      }
    }
    assert FilteredFrom(c, i) == c + [];
  }

  /** The `PastDate` constraint on `start_date` and `end_date` ("present" is exempt). */
  predicate DatesInPast(startDate: Option<CalendarDate>, endDate: Option<EndDate>, today: CalendarDate)
  {
    (startDate.Some? ==> IsPastDate(startDate.value, today))
    && (endDate.Some? && endDate.value.On? ==> IsPastDate(endDate.value.date, today))
  }

  /** `SpellCheckedString` on each highlight line: the words `check_spelling` warns about in any of them. */
  method CheckHighlights(highlights: Option<seq<string>>, inDictionary: string -> bool) returns (warnings: set<string>)
    ensures forall w :: w in warnings <==>
      highlights.Some? && exists k :: 0 <= k < |highlights.value| && Spelling.Misspelled(w, highlights.value[k], inDictionary)
  {
    warnings := {};
    if highlights.Some? {
      var hs := highlights.value;
      for k := 0 to |hs|
        invariant forall w :: w in warnings <==> MisspelledIn(w, hs, k, inDictionary)
      {
        var _, found := Spelling.CheckSpelling(hs[k], inDictionary);
        MisspelledInStep(hs, k, inDictionary);
        warnings := warnings + found;
      }
      assert forall w :: MisspelledIn(w, hs, |hs|, inDictionary) <==>
        exists k :: 0 <= k < |hs| && Spelling.Misspelled(w, hs[k], inDictionary);
    }
  }

  /** `w` is warned about in one of the first `n` lines of `hs`. */
  ghost predicate MisspelledIn(w: string, hs: seq<string>, n: nat, inDictionary: string -> bool)
    requires n <= |hs|
  {
    exists j :: 0 <= j < n && Spelling.Misspelled(w, hs[j], inDictionary)
  }

  /** One more line adds exactly its own warnings. */
  lemma MisspelledInStep(hs: seq<string>, n: nat, inDictionary: string -> bool)
    requires n < |hs|
    ensures forall w :: MisspelledIn(w, hs, n + 1, inDictionary) <==>
      MisspelledIn(w, hs, n, inDictionary) || Spelling.Misspelled(w, hs[n], inDictionary)
  {
  }

  /**
   * Building an entry: field validation checks the spelling of every
   * highlight line and rejects a start or end date that is not in the past
   * (`null`); otherwise `check_dates` runs on the new entry.
   */
  method NewEvent(kind: EntryKind, startDate: Option<CalendarDate>, endDate: Option<EndDate>, date: Option<string>,
                  location: Option<string>, highlights: Option<seq<string>>, url: Option<string>, today: CalendarDate,
                  inDictionary: string -> bool)
    returns (e: Event?, warning: DateWarning, spellingWarnings: set<string>)
    ensures forall w :: w in spellingWarnings <==>
      highlights.Some? && exists k :: 0 <= k < |highlights.value| && Spelling.Misspelled(w, highlights.value[k], inDictionary)
    ensures e == null <==> !DatesInPast(startDate, endDate, today)
    // a rejected entry never reaches `check_dates`
    ensures e == null ==> warning == NoWarning
    ensures e != null ==> fresh(e) && fresh(e.Repr) && e.Valid()
    ensures e != null ==> (e.Fields(), warning) == Reconcile(DateFields(startDate, endDate, date))
    ensures e != null ==> e.kind == kind && e.location == location && e.highlights == highlights && e.url == url
    ensures e != null ==> e.dateAndLocationCache == null && e.withoutTimeSpanCache == null
  {
    spellingWarnings := CheckHighlights(highlights, inDictionary);
    if !DatesInPast(startDate, endDate, today) {
      return null, NoWarning, spellingWarnings;
    }
    e := new Event(kind, startDate, endDate, date, location, highlights, url);
    warning := e.CheckDates();
  }

  /**
   * The aliasing the caches create: once the time span is filtered out,
   * `date_and_location_strings` hands back the filtered list; with a start/end
   * pair it has lost its time span.
   */
  method FilteringChangesCachedList(e: Event, today: CalendarDate) returns (filtered: StringList, later: StringList)
    requires e.Valid() && e.dateAndLocationCache == null && e.withoutTimeSpanCache == null
    requires e.startDate.Some? && e.endDate.Some? && e.date.None?
    modifies e.Repr
    ensures filtered == later && later.Valid()
    ensures later.Contents() ==
      (if e.location.Some? && !MentionsTimeSpan(e.location.value) then [e.location.value] else [])
      + [RangeString(old(e.startDate.value), old(e.endDate.value))]
  {
    filtered := e.DateAndLocationStringsWithoutTimeSpan(today);
    later := e.DateAndLocationStrings(today);
    WithoutTimeSpanInRangeCase(e.location, old(e.startDate.value), old(e.endDate.value), today);
  }
}
