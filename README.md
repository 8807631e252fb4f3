# RenderCV data model in Dafny

This project models the data model of RenderCV, the tool that turns a YAML
description of a curriculum vitae into a typeset CV. The data model lives in
`rendercv/data_model.py`. It covers the following:

- **Spelling check.** `check_spelling` is applied to every highlight line when an entry is validated. It
  normalises the sentence into words and warns about each word the dictionary
  does not know, unless that word is on a fixed allow-list.
- **Date helpers.**
  - `format_date` renders a date as "May 2024".
  - `compute_time_span_string` renders the distance between two dates as
    "2 years 5 months".
- **Design.** The `ClassicThemeOptions` record has constant defaults. `Design`
  accepts only the theme "classic".
- **Entries.** An `Event` is the common base of the four entry kinds (one-line,
  normal, experience and education). It carries:
  - the `check_dates` rule, which reconciles `start_date`/`end_date` against a
    free-form `date`;
  - the cached `date_and_location_strings` list;
  - the in-place filter that removes the time span from that cached list;
  - the highlight lines, where an education entry adds a leading GPA line;
  - the markdown link for the entry's URL.
- **The CV.** `CurriculumVitae` derives the ordered list of `connections`:
  phone, email, website, then one entry per social network.
  `RenderCVDataModel` pairs a design with a CV.

The modules follow the structure of the file:

- `Wrappers` provides `Option` and `Result`.
- `Text` provides substring search, decimal digits, and text free of "year" and "month".
- `Dates` covers calendar dates, the day ordinal, ISO dates, `format_date` and `compute_time_span_string`.
- `Spelling` covers `check_spelling`.
- `Themes` covers `ClassicThemeOptions` and `Design`.
- `Lists` provides a Python list of strings as an array-backed class with `append` and `remove`.
- `Events` covers `Event` and its entry kinds.
- `Curriculum` covers `SocialNetwork`, `Connection`, `CurriculumVitae` and `RenderCVDataModel`.

Some parts of the source change state. These are modelled imperatively:
- `check_dates` reassigns the fields of an `Event` object.
- `date_and_location_strings` and the two highlight methods build lists by appending.
- The time-span filter removes elements from the cached list while a for-loop iterates over that list. The object method keeps that behaviour. A separate corrected loop (`Events.FilterTimeSpanInPlace`) advances only past the elements it keeps.
- `connections` appends in a loop.
- `check_spelling` loops over the unknown words.

Each of these methods is proved against a specification function, and the
properties are proved about that function. `Events.Event.HighlightStrings`
is the exception: its contract states the list's structure directly, with
the GPA line given by `Events.GpaLine`.

Modelling decisions:

- **`PastDate` is strict.** `start_date` and `end_date` are typed `PastDate`
  (rendercv/data_model.py:264-265). Pydantic's `PastDate` accepts only a date
  strictly before today, so a date equal to today is rejected
  (`Dates.IsPastDate`, `Events.NewEvent`).
- **Month count is never zero.** The month count of a time span is always
  between 1 and 12. The source's branches for "no months" therefore never run
  (`Dates.MonthCountRange`).

## Model

| member | source | states |
|---|---|---|
| Dates.OrdinalOrder | rendercv/data_model.py:124 | The day number behind `(end - start).days` orders dates chronologically: one date comes before another exactly when its day number is smaller, and two dates are equal exactly when their day numbers are equal. |
| Dates.Ordinal | rendercv/data_model.py:124 | The day number of a date, as `toordinal` counts it. `Dates.OrdinalOrder` characterises it. |
| Dates.IsPastDate | rendercv/data_model.py:264-265 | The `PastDate` test. `Dates.PastDateHasPositiveSpan` characterises it. |
| Dates.PastDateHasPositiveSpan | rendercv/data_model.py:264-265 | A date passes `PastDate` exactly when it lies a positive number of days before today. |
| Dates.IsoRoundTrip | rendercv/data_model.py:311 | ISO parsing accepts a string and yields a date exactly when the string is that date's canonical "YYYY-MM-DD" form. |
| Dates.IsoFormatParses | rendercv/data_model.py:311 | Every date's "YYYY-MM-DD" form parses back to that date. |
| Dates.IsoParseIsCanonical | rendercv/data_model.py:311 | A string that parses is the canonical form of the date it parses to. |
| Dates.ParseIsoDate | rendercv/data_model.py:311 | Strict "YYYY-MM-DD" parsing. `Dates.IsoRoundTrip` characterises it. |
| Dates.FormatDateExample | rendercv/data_model.py:164-170 | 2024-05-01 is formatted as "May 2024". |
| Dates.AbbreviationsDistinct | rendercv/data_model.py:180-193 | No two months share an abbreviation in the twelve-entry table. |
| Dates.FormatDateInjective | rendercv/data_model.py:195-198 | Two dates format the same exactly when they have the same month and the same year, so the day is the only thing dropped. |
| Dates.FormatDateFree | rendercv/data_model.py:180-198 | A formatted date never contains "year" or "month". |
| Dates.FormatDate | rendercv/data_model.py:158-200 | "Mon. YYYY" from the abbreviation table. `Dates.FormatDateInjective`, `Dates.FormatDateFree` and `Dates.FormatDateExample` characterise it. |
| Dates.RoundThirtiethsIsNearest | rendercv/data_model.py:136 | The rounding of `r / 30` yields exactly the nearest integer, with a tie going to the even neighbour, as Python's `round` does. |
| Dates.RoundThirtieths | rendercv/data_model.py:136 | Python's `round(r / 30)`. `Dates.RoundThirtiethsIsNearest` characterises it. |
| Dates.MonthCount | rendercv/data_model.py:136-138 | The month count of a span. `Dates.MonthCountRange` characterises it. |
| Dates.MonthCountRange | rendercv/data_model.py:136-138 | The month count, forced up from 0 to 1, always lies between 1 and 12. |
| Dates.YearPhraseShape | rendercv/data_model.py:128-133 | Any non-zero year count is written as a phrase that mentions "year". |
| Dates.MonthPhraseShape | rendercv/data_model.py:140-145 | A month count from 1 to 12 is written as a phrase that mentions "month" and never "year". |
| Text.NatToStringRoundTrip | rendercv/data_model.py:133 | The decimal digits written for a count read back as that count. |
| Text.NatToStringInjective | rendercv/data_model.py:133 | Two counts are written the same exactly when they are equal. |
| Text.NatToString | rendercv/data_model.py:133 | Python's `str(n)` for a count. `Text.NatToStringRoundTrip` characterises it. |
| Dates.TimeSpanWithoutYears | rendercv/data_model.py:147-148 | With a zero year count, the span is the month phrase alone, so it mentions "month" and not "year". |
| Dates.JoinedMentionsBoth | rendercv/data_model.py:153 | Joining a year phrase and a month phrase with a space keeps both mentions. |
| Dates.TimeSpanShape | rendercv/data_model.py:104-155 | The span always contains "month". It contains "year" exactly when `days // 365` is not zero. |
| Dates.ZeroSpanIsOneMonth | rendercv/data_model.py:137-143 | A zero-day span reads "1 month". |
| Dates.TimeSpanExample | rendercv/data_model.py:107-114 | From 2022-09-24 to 2025-02-12 the span reads "2 years 5 months". |
| Dates.TimeSpanString | rendercv/data_model.py:124-155 | The span text from a number of days. `Dates.TimeSpanShape`, `Dates.ZeroSpanIsOneMonth` and `Dates.TimeSpanExample` characterise it. |
| Dates.ComputeTimeSpanString | rendercv/data_model.py:104-155 | `compute_time_span_string`: the span text for the days between two dates. `Events.SpanStringMentions` applies it. |
| Spelling.Lower | rendercv/data_model.py:76 | Each capital A-Z becomes the same letter in lower case and every other character is kept, so the length is unchanged and no capital remains. |
| Spelling.LowerAppend | rendercv/data_model.py:76 | Lower-casing a concatenation lower-cases each part. |
| Spelling.CollapseHyphens | rendercv/data_model.py:77-79 | After each run of hyphens is replaced by one space, no hyphen remains and the text is no longer. |
| Spelling.CollapseHyphensNoHyphen | rendercv/data_model.py:77-79 | A text without hyphens is left unchanged. |
| Spelling.CollapseHyphensRun | rendercv/data_model.py:77-79 | A whole run of one or more hyphens becomes exactly one space. |
| Spelling.CollapseHyphensKeepsPrefix | rendercv/data_model.py:77-79 | Text without hyphens is copied through unchanged in front of whatever follows. |
| Spelling.KeepWordChars | rendercv/data_model.py:80-82 | Only lower-case letters, whitespace, hyphens and apostrophes remain, and each comes from the input. |
| Spelling.KeepWordCharsAppend | rendercv/data_model.py:80-82 | Filtering a concatenation filters each part. |
| Spelling.KeepWordCharsOne | rendercv/data_model.py:80-82 | One character is kept exactly when it is a lower-case letter, whitespace, a hyphen or an apostrophe. |
| Spelling.Split | rendercv/data_model.py:83 | Splitting on whitespace yields only non-empty words that contain no whitespace. |
| Spelling.SplitWord | rendercv/data_model.py:83 | A non-empty text without whitespace is a single word. |
| Spelling.SplitSeparated | rendercv/data_model.py:83 | A whitespace character separates words: the text before it and the text after it are split independently and their words concatenated. |
| Spelling.SplitLettered | rendercv/data_model.py:83 | Splitting a text of letters a-z, apostrophes and whitespace yields words made of those characters only. |
| Spelling.SplitKeepsNonSpaces | rendercv/data_model.py:83 | The words, concatenated, are exactly the non-whitespace characters of the input, in order. |
| Spelling.WordsShape | rendercv/data_model.py:76-83 | Every word handed to the dictionary is non-empty and consists only of a-z and apostrophes. |
| Spelling.CheckSpelling | rendercv/data_model.py:53-98 | The sentence is returned unchanged. A word is warned about exactly when it is among the sentence's words, unknown to the dictionary, and not on the allow-list of lines 35-50. |
| Spelling.Words | rendercv/data_model.py:76-83 | The words of a sentence: lower-cased, hyphen runs collapsed, other characters removed, split on whitespace. `Spelling.WordsShape` characterises them. |
| Spelling.Unknown | rendercv/data_model.py:84 | The words the dictionary does not hold. `Spelling.CheckSpelling` relates them to the warnings. |
| Themes.ClassicThemeOptionsFrom | rendercv/data_model.py:220-237 | Each option takes the value given for its key, or else its declared default. |
| Themes.OptionsRoundTrip | rendercv/data_model.py:213-237 | Options written out as raw key/value pairs validate back to the same options. |
| Themes.EmptyOptionsAreDefaults | rendercv/data_model.py:220-237 | With no keys given, every option has its declared default ("blue", "1.35cm", ..., "3.7cm"). |
| Themes.DesignFrom | rendercv/data_model.py:240-244 | A design validates exactly when the theme is absent or "classic" and the options are present. Otherwise the errors are exactly an unknown theme, when one was given, and missing options, when they are absent: each once, and nothing else. |
| Events.Reconcile | rendercv/data_model.py:277-296 | After reconciliation, `date` never stands beside a start or end date. Fields are only cleared. A complete start/end pair wins over `date`, and `date` wins over an incomplete pair. "date ignored" is warned exactly when all three fields were given, "start and end ignored" exactly when `date` comes with an incomplete pair. Without `date`, nothing changes and nothing is warned. |
| Events.ReconcileIdempotent | rendercv/data_model.py:271-296 | Reconciling again changes nothing and warns about nothing. |
| Events.Event.CheckDates | rendercv/data_model.py:271-296 | The object's date fields become the reconciled fields, and the warning is the reconciliation's. |
| Events.NewEvent | rendercv/data_model.py:264-296 | The spelling warnings are those of every highlight line. An entry is rejected exactly when its start date or its non-"present" end date is not in the past, and then no date warning is given. Otherwise the new entry holds the given fields after `check_dates`, with nothing cached yet. |
| Events.CheckHighlights | rendercv/data_model.py:268 | A word is warned about exactly when `check_spelling` warns about it in some highlight line. |
| Events.DatesInPast | rendercv/data_model.py:264-265 | The `PastDate` test on the start date and on an end date other than "present". `Events.NewEvent` rejects exactly when it fails. |
| Events.Event.constructor | rendercv/data_model.py:264-269 | A new entry holds the given fields and has no cached lists. |
| Events.DateAndLocation | rendercv/data_model.py:300-337 | The list has the location first when there is one. It ends with the shown `date` when there is one, and otherwise with "start to end" followed by the time span. |
| Events.DateStringOfIso | rendercv/data_model.py:308-312 | A `date` in ISO form is shown formatted as "Mon. YYYY". |
| Events.DateStringVerbatim | rendercv/data_model.py:313-314 | Any other `date` is shown verbatim. |
| Events.DateString | rendercv/data_model.py:308-314 | The shown `date`. `Events.DateStringOfIso` and `Events.DateStringVerbatim` characterise it. |
| Events.RangeString | rendercv/data_model.py:318-333 | "start to end", with "present" or a formatted end date. `Events.RangeStringFree` characterises it. |
| Events.SpanString | rendercv/data_model.py:323-335 | The time span up to the end date, or up to today for "present". `Events.SpanStringMentions` characterises it. |
| Events.BuildDateAndLocation | rendercv/data_model.py:300-337 | Appending in the source's order to a fresh list builds exactly the list `DateAndLocation` describes. |
| Events.Event.DateAndLocationStrings | rendercv/data_model.py:298-337 | The first call builds, by appending, the list that `DateAndLocation` describes and caches it. Later calls return the very same cached list object, in whatever state it is. |
| Events.RangeStringFree | rendercv/data_model.py:318-333 | "start to end" never mentions a year or a month. |
| Events.SpanStringMentions | rendercv/data_model.py:323-335 | The time-span element always mentions a month. |
| Events.RemoveTimeSpanInPlace | rendercv/data_model.py:343-350 | The in-place loop leaves the list exactly as Python's remove-while-iterating does: the iterator's index advances over a list that shrinks beneath it. |
| Events.Event.DateAndLocationStringsWithoutTimeSpan | rendercv/data_model.py:339-352 | The filter runs once, in place, on the list `date_and_location_strings` caches. That same object becomes both caches. |
| Events.WithoutTimeSpanInRangeCase | rendercv/data_model.py:341-352 | With a start/end pair, the filtered list keeps the location exactly when it mentions no year or month. It always keeps "start to end" and always drops the time span, and it agrees with the intended filter. |
| Events.WithoutTimeSpan | rendercv/data_model.py:343-350 | The intended filter keeps exactly the elements that mention neither "year(s)" nor "month(s)". |
| Events.WithoutTimeSpanAppend | rendercv/data_model.py:343-350 | Filtering a concatenation filters each part, so order and repetitions are kept. |
| Events.WithoutTimeSpanOne | rendercv/data_model.py:343-350 | One element is kept exactly when it mentions no year or month. |
| Events.RemoveWhileIterating | rendercv/data_model.py:343-350 | The loop as written on values: an index advances over the list as it shrinks. `Events.RemoveTimeSpanInPlace` is proved equal to it, and `Events.AdjacentMatchSurvives` and `Events.WithoutTimeSpanInRangeCase` compare it with the intended filter. |
| Events.MentionsTimeSpan | rendercv/data_model.py:346-349 | The test for "years", "months", "year" or "month". `Events.RangeStringFree` and `Events.SpanStringMentions` apply it. |
| Events.FilterTimeSpanInPlace | rendercv/data_model.py:343-350 | The corrected in-place loop, which advances its index only past an element it keeps, leaves exactly the elements the intended filter keeps. |
| Events.AdjacentMatchSurvives | rendercv/data_model.py:343-350 | With location "6 months" and date "3 months", the loop as written keeps "3 months", while the intended filter keeps nothing. |
| Events.FilteringChangesCachedList | rendercv/data_model.py:341-342 | Once filtered, `date_and_location_strings` returns the filtered list, which lacks the time span. |
| Events.GpaLine | rendercv/data_model.py:423-427 | The line is "GPA: <gpa>" without a transcript URL and "GPA: <gpa> ([Transcript](<url>))" with one. |
| Events.Event.HighlightStrings | rendercv/data_model.py:354-431 | The result is absent exactly when there are no highlights. Otherwise it ends with the highlights in order, and for an education entry with a GPA one extra leading line holds the GPA line. |
| Events.MarkdownUrl | rendercv/data_model.py:363-384 | The link is absent exactly when the URL is. Otherwise it is "[label](url)". |
| Events.LinkLabelPriority | rendercv/data_model.py:371-380 | Each label is chosen exactly when its platform is the first, in the order GitHub, LinkedIn, Instagram, YouTube, that the URL mentions. The website label is chosen when none is mentioned. |
| Events.LinkLabel | rendercv/data_model.py:371-380 | The label of the link. `Events.LinkLabelPriority` characterises it. |
| Events.GitHubLink | rendercv/data_model.py:371-372 | Any URL containing "github.com" renders as "[view on GitHub](url)". |
| Lists.RemoveFirst | rendercv/data_model.py:350 | `list.remove` drops one element when the value is present, and changes nothing when it is absent. |
| Lists.StringList.IndexOf | rendercv/data_model.py:350 | The index found is the first occurrence of the value, or the size of the list when it is absent. |
| Lists.StringList.DeleteAt | rendercv/data_model.py:350 | Deleting at an index shifts the later elements left and keeps the earlier ones. |
| Lists.StringList.Remove | rendercv/data_model.py:350 | Removing in place reports whether the value was present and leaves the contents with its first occurrence removed. |
| Lists.StringList.Append | rendercv/data_model.py:304 | Appending in place adds the value at the end and changes nothing else. |
| Curriculum.NetworkRoundTrip | rendercv/data_model.py:439 | A network name is accepted exactly when it is one of "LinkedIn", "GitHub", "Instagram", and it yields that network. |
| Curriculum.ParseNetwork | rendercv/data_model.py:439 | Validating the network literal. `Curriculum.NetworkRoundTrip` characterises it. |
| Curriculum.SocialConnection | rendercv/data_model.py:486-489 | A social network becomes a connection named after its network, ranked after phone, email and website, whose value is the username. |
| Curriculum.Socials | rendercv/data_model.py:484-490 | One connection per social network, in the same order. |
| Curriculum.AppendSocials | rendercv/data_model.py:484-490 | The loop over the social networks appends exactly their connections, in order, after the contacts. |
| Curriculum.OptionalContactsAreContactList | rendercv/data_model.py:477-483 | The phone, email and website connections appear each exactly when present, with their values, in that order. |
| Curriculum.ContactsThenSocials | rendercv/data_model.py:484-490 | Social connections appended after the contacts keep the phone-email-website-social order, the contact values, and every contact the CV gives. |
| Curriculum.ContactsThenSocialsAreConnectionList | rendercv/data_model.py:474-492 | The present contacts followed by the social networks in order form a connection list. |
| Curriculum.Connections | rendercv/data_model.py:474-492 | The result has the length of the present contacts plus the social networks. It is ordered phone, email, website, then social. Every contact is present exactly when given and carries its value. The social networks follow in input order. |
| Curriculum.IsConnectionList | rendercv/data_model.py:474-492 | What `connections` promises. `Curriculum.ConnectionsExample` shows that it fixes the list completely. |
| Curriculum.ConnectionsExample | rendercv/data_model.py:474-492 | A CV with phone x, email y, no website and networks a, b has the connections exactly [phone x, email y, a, b]. |

## Left out

- Pydantic's validation of `HttpUrl`, `EmailStr`, `PhoneNumber` and `Color`
  comes from foreign libraries. URLs, emails, phone numbers and colours are
  taken as already-normalised strings, and `str(HttpUrl)` is the URL string as
  given.
- `Date.today()` is a parameter `today`. `logging.warning` becomes a returned
  warning value or set.
- `Date.fromisoformat` is modelled as the strict "YYYY-MM-DD" form only. The
  other ISO forms Python 3.11 accepts (for example "20240501") are read as
  free-form text.
- Years are written with `format_date` as plain decimal numbers. The
  platform-dependent zero-padding of `strftime("%Y")` for years below 1000 is
  not modelled.
- The spell checker's dictionary (`spell.unknown`) is a parameter
  `inDictionary`. Its own word filtering (pyspellchecker skips some tokens,
  such as numbers) is part of that parameter.
- Spelling.Lower: lower-cases only A-Z. The few non-ASCII capitals whose
  Unicode lower case is an ASCII letter (such as the Kelvin sign) are not
  mapped.
- Events.CheckHighlights: returns the warned words as one set. The source
  logs one message per misspelled word per highlight line, so a word
  misspelled in two lines is logged twice; the number and order of log
  messages are not modelled.
- `cached_property` and `computed_field` are modelled only as the two cache
  fields of `Event` and their aliasing. Pydantic's serialisation of computed
  fields is left out.
- Entry kinds are a tag inside one `Event` class, because the model has no
  subclassing. The CV's section lists are typed as lists of `Event`, not as
  lists of one particular kind.
- Events.Event.DateAndLocationStrings: requires a `date`, or a complete
  start/end pair. Otherwise the source calls `format_date(None)` and raises.
  That failure is not modelled as a value.
- Themes.DesignFrom: validates only the theme name and the presence of the
  options. Per-option type errors (an invalid colour) are not modelled, since
  options are plain strings.
- `RenderCVDataModel` is a record pairing a `Design` with a
  `CurriculumVitae`. It has no behaviour of its own.

## Findings

| source | as written | input that shows it | evidently intended | confidence | as-written member | corrected member |
|---|---|---|---|---|---|---|
| rendercv/data_model.py:343-350 | The loop removes elements from the list it is iterating over. When an element is removed, the next one shifts under the advanced iterator index and is never tested. | An entry with location "6 months" and free-form date "3 months": the list ["6 months", "3 months"] is filtered to ["3 months"]. | Every element that mentions a year or a month is removed, giving []. | medium; not executed | Events.AdjacentMatchSurvives | Events.FilterTimeSpanInPlace |
