/**
 * The design models of rendercv/data_model.py: `ClassicThemeOptions`, a record
 * of visual parameters each with a fixed default, and `Design`, which pairs
 * the one supported theme name, "classic", with those options.
 */
module Themes {
  import opened Wrappers

  /** The primary colour and the eleven lengths ("1.35cm") of the classic theme. */
  datatype ClassicThemeOptions = ClassicThemeOptions(
    primaryColor: string,
    pageTopMargin: string,
    pageBottomMargin: string,
    pageLeftMargin: string,
    pageRightMargin: string,
    sectionTitleTopMargin: string,
    sectionTitleBottomMargin: string,
    verticalMarginBetweenBulletPoints: string,
    bulletPointLeftMargin: string,
    verticalMarginBetweenEntries: string,
    verticalMarginBetweenEntriesAndHighlights: string,
    dateAndLocationWidth: string)

  /** The input keys of the options, in declaration order. */
  const OptionKeys: seq<string> := [
    "primary_color", "page_top_margin", "page_bottom_margin", "page_left_margin",
    "page_right_margin", "section_title_top_margin", "section_title_bottom_margin",
    "vertical_margin_between_bullet_points", "bullet_point_left_margin",
    "vertical_margin_between_entries", "vertical_margin_between_entries_and_highlights",
    "date_and_location_width"
  ]

  const DefaultClassicThemeOptions := ClassicThemeOptions(
    "blue", "1.35cm", "1.35cm", "1.35cm", "1.35cm", "0.13cm", "0.13cm",
    "0.07cm", "0.7cm", "0.12cm", "0.12cm", "3.7cm")

  /** The option values in the order of `OptionKeys`. */
  function OptionValues(o: ClassicThemeOptions): (v: seq<string>)
    ensures |v| == |OptionKeys|
  {
    [o.primaryColor, o.pageTopMargin, o.pageBottomMargin, o.pageLeftMargin, o.pageRightMargin,
     o.sectionTitleTopMargin, o.sectionTitleBottomMargin, o.verticalMarginBetweenBulletPoints,
     o.bulletPointLeftMargin, o.verticalMarginBetweenEntries,
     o.verticalMarginBetweenEntriesAndHighlights, o.dateAndLocationWidth]
  }

  function Field(raw: map<string, string>, k: nat): string
    requires k < |OptionKeys|
  {
    if OptionKeys[k] in raw then raw[OptionKeys[k]] else OptionValues(DefaultClassicThemeOptions)[k]
  }

  /** Validating the raw options: each key given takes its value, each key absent its default; other keys are ignored. */
  function ClassicThemeOptionsFrom(raw: map<string, string>): (o: ClassicThemeOptions)
    ensures forall k :: 0 <= k < |OptionKeys| ==>
      OptionValues(o)[k] == if OptionKeys[k] in raw then raw[OptionKeys[k]] else OptionValues(DefaultClassicThemeOptions)[k]
  {
    ClassicThemeOptions(Field(raw, 0), Field(raw, 1), Field(raw, 2), Field(raw, 3), Field(raw, 4), Field(raw, 5),
                        Field(raw, 6), Field(raw, 7), Field(raw, 8), Field(raw, 9), Field(raw, 10), Field(raw, 11))
  }

  /** The raw form of a set of options. */
  function RawOptions(o: ClassicThemeOptions): map<string, string>
  {
    map k | 0 <= k < |OptionKeys| :: OptionKeys[k] := OptionValues(o)[k]
  }

  lemma OptionKeysDistinct()
    ensures forall i, j :: 0 <= i < j < |OptionKeys| ==> OptionKeys[i] != OptionKeys[j]
  {
  }

  /** Options written out and validated again come back unchanged. */
  lemma OptionsRoundTrip(o: ClassicThemeOptions)
    ensures ClassicThemeOptionsFrom(RawOptions(o)) == o
  {
    var raw := RawOptions(o);
    OptionKeysDistinct();
    forall k | 0 <= k < |OptionKeys|
      ensures OptionKeys[k] in raw && raw[OptionKeys[k]] == OptionValues(o)[k]
    {
      assert OptionKeys[k] in raw;
      var j :| 0 <= j < |OptionKeys| && OptionKeys[j] == OptionKeys[k] && raw[OptionKeys[k]] == OptionValues(o)[j];
      assert j == k;
    }
    assert OptionValues(ClassicThemeOptionsFrom(raw)) == OptionValues(o);
  }

  /** With no options given, every option takes its documented default. */
  lemma EmptyOptionsAreDefaults()
    ensures ClassicThemeOptionsFrom(map[]) == DefaultClassicThemeOptions
  {
    assert OptionValues(ClassicThemeOptionsFrom(map[])) == OptionValues(DefaultClassicThemeOptions);
  }

  /** `theme: Literal["classic"]` */
  datatype Theme = Classic

  datatype Design = Design(theme: Theme, options: ClassicThemeOptions)

  datatype DesignError = UnknownTheme(name: string) | MissingOptions

  /**
   * Validating a design: `theme` defaults to "classic" and accepts nothing
   * else; `options` has no default. Every violation is reported.
   */
  function DesignFrom(theme: Option<string>, options: Option<map<string, string>>): (r: Result<Design, seq<DesignError>>)
    ensures r.Ok? <==> (theme.None? || theme == Some("classic")) && options.Some?
    ensures r.Ok? ==> r.value.options == ClassicThemeOptionsFrom(options.value)
    ensures r.Err? ==> (MissingOptions in r.error <==> options.None?)
    ensures r.Err? ==> (UnknownTheme(theme.GetOr("classic")) in r.error <==> theme.Some? && theme.value != "classic")
    // nothing else is reported, and nothing twice
    ensures r.Err? ==> forall e :: e in r.error ==> e == MissingOptions || e == UnknownTheme(theme.GetOr("classic"))
    ensures r.Err? ==> |r.error| == (if theme.Some? && theme.value != "classic" then 1 else 0) + (if options.None? then 1 else 0)
  {
    var themeErrors := if theme.Some? && theme.value != "classic" then [UnknownTheme(theme.value)] else [];
    var optionErrors := if options.None? then [MissingOptions] else [];
    if themeErrors + optionErrors == [] then Ok(Design(Classic, ClassicThemeOptionsFrom(options.value)))
    else Err(themeErrors + optionErrors)
  }
}
