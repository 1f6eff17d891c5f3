/** `extract_date_from_filename` (src/filename_date_guess.rs): an ordered table
    of 24 patterns, tried first to last; the first pattern that matches
    anywhere in the file name decides the EXIF date text
    (`YYYY:MM:DD HH:MM:SS`, the DateTimeOriginal form of Exif 2.3 / CIPA
    DC-008, section 4.6.5).

    The patterns of the source's lines 18 to 36 are raw strings written with
    `\\d`: in such a string `\\` is a literal backslash and the `d` that
    follows is a literal letter, so `(\\d{8})` matches a backslash followed by
    eight letters `d`, and `\\.` a backslash followed by any character. The
    table below spells those patterns out as they are written. */
module FilenameDateGuess {
  import opened Text
  import opened Pattern
  import opened CivilTime

  /** How a rule turns its captures into the date text. */
  datatype Layout =
    | DateMidnight    // one 8-character date capture, time 00:00:00
    | SixFields       // six captures copied as Y:M:D h:m:s
    | DateTime        // an 8-character date and a 6-character time
    | PixelDateTime   // as DateTime, using only the first 6 characters of the time
    | JoinedDateTime  // date = captures 1..3 joined, time = capture 4
    | DateHourMinute  // an 8-character date and a 4-character HHMM time, seconds 00
    | DayMonthYear    // day, English month abbreviation, year

  datatype Rule = Rule(name: string, pattern: Pattern, groups: seq<Group>, layout: Layout)

  // Pieces of the backslash patterns: `\\` and `d{n}`, `d+` and `.`.
  const Backslash: Piece := Lit("\\")
  function Ds(n: nat): Piece { Times('d', n) }
  const DsPlus: Piece := Repeat(Char('d'), 1, None)
  const AnyChar: Piece := Repeat(AnyButNewline, 1, Some(1))

  const MonthAbbreviations: seq<string> :=
    ["Jan", "Feb", "Mar", "Apr", "May", "Jun", "Jul", "Aug", "Sep", "Oct", "Nov", "Dec"]

  /** Capture groups shared by rules of the same shape: pieces 1, 3, 5, ... */
  const SixGroups: seq<Group> := [Group(1, 2), Group(3, 4), Group(5, 6), Group(7, 8), Group(9, 10), Group(11, 12)]
  const PairGroups: seq<Group> := [Group(1, 2), Group(3, 4)]

  // r"IMG-(\d{8})-WA\d+"
  const Wa1 := Rule("wa1", [Lit("IMG-"), Digits(8), Lit("-WA"), DigitsFrom(1)], [Group(1, 2)], DateMidnight)
  // r"WhatsApp Image (\d{4})-(\d{2})-(\d{2}) at (\d{2})\.(\d{2})\.(\d{2})"
  const Wa2 := Rule("wa2",
    [Lit("WhatsApp Image "), Digits(4), Lit("-"), Digits(2), Lit("-"), Digits(2), Lit(" at "),
     Digits(2), Lit("."), Digits(2), Lit("."), Digits(2)],
    SixGroups, SixFields)
  // r"Screenshot_(\d{4})-(\d{2})-(\d{2})-(\d{2})-(\d{2})-(\d{2})"
  const Sc1 := Rule("sc1",
    [Lit("Screenshot_"), Digits(4), Lit("-"), Digits(2), Lit("-"), Digits(2), Lit("-"),
     Digits(2), Lit("-"), Digits(2), Lit("-"), Digits(2)],
    SixGroups, SixFields)
  // r"Screen Shot (\d{4})-(\d{2})-(\d{2}) at (\d{2})\.(\d{2})\.(\d{2})"
  const Sc2 := Rule("sc2",
    [Lit("Screen Shot "), Digits(4), Lit("-"), Digits(2), Lit("-"), Digits(2), Lit(" at "),
     Digits(2), Lit("."), Digits(2), Lit("."), Digits(2)],
    SixGroups, SixFields)
  // r"Screenshot_(\d{8})-(\d{6})"
  const Sc3 := Rule("sc3", [Lit("Screenshot_"), Digits(8), Lit("-"), Digits(6)], PairGroups, DateTime)
  // r"photo_(\d{4})-(\d{2})-(\d{2}) (\d{2})\.(\d{2})\.(\d{2})"
  const Tg1 := Rule("tg1",
    [Lit("photo_"), Digits(4), Lit("-"), Digits(2), Lit("-"), Digits(2), Lit(" "),
     Digits(2), Lit("."), Digits(2), Lit("."), Digits(2)],
    SixGroups, SixFields)
  // r"IMG_(\d{8})_(\d{6})"
  const Mi1 := Rule("mi1", [Lit("IMG_"), Digits(8), Lit("_"), Digits(6)], PairGroups, DateTime)
  // r"(\d{4})-(\d{2})-(\d{2})-(\d{6})"
  const Dt1 := Rule("dt1",
    [Digits(4), Lit("-"), Digits(2), Lit("-"), Digits(2), Lit("-"), Digits(6)],
    [Group(0, 1), Group(2, 3), Group(4, 5), Group(6, 7)], JoinedDateTime)
  // r"[._-](\d{8})-(\d{4})"
  const Custom1 := Rule("custom1",
    [Repeat(Among("._-"), 1, Some(1)), Digits(8), Lit("-"), Digits(4)],
    PairGroups, DateHourMinute)
  // r"(\\d{8})_(\\d{6})"
  const Samsung1 := Rule("samsung1",
    [Backslash, Ds(8), Lit("_"), Backslash, Ds(6)], [Group(0, 2), Group(3, 5)], DateTime)
  // r"(\\d{4})-(\\d{2})-(\\d{2}) (\\d{2})\\.(\\d{2})\\.(\\d{2})"
  const Samsung2 := Rule("samsung2",
    [Backslash, Ds(4), Lit("-"), Backslash, Ds(2), Lit("-"), Backslash, Ds(2), Lit(" "),
     Backslash, Ds(2), Backslash, AnyChar, Backslash, Ds(2), Backslash, AnyChar, Backslash, Ds(2)],
    [Group(0, 2), Group(3, 5), Group(6, 8), Group(9, 11), Group(13, 15), Group(17, 19)], SixFields)
  // r"(\\d{8})-(\\d{6})"
  const Samsung3 := Rule("samsung3",
    [Backslash, Ds(8), Lit("-"), Backslash, Ds(6)], [Group(0, 2), Group(3, 5)], DateTime)
  // r"(\\d{4})-(\\d{2})-(\\d{2})_(\\d{2})-(\\d{2})-(\\d{2})"
  const Samsung4 := Rule("samsung4",
    [Backslash, Ds(4), Lit("-"), Backslash, Ds(2), Lit("-"), Backslash, Ds(2), Lit("_"),
     Backslash, Ds(2), Lit("-"), Backslash, Ds(2), Lit("-"), Backslash, Ds(2)],
    [Group(0, 2), Group(3, 5), Group(6, 8), Group(9, 11), Group(12, 14), Group(15, 17)], SixFields)
  // r"(\\d{4})\\.(\\d{2})\\.(\\d{2})_(\\d{2})\\.(\\d{2})\\.(\\d{2})"
  const Samsung5 := Rule("samsung5",
    [Backslash, Ds(4), Backslash, AnyChar, Backslash, Ds(2), Backslash, AnyChar, Backslash, Ds(2), Lit("_"),
     Backslash, Ds(2), Backslash, AnyChar, Backslash, Ds(2), Backslash, AnyChar, Backslash, Ds(2)],
    [Group(0, 2), Group(4, 6), Group(8, 10), Group(11, 13), Group(15, 17), Group(19, 21)], SixFields)
  // r"(\\d{4})_(\\d{2})_(\\d{2})_(\\d{2})_(\\d{2})_(\\d{2})"
  const Samsung6 := Rule("samsung6",
    [Backslash, Ds(4), Lit("_"), Backslash, Ds(2), Lit("_"), Backslash, Ds(2), Lit("_"),
     Backslash, Ds(2), Lit("_"), Backslash, Ds(2), Lit("_"), Backslash, Ds(2)],
    [Group(0, 2), Group(3, 5), Group(6, 8), Group(9, 11), Group(12, 14), Group(15, 17)], SixFields)
  // r"PXL_(\\d{8})_(\\d{6,})"
  const Pxl := Rule("pxl",
    [Lit("PXL_"), Backslash, Ds(8), Lit("_"), Backslash, Repeat(Char('d'), 6, None)],
    [Group(1, 3), Group(4, 6)], PixelDateTime)
  // r"(\\d{4})-(\\d{2})-(\\d{2})_(\\d{2})-(\\d{2})-(\\d{2})-\\d+"
  const Ms1 := Rule("ms1",
    [Backslash, Ds(4), Lit("-"), Backslash, Ds(2), Lit("-"), Backslash, Ds(2), Lit("_"),
     Backslash, Ds(2), Lit("-"), Backslash, Ds(2), Lit("-"), Backslash, Ds(2), Lit("-"), Backslash, DsPlus],
    [Group(0, 2), Group(3, 5), Group(6, 8), Group(9, 11), Group(12, 14), Group(15, 17)], SixFields)
  // r"Screenshot_(\\d{4})-(\\d{2})-(\\d{2})-(\\d{2})-(\\d{2})-(\\d{2})-\\d+"
  const Ms2 := Rule("ms2",
    [Lit("Screenshot_"), Backslash, Ds(4), Lit("-"), Backslash, Ds(2), Lit("-"), Backslash, Ds(2), Lit("-"),
     Backslash, Ds(2), Lit("-"), Backslash, Ds(2), Lit("-"), Backslash, Ds(2), Lit("-"), Backslash, DsPlus],
    [Group(1, 3), Group(4, 6), Group(7, 9), Group(10, 12), Group(13, 15), Group(16, 18)], SixFields)
  // r"VID_(\\d{8})_(\\d{6})"
  const Vid := Rule("vid",
    [Lit("VID_"), Backslash, Ds(8), Lit("_"), Backslash, Ds(6)], [Group(1, 3), Group(4, 6)], DateTime)
  // r"DSC\\d+_(\\d{8})_(\\d{6})"
  const Sony1 := Rule("sony1",
    [Lit("DSC"), Backslash, DsPlus, Lit("_"), Backslash, Ds(8), Lit("_"), Backslash, Ds(6)],
    [Group(4, 6), Group(7, 9)], DateTime)
  // r"DSC_(\\d{8})_(\\d{6})"
  const Sony2 := Rule("sony2",
    [Lit("DSC_"), Backslash, Ds(8), Lit("_"), Backslash, Ds(6)], [Group(1, 3), Group(4, 6)], DateTime)
  // r"RMLmc(\\d{8})_(\\d{6})"
  const Rmlmc := Rule("rmlmc",
    [Lit("RMLmc"), Backslash, Ds(8), Lit("_"), Backslash, Ds(6)], [Group(1, 3), Group(4, 6)], DateTime)
  // r"IMG_(\\d{8})_(\\d{6})Jan \\d{2} \\d{4}"
  const Wallpaper := Rule("wallpaper",
    [Lit("IMG_"), Backslash, Ds(8), Lit("_"), Backslash, Ds(6), Lit("Jan "), Backslash, Ds(2), Lit(" "),
     Backslash, Ds(4)],
    [Group(1, 3), Group(4, 6)], DateTime)
  // r"(\\d{1,2}) (Jan|Feb|Mar|Apr|May|Jun|Jul|Aug|Sep|Oct|Nov|Dec) (\\d{4})"
  const San1 := Rule("san1",
    [Backslash, Repeat(Char('d'), 1, Some(2)), Lit(" "), Choice(MonthAbbreviations), Lit(" "), Backslash, Ds(4)],
    [Group(0, 2), Group(3, 4), Group(5, 7)], DayMonthYear)

  /** The cascade, in the order the source tests the patterns. */
  const Rules: seq<Rule> := AsciiRules + BackslashRules

  /** The rules of source lines 7 to 16, written with plain `\d`. */
  const AsciiRules: seq<Rule> := [Wa1, Wa2, Sc1, Sc2, Sc3, Tg1, Mi1, Dt1, Custom1]

  /** The rules of source lines 18 to 36, written with `\\d`. */
  const BackslashRules: seq<Rule> := [
    Samsung1, Samsung2, Samsung3, Samsung4, Samsung5, Samsung6, Pxl, Ms1, Ms2,
    Vid, Sony1, Sony2, Rmlmc, Wallpaper, San1]

  /** Number of rules written with plain `\d` (source lines 7 to 16). */
  const AsciiRuleCount: nat := 9

  // ------------------------------------------------------------- formatting

  function Cap(caps: seq<string>, k: nat): string {
    if k < |caps| then caps[k] else ""
  }

  /** The date text built from an 8-character date and a time, sliced as
      `&date[0..4]`, `&date[4..6]`, ..., `&time[4..6]`. */
  function Stamp(date: string, time: string): string {
    ExifText(Sub(date, 0, 4), Sub(date, 4, 6), Sub(date, 6, 8), Sub(time, 0, 2), Sub(time, 2, 4), Sub(time, 4, 6))
  }

  /** `match &caps[2] { "Jan" => 1, ..., "Dec" => 12, _ => 1 }`. */
  function MonthNumber(w: string): (m: nat)
    ensures 1 <= m <= 12
    ensures forall k :: 0 <= k < 12 && w == MonthAbbreviations[k] ==> m == k + 1
    ensures w !in MonthAbbreviations ==> m == 1
  {
    match w
    case "Jan" => 1 case "Feb" => 2 case "Mar" => 3 case "Apr" => 4
    case "May" => 5 case "Jun" => 6 case "Jul" => 7 case "Aug" => 8
    case "Sep" => 9 case "Oct" => 10 case "Nov" => 11 case "Dec" => 12
    case _ => 1
  }

  function Render(layout: Layout, caps: seq<string>): string {
    match layout
    case DateMidnight => Stamp(Cap(caps, 0), "000000")
    case SixFields => ExifText(Cap(caps, 0), Cap(caps, 1), Cap(caps, 2), Cap(caps, 3), Cap(caps, 4), Cap(caps, 5))
    case DateTime => Stamp(Cap(caps, 0), Cap(caps, 1))
    case PixelDateTime => Stamp(Cap(caps, 0), Sub(Cap(caps, 1), 0, 6))
    case JoinedDateTime => Stamp(Cap(caps, 0) + Cap(caps, 1) + Cap(caps, 2), Cap(caps, 3))
    case DateHourMinute => Stamp(Cap(caps, 0), Sub(Cap(caps, 1), 0, 4) + "00")
    case DayMonthYear =>
      var day := match ParseU32(Cap(caps, 0)) case Some(v) => v case None => 1;
      var month := MonthNumber(Cap(caps, 1));
      var year := match ParseU32(Cap(caps, 2)) case Some(v) => v case None => 1970;
      Padded(year, 4) + ":" + Padded(month, 2) + ":" + Padded(day, 2) + " 00:00:00"
  }

  // --------------------------------------------------------------- cascade

  predicate RuleMatches(r: Rule, name: string) {
    IsMatch(r.pattern, name)
  }

  /** The date text a rule produces from its leftmost match. */
  function RuleOutput(r: Rule, name: string): string
    requires RuleMatches(r, name)
  {
    var (i, e) := Find(r.pattern, name).value;
    Render(r.layout, Captures(r.groups, name, i, e))
  }

  /** The `if let Some(caps) = re.captures(..) { return ... }` chain. */
  function Cascade(rules: seq<Rule>, name: string): Option<string> {
    if rules == [] then None
    else
      match Find(rules[0].pattern, name)
      case Some(m) => Some(Render(rules[0].layout, Captures(rules[0].groups, name, m.0, m.1)))
      case None => Cascade(rules[1..], name)
  }

  /** `extract_date_from_filename`. */
  function ExtractDateFromFilename(name: string): Option<string> {
    Cascade(Rules, name)
  }

  /** The index of the first rule that matches, if any. */
  function FirstMatchingRule(rules: seq<Rule>, name: string): (k: Option<nat>)
    ensures k.Some? ==> k.value < |rules| && RuleMatches(rules[k.value], name)
  {
    if rules == [] then None
    else if RuleMatches(rules[0], name) then Some(0)
    else
      match FirstMatchingRule(rules[1..], name)
      case Some(k) => Some(k + 1)
      case None => None
  }

  /** `FirstMatchingRule` finds the earliest matching rule, and finds none
      only when no rule matches. */
  lemma {:induction false} FirstMatchingRuleIsEarliest(rules: seq<Rule>, name: string)
    ensures FirstMatchingRule(rules, name).Some? ==>
      forall j :: 0 <= j < FirstMatchingRule(rules, name).value ==> !RuleMatches(rules[j], name)
    ensures FirstMatchingRule(rules, name).None? <==> forall j :: 0 <= j < |rules| ==> !RuleMatches(rules[j], name)
  {
    if rules != [] && !RuleMatches(rules[0], name) {
      FirstMatchingRuleIsEarliest(rules[1..], name);
      assert forall j :: 1 <= j < |rules| ==> rules[j] == rules[1..][j - 1];
    }
  }

  /** The earliest matching rule is the one `FirstMatchingRule` names. */
  lemma FirstMatchingIs(rules: seq<Rule>, name: string, k: nat)
    requires k < |rules| && RuleMatches(rules[k], name)
    requires forall j :: 0 <= j < k ==> !RuleMatches(rules[j], name)
    ensures FirstMatchingRule(rules, name) == Some(k)
  {
    FirstMatchingRuleIsEarliest(rules, name);
  }

  /** Strict first-match-wins: the cascade returns the output of the earliest
      matching rule, and nothing when no rule matches. */
  lemma {:induction false} CascadeIsFirstMatch(rules: seq<Rule>, name: string)
    ensures Cascade(rules, name) ==
      match FirstMatchingRule(rules, name)
      case Some(k) => Some(RuleOutput(rules[k], name))
      case None => None
  {
    if rules != [] && !RuleMatches(rules[0], name) {
      CascadeIsFirstMatch(rules[1..], name);
    }
  }

  /** Rules that cannot match leave the cascade's answer to the rules before them. */
  lemma {:induction false} CascadeIgnoresSilentTail(rules: seq<Rule>, n: nat, name: string)
    requires n <= |rules|
    requires forall j :: n <= j < |rules| ==> !RuleMatches(rules[j], name)
    ensures Cascade(rules, name) == Cascade(rules[..n], name)
  {
    if n == 0 {
      CascadeNoneWhenSilent(rules, name);
    } else {
      assert rules[..n][1..] == rules[1..][..n - 1];
      CascadeIgnoresSilentTail(rules[1..], n - 1, name);
    }
  }

  lemma {:induction false} CascadeNoneWhenSilent(rules: seq<Rule>, name: string)
    requires forall j :: 0 <= j < |rules| ==> !RuleMatches(rules[j], name)
    ensures Cascade(rules, name) == None
  {
    if rules != [] {
      assert forall j :: 0 <= j < |rules| - 1 ==> rules[1..][j] == rules[j + 1];
      CascadeNoneWhenSilent(rules[1..], name);
    }
  }

  /** `extract_date_from_filename` returns `None` exactly when no rule matches. */
  lemma NoneIffNoRuleMatches(name: string)
    ensures ExtractDateFromFilename(name).None? <==>
      forall j :: 0 <= j < |Rules| ==> !RuleMatches(Rules[j], name)
  {
    CascadeIsFirstMatch(Rules, name);
    FirstMatchingRuleIsEarliest(Rules, name);
  }

  // ------------------------------------------------- shape of the output

  /** Capture widths of the layouts the digit rules use. */
  function LayoutWidths(layout: Layout): seq<nat> {
    match layout
    case DateMidnight => [8]
    case SixFields => [4, 2, 2, 2, 2, 2]
    case DateTime => [8, 6]
    case PixelDateTime => [8, 6]
    case JoinedDateTime => [4, 2, 2, 6]
    case DateHourMinute => [8, 4]
    case DayMonthYear => []
  }

  /** How many leading digits of the output are copied from the captures;
      the remaining ones are the zeros the layout fills in. */
  function CopiedDigits(layout: Layout): nat {
    match layout
    case DateMidnight => 8
    case DateHourMinute => 12
    case _ => 14
  }

  /** The captures are all-digit texts of the widths the layout expects. */
  predicate CapturesFit(layout: Layout, caps: seq<string>) {
    && layout != DayMonthYear
    && |caps| == |LayoutWidths(layout)|
    && forall g :: 0 <= g < |caps| ==> |caps[g]| == LayoutWidths(layout)[g] && AllDigits(caps[g])
  }

  /** Rendering well-sized digit captures gives a well-formed date text whose
      fields are the captures, in order, followed by filler zeros. */
  lemma RenderShape(layout: Layout, caps: seq<string>)
    requires CapturesFit(layout, caps)
    ensures ExifShaped(Render(layout, caps))
    ensures Fields(Render(layout, caps))[..CopiedDigits(layout)] == Concat(caps)
    ensures forall m :: CopiedDigits(layout) <= m < 14 ==> Fields(Render(layout, caps))[m] == '0'
  {
    var zeros := match layout
      case DateMidnight => "000000"
      case DateHourMinute => "00"
      case _ => "";
    match layout
    case DateMidnight => MidnightCase(caps);
    case SixFields => SixFieldsShape(caps);
    case DateTime => DateTimeCase(caps);
    case PixelDateTime => PixelCase(caps);
    case JoinedDateTime => JoinedShape(caps);
    case DateHourMinute => HourMinuteCase(caps);
    ZeroTail(Render(layout, caps), Concat(caps), zeros);
  }

  /** A date text whose fields are `copied` and then zeros. */
  lemma ZeroTail(t: string, copied: string, zeros: string)
    requires |t| == 19 && Fields(t) == copied + zeros
    requires forall k :: 0 <= k < |zeros| ==> zeros[k] == '0'
    ensures Fields(t)[..|copied|] == copied
    ensures forall m :: |copied| <= m < 14 ==> Fields(t)[m] == '0'
  {
    assert forall m :: |copied| <= m < 14 ==> Fields(t)[m] == zeros[m - |copied|];
  }

  lemma MidnightCase(caps: seq<string>)
    requires CapturesFit(DateMidnight, caps)
    ensures ExifShaped(Render(DateMidnight, caps))
    ensures Fields(Render(DateMidnight, caps)) == Concat(caps) + "000000"
  {
    assert caps == [caps[0]];
    DateMidnightShape(caps[0]);
    Concat1(caps);
  }

  lemma DateTimeCase(caps: seq<string>)
    requires CapturesFit(DateTime, caps)
    ensures ExifShaped(Render(DateTime, caps)) && Fields(Render(DateTime, caps)) == Concat(caps) + ""
  {
    StampShape(caps[0], caps[1]);
    Concat2(caps);
  }

  lemma PixelCase(caps: seq<string>)
    requires CapturesFit(PixelDateTime, caps)
    ensures ExifShaped(Render(PixelDateTime, caps)) && Fields(Render(PixelDateTime, caps)) == Concat(caps) + ""
  {
    assert Sub(caps[1], 0, 6) == caps[1];
    StampShape(caps[0], caps[1]);
    Concat2(caps);
  }

  lemma HourMinuteCase(caps: seq<string>)
    requires CapturesFit(DateHourMinute, caps)
    ensures ExifShaped(Render(DateHourMinute, caps))
    ensures Fields(Render(DateHourMinute, caps)) == Concat(caps) + "00"
  {
    assert caps == [caps[0], caps[1]];
    HourMinuteShape(caps[0], caps[1]);
    Concat2(caps);
  }

  lemma StampShape(date: string, time: string)
    requires |date| == 8 && |time| == 6 && AllDigits(date) && AllDigits(time)
    ensures ExifShaped(Stamp(date, time)) && Fields(Stamp(date, time)) == date + time
  {
    ExifTextShape(date[0..4], date[4..6], date[6..8], time[0..2], time[2..4], time[4..6]);
    assert date + time == date[0..4] + date[4..6] + date[6..8] + time[0..2] + time[2..4] + time[4..6];
  }

  lemma DateMidnightShape(date: string)
    requires |date| == 8 && AllDigits(date)
    ensures ExifShaped(Render(DateMidnight, [date])) && Fields(Render(DateMidnight, [date])) == date + "000000"
  {
    StampShape(date, "000000");
  }

  lemma HourMinuteShape(date: string, time: string)
    requires |date| == 8 && |time| == 4 && AllDigits(date) && AllDigits(time)
    ensures ExifShaped(Render(DateHourMinute, [date, time]))
    ensures Fields(Render(DateHourMinute, [date, time])) == date + time + "00"
  {
    assert Sub(time, 0, 4) + "00" == time + "00";
    StampShape(date, time + "00");
  }

  lemma SixFieldsShape(caps: seq<string>)
    requires CapturesFit(SixFields, caps)
    ensures ExifShaped(Render(SixFields, caps)) && Fields(Render(SixFields, caps)) == Concat(caps) + ""
  {
    var c0, c1, c2, c3, c4, c5 := caps[0], caps[1], caps[2], caps[3], caps[4], caps[5];
    assert AllDigits(c0 + c1 + c2 + c3 + c4 + c5) by {
      assert AllDigits(c0) && AllDigits(c1) && AllDigits(c2) && AllDigits(c3) && AllDigits(c4) && AllDigits(c5);
    }
    ExifTextShape(c0, c1, c2, c3, c4, c5);
    Concat2(caps[4..]);
    Concat2(caps[2..4]);
    Concat2(caps[..2]);
    ConcatAppend(caps[..2], caps[2..4]);
    ConcatAppend(caps[..4], caps[4..]);
    assert caps[..2] + caps[2..4] == caps[..4] && caps[..4] + caps[4..] == caps;
  }

  lemma JoinedShape(caps: seq<string>)
    requires CapturesFit(JoinedDateTime, caps)
    ensures ExifShaped(Render(JoinedDateTime, caps)) && Fields(Render(JoinedDateTime, caps)) == Concat(caps) + ""
  {
    var date := caps[0] + caps[1] + caps[2];
    assert AllDigits(date) by { assert AllDigits(caps[0]) && AllDigits(caps[1]) && AllDigits(caps[2]); }
    assert AllDigits(caps[3]);
    StampShape(date, caps[3]);
    Concat2(caps[..2]);
    Concat2(caps[2..]);
    ConcatAppend(caps[..2], caps[2..]);
    assert caps[..2] + caps[2..] == caps;
  }

  lemma Concat1(parts: seq<string>)
    requires |parts| == 1
    ensures Concat(parts) == parts[0]
  {
    assert parts[1..] == [];
    assert parts[0] + "" == parts[0];
  }

  lemma Concat2(parts: seq<string>)
    requires |parts| == 2
    ensures Concat(parts) == parts[0] + parts[1]
  {
    Concat1(parts[1..]);
  }

  lemma {:induction false} ConcatAppend(a: seq<string>, b: seq<string>)
    ensures Concat(a + b) == Concat(a) + Concat(b)
  {
    if a == [] {
      assert a + b == b;
    } else {
      assert (a + b)[1..] == a[1..] + b;
      ConcatAppend(a[1..], b);
    }
  }

  /** Group `g` is exactly one piece `\d{n}`. */
  predicate DigitGroup(p: Pattern, g: Group, n: nat) {
    g.from < |p| && g.to == g.from + 1 && p[g.from] == Digits(n)
  }

  /** A rule whose every capture is one fixed-width ASCII digit piece, as its
      layout expects. */
  predicate DigitCaptureRule(r: Rule) {
    && r.layout != DayMonthYear
    && |r.groups| == |LayoutWidths(r.layout)|
    && OrderedGroups(r.groups, |r.pattern|)
    && forall g :: 0 <= g < |r.groups| ==> DigitGroup(r.pattern, r.groups[g], LayoutWidths(r.layout)[g])
  }

  /** The rules of lines 7 to 16 capture only fixed-width ASCII digit runs. */
  lemma AsciiRulesCaptureDigits(k: nat)
    requires k < AsciiRuleCount
    ensures DigitCaptureRule(Rules[k])
  {
    assert Rules[k] == AsciiRules[k];
    AsciiRuleDigits(k);
  }

  lemma AsciiRuleDigits(k: nat)
    requires k < |AsciiRules|
    ensures DigitCaptureRule(AsciiRules[k])
  {
    var r := AsciiRules[k];
    if k == 0 {
      assert DigitCaptureRule(Wa1);
    } else if k == 7 {
      Dt1Digits();
    } else if k == 4 || k == 6 || k == 8 {
      PairRuleDigits(r);
    } else {
      SixFieldRuleDigits(r);
    }
  }

  lemma Dt1Digits()
    ensures DigitCaptureRule(Dt1)
  {
    var r := Dt1;
    forall g | 0 <= g < 4 ensures DigitGroup(r.pattern, r.groups[g], LayoutWidths(r.layout)[g]) {
      assert r.groups[g] == Group(2 * g, 2 * g + 1);
    }
  }

  lemma SixFieldRuleDigits(r: Rule)
    requires r.layout == SixFields && r.groups == SixGroups && |r.pattern| == 12
    requires r.pattern[1] == Digits(4)
    requires forall j :: 1 < j < 12 && j % 2 == 1 ==> r.pattern[j] == Digits(2)
    ensures DigitCaptureRule(r)
  {
    forall g | 0 <= g < 6 ensures DigitGroup(r.pattern, r.groups[g], LayoutWidths(r.layout)[g]) {
      assert r.groups[g] == Group(2 * g + 1, 2 * g + 2);
    }
  }

  lemma PairRuleDigits(r: Rule)
    requires r.layout == DateTime || r.layout == DateHourMinute
    requires r.groups == PairGroups && |r.pattern| == 4
    requires r.pattern[1] == Digits(8) && r.pattern[3] == Digits(LayoutWidths(r.layout)[1])
    ensures DigitCaptureRule(r)
  {
  }

  lemma DigitCaptures(r: Rule, s: string, i: nat, e: seq<nat>)
    requires DigitCaptureRule(r) && MatchesWith(r.pattern, s, i, e)
    ensures CapturesFit(r.layout, Captures(r.groups, s, i, e))
  {
    var caps := Captures(r.groups, s, i, e);
    forall g | 0 <= g < |caps|
      ensures |caps[g]| == LayoutWidths(r.layout)[g] && AllDigits(caps[g])
    {
      assert DigitGroup(r.pattern, r.groups[g], LayoutWidths(r.layout)[g]);
      PieceAt(r.pattern, s, i, e, r.groups[g].from);
    }
  }

  /** For a match of one of the rules on lines 7 to 16, the output is a
      well-formed 19-character date text whose digits are copied, in order,
      from the name, apart from the zeros the layout fills in. */
  lemma AsciiRuleOutput(name: string)
    requires FirstMatchingRule(Rules, name).Some?
    requires FirstMatchingRule(Rules, name).value < AsciiRuleCount
    ensures ExtractDateFromFilename(name).Some?
    ensures var out := ExtractDateFromFilename(name).value;
      var n := CopiedDigits(Rules[FirstMatchingRule(Rules, name).value].layout);
      && ExifShaped(out)
      && IsSubsequence(Fields(out)[..n], name)
      && forall m :: n <= m < 14 ==> Fields(out)[m] == '0'
  {
    var k := FirstMatchingRule(Rules, name).value;
    var r := Rules[k];
    CascadeIsFirstMatch(Rules, name);
    var (i, e) := Find(r.pattern, name).value;
    MatchAtSound(r.pattern, name, i);
    AsciiRulesCaptureDigits(k);
    DigitCaptures(r, name, i, e);
    var caps := Captures(r.groups, name, i, e);
    RenderShape(r.layout, caps);
    CapturesInOrder(r.pattern, r.groups, name, i, e);
    assert Embeds(CaptureIndices(r.groups, i, e), Fields(Render(r.layout, caps))[..CopiedDigits(r.layout)], name);
  }

  // ------------------------------------------------------- the WhatsApp rule

  /** `IMG-`, eight ASCII digits, `-WA` and a digit start at position `i`. */
  predicate NumberedWhatsAppAt(name: string, i: nat) {
    && i + 16 <= |name|
    && name[i..i + 4] == "IMG-"
    && AllDigits(name[i + 4..i + 12])
    && name[i + 12..i + 15] == "-WA"
    && IsAsciiDigit(name[i + 15])
  }

  /** The `wa1` pattern matches at `i` exactly when the name reads
      `IMG-dddddddd-WAd` there. */
  lemma WhatsAppPatternAt(name: string, i: nat)
    requires i <= |name|
    ensures MatchAt(Wa1.pattern, name, i).Some? <==> NumberedWhatsAppAt(name, i)
  {
    if NumberedWhatsAppAt(name, i) {
      WhatsAppSplit(name, i);
      MatchAtComplete(Wa1.pattern, name, i, [i + 4, i + 12, i + 15, i + 16]);
    }
    if MatchAt(Wa1.pattern, name, i).Some? {
      WhatsAppMatchReads(name, i);
    }
  }

  lemma WhatsAppSplit(name: string, i: nat)
    requires NumberedWhatsAppAt(name, i)
    ensures MatchesWith(Wa1.pattern, name, i, [i + 4, i + 12, i + 15, i + 16])
  {
    var p := Wa1.pattern;
    assert name[i + 15..i + 16] == [name[i + 15]];
    assert p[0] == Lit("IMG-") && p[1] == Digits(8) && p[2] == Lit("-WA") && p[3] == DigitsFrom(1);
  }

  lemma WhatsAppMatchReads(name: string, i: nat)
    requires i <= |name| && MatchAt(Wa1.pattern, name, i).Some?
    ensures NumberedWhatsAppAt(name, i)
  {
    var p := Wa1.pattern;
    var e := MatchAt(p, name, i).value;
    MatchAtSound(p, name, i);
    PieceAt(p, name, i, e, 0);
    PieceAt(p, name, i, e, 1);
    PieceAt(p, name, i, e, 2);
    PieceAt(p, name, i, e, 3);
    assert name[e[2]..e[3]][0] == name[i + 15];
  }

  /** A name carrying `IMG-dddddddd-WAd` gets those eight digits as its date at
      midnight, whatever the later rules would say. */
  lemma NumberedWhatsAppWins(name: string, i: nat)
    requires NumberedWhatsAppAt(name, i)
    requires forall j :: 0 <= j < i ==> !NumberedWhatsAppAt(name, j)
    ensures ExtractDateFromFilename(name) ==
      Some(name[i + 4..i + 8] + ":" + name[i + 8..i + 10] + ":" + name[i + 10..i + 12] + " 00:00:00")
  {
    WhatsAppLeftmost(name, i);
    var e := Find(Wa1.pattern, name).value.1;
    WhatsAppCapture(name, i, e);
    WhatsAppFirst(name);
    RuleWins(name, 0);
    MidnightText(name, i);
  }

  lemma WhatsAppLeftmost(name: string, i: nat)
    requires NumberedWhatsAppAt(name, i)
    requires forall j :: 0 <= j < i ==> !NumberedWhatsAppAt(name, j)
    ensures Find(Wa1.pattern, name).Some? && Find(Wa1.pattern, name).value.0 == i
  {
    var p := Wa1.pattern;
    WhatsAppPatternAt(name, i);
    forall j | 0 <= j < i ensures MatchAt(p, name, j).None? {
      WhatsAppPatternAt(name, j);
    }
    FindLeftmost(p, name, i);
  }

  lemma WhatsAppFirst(name: string)
    requires RuleMatches(Wa1, name)
    ensures FirstMatchingRule(Rules, name) == Some(0)
  {
    assert Rules[0] == Wa1;
  }

  lemma WhatsAppCapture(name: string, i: nat, e: seq<nat>)
    requires i + 12 <= |name| && Find(Wa1.pattern, name) == Some((i, e)) && name[i..i + 4] == "IMG-"
    ensures RuleOutput(Wa1, name) == Render(DateMidnight, [name[i + 4..i + 12]])
  {
    WhatsAppEnds(name, i, e);
    assert Captures(Wa1.groups, name, i, e) == [name[i + 4..i + 12]];
  }

  lemma WhatsAppEnds(name: string, i: nat, e: seq<nat>)
    requires i + 12 <= |name| && Find(Wa1.pattern, name) == Some((i, e))
    ensures |e| == 4 && e[0] == i + 4 && e[1] == i + 12
  {
    var p := Wa1.pattern;
    MatchAtSound(p, name, i);
    PieceAt(p, name, i, e, 0);
    PieceAt(p, name, i, e, 1);
  }

  lemma MidnightText(name: string, i: nat)
    requires i + 12 <= |name|
    ensures Render(DateMidnight, [name[i + 4..i + 12]]) ==
      name[i + 4..i + 8] + ":" + name[i + 8..i + 10] + ":" + name[i + 10..i + 12] + " 00:00:00"
  {
    var date := name[i + 4..i + 12];
    assert Sub(date, 0, 4) == name[i + 4..i + 8];
    assert date[4..6] == name[i + 8..i + 10] by {
      assert forall k :: 0 <= k < 2 ==> date[4..6][k] == date[4 + k] == name[i + 8 + k];
    }
    assert Sub(date, 6, 8) == name[i + 10..i + 12];
    assert Sub("000000", 0, 2) == "00" && Sub("000000", 2, 4) == "00" && Sub("000000", 4, 6) == "00";
  }

  /** The rules the lemmas below single out, at their places in the cascade. */
  lemma LeadingRules()
    ensures |Rules| == 24 && Rules[0] == Wa1 && Rules[1] == Wa2 && Rules[2] == Sc1
    ensures Rules[8] == Custom1 && Rules[23] == San1
  {
  }

  lemma MiddleRules()
    ensures |Rules| == 24 && Rules[3] == Sc2 && Rules[4] == Sc3 && Rules[5] == Tg1
    ensures Rules[6] == Mi1 && Rules[7] == Dt1
  {
  }

  /** The output of the first matching rule is the result. */
  lemma RuleWins(name: string, k: nat)
    requires FirstMatchingRule(Rules, name) == Some(k)
    ensures ExtractDateFromFilename(name) == Some(RuleOutput(Rules[k], name))
  {
    CascadeIsFirstMatch(Rules, name);
  }

  // ------------------------------------------------------ the custom rule

  /** The `[._-]YYYYMMDD-HHMM` rule never supplies seconds: they are `00`. */
  lemma DateHourMinuteSecondsZero(name: string)
    requires FirstMatchingRule(Rules, name) == Some(8)
    ensures ExtractDateFromFilename(name).Some?
    ensures EndsWith(ExtractDateFromFilename(name).value, ":00")
  {
    RuleWins(name, 8);
    LeadingRules();
    Custom1SecondsZero(name);
  }

  lemma Custom1SecondsZero(name: string)
    requires RuleMatches(Custom1, name)
    ensures EndsWith(RuleOutput(Custom1, name), ":00")
  {
    var (i, e) := Find(Custom1.pattern, name).value;
    MatchAtSound(Custom1.pattern, name, i);
    PairRuleDigits(Custom1);
    DigitCaptures(Custom1, name, i, e);
    HourMinuteEnds(Captures(Custom1.groups, name, i, e));
  }

  lemma HourMinuteEnds(caps: seq<string>)
    requires CapturesFit(DateHourMinute, caps)
    ensures EndsWith(Render(DateHourMinute, caps), ":00")
  {
    var date, time := caps[0], Sub(caps[1], 0, 4) + "00";
    assert Sub(time, 4, 6) == "00";
    ExifTextEnds(Sub(date, 0, 4), Sub(date, 4, 6), Sub(date, 6, 8), Sub(time, 0, 2), Sub(time, 2, 4), "00");
  }

  lemma ExifTextEnds(year: string, month: string, day: string, hour: string, minute: string, second: string)
    ensures EndsWith(ExifText(year, month, day, hour, minute, second), ":" + second)
  {
    var front := year + ":" + month + ":" + day + " " + hour + ":" + minute;
    assert ExifText(year, month, day, hour, minute, second) == front + (":" + second);
  }


  // --------------------------------------------------- the backslash rules

  /** Each rule of lines 18 to 36 contains a literal backslash piece. */
  lemma BackslashRuleDemandsBackslash(k: nat)
    requires AsciiRuleCount <= k < |Rules|
    ensures exists j :: 0 <= j < |Rules[k].pattern| && Demands(Rules[k].pattern[j], '\\')
  {
    var j := if k in {15, 17, 18, 19, 20, 21, 22} then 1 else 0;
    assert Demands(Rules[k].pattern[j], '\\');
  }

  /** Rules `samsung1` to `san1` never match a name without a backslash. */
  lemma BackslashRulesNeedBackslash(name: string, k: nat)
    requires AsciiRuleCount <= k < |Rules| && RuleMatches(Rules[k], name)
    ensures '\\' in name
  {
    BackslashRuleDemandsBackslash(k);
    var j :| 0 <= j < |Rules[k].pattern| && Demands(Rules[k].pattern[j], '\\');
    DemandedCharPresent(Rules[k].pattern, name, j, '\\');
  }

  /** For a name without a backslash only the nine rules of lines 7 to 16 decide. */
  lemma NoBackslashOnlyAsciiRules(name: string)
    requires '\\' !in name
    ensures ExtractDateFromFilename(name) == Cascade(Rules[..AsciiRuleCount], name)
  {
    forall k | AsciiRuleCount <= k < |Rules| ensures !RuleMatches(Rules[k], name) {
      if RuleMatches(Rules[k], name) {
        BackslashRulesNeedBackslash(name, k);
      }
    }
    CascadeIgnoresSilentTail(Rules, AsciiRuleCount, name);
  }

  // ------------------------------------------------------ the month rule

  /** Zero-padding to two places is the fixed two-digit text. */
  lemma PaddedTwo(n: nat)
    requires n < 100
    ensures Padded(n, 2) == Two(n)
  {
    if n >= 10 {
      assert Decimal(n / 10) == [DigitChar(n / 10)];
    }
  }

  /** With day and year captures that do not parse, the month rule renders
      day 1 of the month in 1970 (`unwrap_or(1)`, `unwrap_or(1970)`). */
  lemma DayMonthYearDefaults(caps: seq<string>)
    requires |caps| == 3 && ParseU32(caps[0]).None? && ParseU32(caps[2]).None?
    ensures Render(DayMonthYear, caps) == "1970:" + Two(MonthNumber(caps[1])) + ":01 00:00:00"
  {
    DayMonthYearParts(caps);
    DefaultDateText(MonthNumber(caps[1]));
  }

  lemma DayMonthYearParts(caps: seq<string>)
    requires |caps| == 3 && ParseU32(caps[0]).None? && ParseU32(caps[2]).None?
    ensures Render(DayMonthYear, caps) ==
      Padded(1970, 4) + ":" + Padded(MonthNumber(caps[1]), 2) + ":" + Padded(1, 2) + " 00:00:00"
  {
  }

  lemma DefaultDateText(m: nat)
    requires 1 <= m <= 12
    ensures Padded(1970, 4) + ":" + Padded(m, 2) + ":" + Padded(1, 2) + " 00:00:00" == "1970:" + Two(m) + ":01 00:00:00"
  {
    PaddedTwo(m);
    PaddedDefaults();
  }

  lemma PaddedDefaults()
    ensures Padded(1970, 4) == "1970" && Padded(1, 2) == "01"
  {
    assert Decimal(1) == "1";
    assert Decimal(19) == "19";
    assert Decimal(197) == "197";
    assert Decimal(1970) == "1970";
  }

  /** When the month rule decides, the captured word is one of `Jan`..`Dec`
      and the day and year captures, which start with a backslash, never
      parse: the result is the first of that month in 1970. */
  lemma MonthRuleOutput(name: string)
    requires FirstMatchingRule(Rules, name) == Some(|Rules| - 1)
    ensures var (i, e) := Find(San1.pattern, name).value;
      var word := Captures(San1.groups, name, i, e)[1];
      && word in MonthAbbreviations
      && ExtractDateFromFilename(name) == Some("1970:" + Two(MonthNumber(word)) + ":01 00:00:00")
  {
    RuleWins(name, |Rules| - 1);
    LeadingRules();
    var (i, e) := Find(San1.pattern, name).value;
    MonthRuleCaptures(name, i, e);
    DayMonthYearDefaults(Captures(San1.groups, name, i, e));
  }

  lemma MonthRuleCaptures(name: string, i: nat, e: seq<nat>)
    requires Find(San1.pattern, name) == Some((i, e))
    ensures var caps := Captures(San1.groups, name, i, e);
      |caps| == 3 && caps[1] in MonthAbbreviations && ParseU32(caps[0]).None? && ParseU32(caps[2]).None?
  {
    var p := San1.pattern;
    MatchAtSound(p, name, i);
    BackslashGroup(p, name, i, e, San1.groups[0]);
    BackslashGroup(p, name, i, e, San1.groups[2]);
    GroupSpan(p, name, i, e, San1.groups[1]);
    PieceAt(p, name, i, e, 3);
  }

  /** A group opened by a backslash piece captures a text starting with a
      backslash. */
  lemma BackslashGroup(p: Pattern, s: string, i: nat, e: seq<nat>, g: Group)
    requires MatchesWith(p, s, i, e) && g.from < g.to <= |p| && p[g.from] == Backslash
    ensures |GroupText(s, i, e, g)| > 0 && GroupText(s, i, e, g)[0] == '\\'
  {
    GroupSpan(p, s, i, e, g);
    PieceAt(p, s, i, e, g.from);
    StartMonotone(p, s, i, e, g.from + 1, g.to);
    var lo := Start(i, e, g.from);
    assert s[lo..e[g.from]] == "\\";
    assert Start(i, e, g.from + 1) == e[g.from];
    assert GroupText(s, i, e, g)[0] == s[lo..e[g.from]][0];
  }

  // ------------------------------------------------------------- examples

  /** `IMG-20220101-WA0001.jpg` (and any name starting the same way) is
      dated by `wa1` to midnight of 1 January 2022. */
  lemma WhatsAppExample(name: string)
    requires StartsWith(name, "IMG-20220101-WA0001")
    ensures ExtractDateFromFilename(name) == Some("2022:01:01 00:00:00")
  {
    WhatsAppExampleShape(name);
    WhatsAppExampleDate(name);
    NumberedWhatsAppWins(name, 0);
  }

  lemma WhatsAppExampleShape(name: string)
    requires StartsWith(name, "IMG-20220101-WA0001")
    ensures NumberedWhatsAppAt(name, 0)
  {
    var w := name[..19];
    assert w == "IMG-20220101-WA0001";
    assert name[0..4] == w[0..4] == "IMG-";
    assert name[4..12] == w[4..12] == "20220101";
    assert name[12..15] == w[12..15] == "-WA";
    assert name[15] == w[15];
  }

  lemma WhatsAppExampleDate(name: string)
    requires StartsWith(name, "IMG-20220101-WA0001")
    ensures name[4..8] + ":" + name[8..10] + ":" + name[10..12] + " 00:00:00" == "2022:01:01 00:00:00"
  {
    var w := name[..19];
    assert w == "IMG-20220101-WA0001";
    assert name[4..8] == w[4..8] == "2022" && name[8..10] == w[8..10] == "01" && name[10..12] == w[10..12] == "01";
  }

  /** The name `Screenshot_2023-01-01-12-00-00.png`, given as its stem and
      its extension. */
  predicate IsScreenshotExample(name: string) {
    |name| == 34 && name[..30] == "Screenshot_2023-01-01-12-00-00" && name[30..] == ".png"
  }

  /** Piece ends of the `sc1` match on the example name. */
  const ScreenshotEnds: seq<nat> := [11, 15, 16, 18, 19, 21, 22, 24, 25, 27, 28, 30]

  /** `Screenshot_2023-01-01-12-00-00.png` is dated by `sc1` to
      `2023:01:01 12:00:00`. */
  lemma ScreenshotExample(name: string)
    requires IsScreenshotExample(name)
    ensures ExtractDateFromFilename(name) == Some("2023:01:01 12:00:00")
  {
    ScreenshotSkipsWhatsApp(name);
    ScreenshotThirdRule(name);
    FirstMatchingIs(Rules, name, 2);
    RuleWins(name, 2);
  }


  lemma ScreenshotSkipsWhatsApp(name: string)
    requires IsScreenshotExample(name)
    ensures forall j :: 0 <= j < 2 ==> !RuleMatches(Rules[j], name)
  {
    ScreenshotLetters(name);
    NoWhatsAppRule(name);
    LeadingRules();
  }

  lemma ScreenshotLetters(name: string)
    requires IsScreenshotExample(name)
    ensures 'I' !in name && 'W' !in name
  {
    var stem, ext := name[..30], name[30..];
    assert 'I' !in stem && 'W' !in stem;
    assert 'I' !in ext && 'W' !in ext;
    assert name == stem + ext;
  }

  /** Both WhatsApp rules need a letter (`I`, `W`) that the name lacks. */
  lemma NoWhatsAppRule(name: string)
    requires 'I' !in name && 'W' !in name
    ensures !RuleMatches(Wa1, name) && !RuleMatches(Wa2, name)
  {
    if RuleMatches(Wa1, name) {
      DemandedCharPresent(Wa1.pattern, name, 0, 'I');
    }
    if RuleMatches(Wa2, name) {
      DemandedCharPresent(Wa2.pattern, name, 0, 'W');
    }
  }

  lemma ScreenshotThirdRule(name: string)
    requires IsScreenshotExample(name)
    ensures RuleMatches(Rules[2], name) && RuleOutput(Rules[2], name) == "2023:01:01 12:00:00"
  {
    ScreenshotSc1Output(name);
    LeadingRules();
  }

  lemma ScreenshotSc1Output(name: string)
    requires IsScreenshotExample(name)
    ensures RuleMatches(Sc1, name) && RuleOutput(Sc1, name) == "2023:01:01 12:00:00"
  {
    ScreenshotFind(name);
    ScreenshotFields(name);
    ScreenshotRender(name);
    ScreenshotText();
  }

  lemma ScreenshotText()
    ensures ExifText("2023", "01", "01", "12", "00", "00") == "2023:01:01 12:00:00"
  {
  }

  /** `sc1` consists of fixed-width pieces and matches the example at its start. */
  lemma ScreenshotFind(name: string)
    requires IsScreenshotExample(name)
    ensures Find(Sc1.pattern, name) == Some((0, ScreenshotEnds))
  {
    ScreenshotSplit(name);
    Sc1FixedWidth();
    FixedMatchAtStart(Sc1.pattern, name, ScreenshotEnds);
  }

  lemma Sc1FixedWidth()
    ensures forall j :: 0 <= j < |Sc1.pattern| ==> PieceWidth(Sc1.pattern[j]).Some?
  {
  }

  lemma ScreenshotSplit(name: string)
    requires IsScreenshotExample(name)
    ensures MatchesWith(Sc1.pattern, name, 0, ScreenshotEnds)
  {
    var p, e := Sc1.pattern, ScreenshotEnds;
    ScreenshotFields(name);
    forall j | 0 <= j < 12 ensures Start(0, e, j) <= e[j] <= |name| && PieceMatches(p[j], name[Start(0, e, j)..e[j]]) {
      if j == 0 { ScreenshotPrefix(name); }
      else if j % 2 == 0 { ScreenshotDashes(name); }
    }
  }

  lemma ScreenshotPrefix(name: string)
    requires IsScreenshotExample(name)
    ensures name[0..11] == "Screenshot_"
  {
    var w := name[..30];
    assert name[0..11] == w[0..11];
  }

  lemma ScreenshotDashes(name: string)
    requires IsScreenshotExample(name)
    ensures name[15..16] == name[18..19] == name[21..22] == name[24..25] == name[27..28] == "-"
  {
    var w := name[..30];
    assert name[15..16] == w[15..16] && name[18..19] == w[18..19] && name[21..22] == w[21..22];
    assert name[24..25] == w[24..25] && name[27..28] == w[27..28];
  }

  lemma ScreenshotFields(name: string)
    requires IsScreenshotExample(name)
    ensures name[11..15] == "2023" && name[16..18] == "01" && name[19..21] == "01"
    ensures name[22..24] == "12" && name[25..27] == "00" && name[28..30] == "00"
  {
    var w := name[..30];
    assert name[11..15] == w[11..15] && name[16..18] == w[16..18] && name[19..21] == w[19..21];
    assert name[22..24] == w[22..24] && name[25..27] == w[25..27] && name[28..30] == w[28..30];
  }

  lemma ScreenshotRender(name: string)
    requires Find(Sc1.pattern, name) == Some((0, ScreenshotEnds)) && |name| >= 30
    ensures RuleOutput(Sc1, name) == ExifText(name[11..15], name[16..18], name[19..21], name[22..24], name[25..27], name[28..30])
  {
    ScreenshotCaptures(name);
  }

  lemma ScreenshotCaptures(name: string)
    requires |name| >= 30
    ensures Captures(SixGroups, name, 0, ScreenshotEnds) ==
      [name[11..15], name[16..18], name[19..21], name[22..24], name[25..27], name[28..30]]
  {
    var caps := Captures(SixGroups, name, 0, ScreenshotEnds);
    var want := [name[11..15], name[16..18], name[19..21], name[22..24], name[25..27], name[28..30]];
    forall g | 0 <= g < 6 ensures caps[g] == want[g] {
      assert SixGroups[g] == Group(2 * g + 1, 2 * g + 2);
    }
  }
}
