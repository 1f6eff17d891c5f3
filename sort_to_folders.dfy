/** `sort_files_to_folders` (src/sort_to_folders.rs): every media file of the
    input folder is copied into `Media Files/<category>` of the output folder,
    dated categories with `<year>/<month name>` below them, one report list
    per category is kept, and the files whose date could not be guessed are
    moved into `Media Files/Unknown Time/Failed Filename Guess`.

    What exiftool prints for a file becomes its lines of output, given per
    file; the file's size is given with them. The filesystem is the set of
    existing files, as in the cleaning. */
module SortToFolders {
  import opened Text
  import opened Paths
  import opened Json
  import opened CivilTime
  import MetadataExtraction
  import MediaCleaning

  // ------------------------------------------------- exiftool's output

  /** The four tags read from exiftool's output. */
  datatype Field = DateField | MimeField | SizeField | TypeField

  /** The tag a line of output reports: the first of "Date/Time Original",
      "MIME Type", "Image Size", "File Type" that the line contains. */
  function LineField(line: string): (r: Option<Field>)
    ensures r == Some(DateField) <==> Contains(line, "Date/Time Original")
  {
    if Contains(line, "Date/Time Original") then Some(DateField)
    else if Contains(line, "MIME Type") then Some(MimeField)
    else if Contains(line, "Image Size") then Some(SizeField)
    else if Contains(line, "File Type") then Some(TypeField)
    else None
  }

  /** The text after the first ':' ("" when there is none); this is
      `split(':').skip(1)` joined again with ':'. */
  function AfterColon(line: string): (r: string)
    ensures ':' !in line ==> r == ""
    ensures ':' in line ==> exists i :: 0 <= i < |line| && line[i] == ':' && ':' !in line[..i] && r == line[i + 1..]
    decreases |line|
  {
    if line == [] then ""
    else if line[0] == ':' then
      assert ':' !in line[..0];
      line[1..]
    else
      var r := AfterColon(line[1..]);
      if ':' in line[1..] then
        var i :| 0 <= i < |line[1..]| && line[1..][i] == ':' && ':' !in line[1..][..i] && r == line[1..][i + 1..];
        assert line[i + 1] == ':' && line[i + 2..] == line[1..][i + 1..];
        assert line[..i + 1] == [line[0]] + line[1..][..i];
        r
      else
        assert ':' !in line by {
          assert line == [line[0]] + line[1..];
        }
        r
  }

  /** ASCII whitespace: space, tab, line feed, vertical tab, form feed,
      carriage return. */
  predicate IsSpace(c: char) {
    c == ' ' || '\t' <= c <= '\r'
  }

  /** The number of leading whitespace characters. */
  function LeadingSpaces(s: string): (n: nat)
    ensures n <= |s| && (n < |s| ==> !IsSpace(s[n]))
    ensures forall k :: 0 <= k < n ==> IsSpace(s[k])
    decreases |s|
  {
    if s != [] && IsSpace(s[0]) then
      var n := LeadingSpaces(s[1..]);
      assert forall k :: 1 <= k < n + 1 ==> s[k] == s[1..][k - 1];
      n + 1
    else 0
  }

  /** The number of trailing whitespace characters. */
  function TrailingSpaces(s: string): (n: nat)
    ensures n <= |s| && (n < |s| ==> !IsSpace(s[|s| - n - 1]))
    ensures forall k :: |s| - n <= k < |s| ==> IsSpace(s[k])
    decreases |s|
  {
    if s != [] && IsSpace(s[|s| - 1]) then
      var n := TrailingSpaces(s[..|s| - 1]);
      assert forall k :: |s| - n - 1 <= k < |s| - 1 ==> s[k] == s[..|s| - 1][k];
      n + 1
    else 0
  }

  /** `str::trim`: leading and trailing whitespace removed. */
  function Trim(s: string): (r: string)
    ensures r == [] || (!IsSpace(r[0]) && !IsSpace(r[|r| - 1]))
    ensures exists a, b :: Trimmed(s, a, b) && r == s[a..b]
  {
    var a := LeadingSpaces(s);
    var n := TrailingSpaces(s[a..]);
    TrimBounds(s, a, n);
    s[a..|s| - n]
  }

  /** Cutting the leading, then the trailing whitespace cuts only
      whitespace, and what is left starts and ends with something else. */
  lemma TrimBounds(s: string, a: nat, n: nat)
    requires a == LeadingSpaces(s) && n == TrailingSpaces(s[a..])
    ensures TrimmedTo(s, a, |s| - n)
  {
    LeadingSpacesStart(s, a);
    var t := s[a..];
    TrailingSpacesEnd(t, n);
    CutBounds(s, a, t, n);
  }

  /** `LeadingSpaces`' contract, for a text given by name. */
  lemma LeadingSpacesStart(s: string, a: nat)
    requires a == LeadingSpaces(s)
    ensures a <= |s| && (a < |s| ==> !IsSpace(s[a]))
    ensures forall k :: 0 <= k < a ==> IsSpace(s[k])
  {
  }

  /** `TrailingSpaces`' contract, for a text given by name. */
  lemma TrailingSpacesEnd(t: string, n: nat)
    requires n == TrailingSpaces(t)
    ensures n <= |t| && (n < |t| ==> !IsSpace(t[|t| - n - 1]))
    ensures forall j :: |t| - n <= j < |t| ==> IsSpace(t[j])
  {
  }

  lemma CutBounds(s: string, a: nat, t: string, n: nat)
    requires a <= |s| && t == s[a..] && n <= |t|
    requires forall k :: 0 <= k < a ==> IsSpace(s[k])
    requires a < |s| ==> !IsSpace(s[a])
    requires forall j :: |t| - n <= j < |t| ==> IsSpace(t[j])
    requires n < |t| ==> !IsSpace(t[|t| - n - 1])
    ensures TrimmedTo(s, a, |s| - n)
  {
    forall k | |s| - n <= k < |s|
      ensures IsSpace(s[k])
    {
      assert s[k] == t[k - a];
    }
    if a < |s| - n {
      assert s[|s| - n - 1] == t[|t| - n - 1];
    }
  }

  /** `s[a..b]` is `s` with only whitespace cut from either end. */
  predicate Trimmed(s: string, a: int, b: int) {
    && 0 <= a <= b <= |s|
    && (forall k :: 0 <= k < a ==> IsSpace(s[k]))
    && (forall k :: b <= k < |s| ==> IsSpace(s[k]))
  }

  /** `s[a..b]` is `s` trimmed: only whitespace is cut, and what is left
      starts and ends with something else. */
  predicate TrimmedTo(s: string, a: int, b: int) {
    Trimmed(s, a, b) && (a < b ==> !IsSpace(s[a]) && !IsSpace(s[b - 1]))
  }

  /** The value a line reports. */
  function LineValue(line: string): string {
    Trim(AfterColon(line))
  }

  /** The four values; each is "" until a line reports it. */
  datatype Probed = Probed(date: string, mime: string, imageSize: string, fileType: string)

  function Get(p: Probed, f: Field): string {
    match f
    case DateField => p.date
    case MimeField => p.mime
    case SizeField => p.imageSize
    case TypeField => p.fileType
  }

  function Set(p: Probed, f: Field, v: string): (r: Probed)
    ensures Get(r, f) == v
    ensures forall g :: g != f ==> Get(r, g) == Get(p, g)
  {
    match f
    case DateField => p.(date := v)
    case MimeField => p.(mime := v)
    case SizeField => p.(imageSize := v)
    case TypeField => p.(fileType := v)
  }

  /** The values after reading `lines` in order. */
  function ReadLines(lines: seq<string>): Probed {
    if lines == [] then Probed("", "", "", "")
    else
      var before := ReadLines(lines[..|lines| - 1]);
      var line := lines[|lines| - 1];
      match LineField(line)
      case Some(f) => Set(before, f, LineValue(line))
      case None => before
  }

  /** The last line reporting tag `f`, if any. */
  function LastReport(lines: seq<string>, f: Field): (r: Option<nat>)
    ensures r.Some? ==> r.value < |lines| && LineField(lines[r.value]) == Some(f)
    ensures r.Some? ==> forall j :: r.value < j < |lines| ==> LineField(lines[j]) != Some(f)
    ensures r.None? ==> forall j :: 0 <= j < |lines| ==> LineField(lines[j]) != Some(f)
    decreases |lines|
  {
    if lines == [] then None
    else if LineField(lines[|lines| - 1]) == Some(f) then Some(|lines| - 1)
    else
      var r := LastReport(lines[..|lines| - 1], f);
      assert forall j :: 0 <= j < |lines| - 1 ==> lines[..|lines| - 1][j] == lines[j];
      r
  }

  /** Each value is that of the last line reporting its tag, and "" when no
      line does. */
  lemma {:induction false} ReadLinesLast(lines: seq<string>, f: Field)
    ensures Get(ReadLines(lines), f) == match LastReport(lines, f) case Some(k) => LineValue(lines[k]) case None => ""
    decreases |lines|
  {
    if lines != [] {
      var init := lines[..|lines| - 1];
      ReadLinesLast(init, f);
      if LineField(lines[|lines| - 1]) != Some(f) {
        match LastReport(init, f)
        case Some(k) => assert init[k] == lines[k];
        case None =>
      }
    }
  }

  /** The loop over exiftool's lines of output. */
  method ReadExiftoolOutput(lines: seq<string>) returns (probed: Probed)
    ensures probed == ReadLines(lines)
  {
    probed := Probed("", "", "", "");
    for i := 0 to |lines|
      invariant probed == ReadLines(lines[..i])
    {
      assert lines[..i + 1][..i] == lines[..i];
      var line := lines[i];
      if Contains(line, "Date/Time Original") {
        probed := probed.(date := LineValue(line));
      } else if Contains(line, "MIME Type") {
        probed := probed.(mime := LineValue(line));
      } else if Contains(line, "Image Size") {
        probed := probed.(imageSize := LineValue(line));
      } else if Contains(line, "File Type") {
        probed := probed.(fileType := LineValue(line));
      }
    }
    assert lines[..|lines|] == lines;
  }

  // ------------------------------------------------------------- dates

  /** The sidecar tried when exiftool reports no date:
      `path.with_extension(format!("{}json", ext))` with the lower-cased
      extension and no dot before "json". */
  function FallbackSidecar(p: Path): (r: Path)
    requires p != []
  {
    WithExtension(p, LowerExtension(p) + "json")
  }

  /** For `IMG_1.JPG` the fallback sidecar is `IMG_1.jpgjson`, in the same
      folder. */
  lemma FallbackSidecarName(p: Path)
    requires p != [] && Extension(p).Some?
    ensures Parent(FallbackSidecar(p)) == Parent(p)
    ensures FileName(FallbackSidecar(p)) == Stem(p) + "." + (Lower(Extension(p).value) + "json")
  {
    assert LowerExtension(p) == Lower(Extension(p).value);
  }

  /** The fallback sidecar is never the Takeout sidecar `IMG_1.JPG.json`:
      its name is one character shorter. */
  lemma FallbackMissesTakeoutSidecar(p: Path)
    requires p != [] && Extension(p).Some?
    ensures FileName(FallbackSidecar(p)) != FileName(p) + ".json"
  {
    FallbackSidecarName(p);
    var e := Extension(p).value;
    assert |FileName(FallbackSidecar(p))| == |Stem(p)| + |e| + 5;
    assert |FileName(p)| == |Stem(p)| + |e| + 1;
  }

  /** The date read from the fallback sidecar, when it exists and parses. */
  function FallbackDate(p: Path, files: MetadataExtraction.Files): (r: Option<string>)
    requires p != []
    ensures r.Some? ==> FallbackSidecar(p) in files && files[FallbackSidecar(p)].Parsed?
  {
    var j := FallbackSidecar(p);
    if j in files && files[j].Parsed? then MetadataExtraction.TakenTime(files[j].value) else None
  }

  /** The date text used for sorting: exiftool's, else the fallback's, else "". */
  function DateText(reported: string, p: Path, files: MetadataExtraction.Files): (r: string)
    requires p != []
    ensures reported != "" ==> r == reported
    ensures reported == "" && FallbackDate(p, files).Some? ==> r == FallbackDate(p, files).value
    ensures r == "" <==> reported == "" && FallbackDate(p, files).None?
  {
    if reported != "" then reported
    else match FallbackDate(p, files)
      case Some(d) => d
      case None => ""
  }

  /** The six numeric fields of `YYYY:MM:DD HH:MM:SS` are digits. */
  predicate DigitFields(s: string)
    requires |s| == 19
  {
    AllDigits(s[0..4]) && AllDigits(s[5..7]) && AllDigits(s[8..10])
    && AllDigits(s[11..13]) && AllDigits(s[14..16]) && AllDigits(s[17..19])
  }

  /** `NaiveDateTime::parse_from_str(s, "%Y:%m:%d %H:%M:%S")` for the
      canonical layout: four-digit year, two-digit fields, a real calendar
      date, seconds up to 60 (a leap second). */
  function ParseExifDate(s: string): (r: Option<NaiveDateTime>)
    ensures r.Some? ==> Valid(r.value)
  {
    if |s| == 19 && s[4] == ':' && s[7] == ':' && s[10] == ' ' && s[13] == ':' && s[16] == ':' && DigitFields(s) then
      var t := NaiveDateTime(DigitsValue(s[0..4]), DigitsValue(s[5..7]), DigitsValue(s[8..10]),
                             DigitsValue(s[11..13]), DigitsValue(s[14..16]), DigitsValue(s[17..19]));
      if Valid(t) then Some(t) else None
    else None
  }

  /** The fields of formatted date text. */
  lemma ExifStringFields(t: NaiveDateTime)
    requires Valid(t)
    ensures var s := ExifString(t);
      && s[0..4] == Four(t.year) && s[5..7] == Two(t.month) && s[8..10] == Two(t.day)
      && s[11..13] == Two(t.hour) && s[14..16] == Two(t.minute) && s[17..19] == Two(t.second)
      && s[4] == ':' && s[7] == ':' && s[10] == ' ' && s[13] == ':' && s[16] == ':'
  {
  }

  /** Formatting a date and time, then parsing the text, gives it back. */
  lemma ParseExifString(t: NaiveDateTime)
    requires Valid(t)
    ensures ParseExifDate(ExifString(t)) == Some(t)
  {
    ExifStringFields(t);
  }

  /** Text that parses is exactly the formatting of what it parses to. */
  lemma ExifStringOfParse(s: string)
    requires ParseExifDate(s).Some?
    ensures ExifString(ParseExifDate(s).value) == s
  {
    var t := ParseExifDate(s).value;
    var e := ExifString(t);
    ExifStringFields(t);
    DigitsValueInjective(Four(t.year), s[0..4]);
    DigitsValueInjective(Two(t.month), s[5..7]);
    DigitsValueInjective(Two(t.day), s[8..10]);
    DigitsValueInjective(Two(t.hour), s[11..13]);
    DigitsValueInjective(Two(t.minute), s[14..16]);
    DigitsValueInjective(Two(t.second), s[17..19]);
    SameFields(e, s);
  }

  /** Two 19-character texts with the same fields and separators are equal. */
  lemma SameFields(e: string, s: string)
    requires |e| == 19 && |s| == 19
    requires e[0..4] == s[0..4] && e[5..7] == s[5..7] && e[8..10] == s[8..10]
    requires e[11..13] == s[11..13] && e[14..16] == s[14..16] && e[17..19] == s[17..19]
    requires e[4] == s[4] && e[7] == s[7] && e[10] == s[10] && e[13] == s[13] && e[16] == s[16]
    ensures e == s
  {
    forall k | 0 <= k < 19 ensures e[k] == s[k] {
      if k < 4 { assert e[k] == e[0..4][k]; assert s[k] == s[0..4][k]; }
      else if 4 < k < 7 { assert e[k] == e[5..7][k - 5]; assert s[k] == s[5..7][k - 5]; }
      else if 7 < k < 10 { assert e[k] == e[8..10][k - 8]; assert s[k] == s[8..10][k - 8]; }
      else if 10 < k < 13 { assert e[k] == e[11..13][k - 11]; assert s[k] == s[11..13][k - 11]; }
      else if 13 < k < 16 { assert e[k] == e[14..16][k - 14]; assert s[k] == s[14..16][k - 14]; }
      else if 16 < k { assert e[k] == e[17..19][k - 17]; assert s[k] == s[17..19][k - 17]; }
    }
  }

  /** The date text of a timestamp parses back to the timestamp's date and
      time. */
  lemma ParseExifFromTimestamp(ts: int)
    requires ExifFromTimestamp(ts).Some?
    ensures ParseExifDate(ExifFromTimestamp(ts).value) == FromTimestamp(ts)
  {
    ParseExifString(FromTimestamp(ts).value);
  }

  /** A date taken from the fallback sidecar always parses, so a file dated
      that way is always put under a year and a month. */
  lemma FallbackDateParses(p: Path, files: MetadataExtraction.Files)
    requires p != [] && FallbackDate(p, files).Some?
    ensures ParseExifDate(FallbackDate(p, files).value).Some?
  {
    var v := files[FallbackSidecar(p)].value;
    var ts :| AsStr(Index(Index(v, "photoTakenTime"), "timestamp")) == Some(ts)
      && ParseI64(ts).Some? && ExifFromTimestamp(ParseI64(ts).value) == MetadataExtraction.TakenTime(v);
    ParseExifFromTimestamp(ParseI64(ts).value);
  }

  // ------------------------------------------------------- month names

  const MonthNames: seq<string> := ["January", "February", "March", "April", "May", "June", "July",
                                    "August", "September", "October", "November", "December"]

  /** `month_name`: the English name of months 1 to 12, "Unknown" otherwise. */
  function MonthName(m: nat): (r: string)
    ensures 1 <= m <= 12 ==> r == MonthNames[m - 1]
    ensures !(1 <= m <= 12) ==> r == "Unknown"
  {
    match m
    case 1 => "January"
    case 2 => "February"
    case 3 => "March"
    case 4 => "April"
    case 5 => "May"
    case 6 => "June"
    case 7 => "July"
    case 8 => "August"
    case 9 => "September"
    case 10 => "October"
    case 11 => "November"
    case 12 => "December"
    case _ => "Unknown"
  }

  /** The month a name stands for (0 for anything else). */
  function MonthOfName(name: string): nat {
    if name == "January" then 1 else if name == "February" then 2 else if name == "March" then 3
    else if name == "April" then 4 else if name == "May" then 5 else if name == "June" then 6
    else if name == "July" then 7 else if name == "August" then 8 else if name == "September" then 9
    else if name == "October" then 10 else if name == "November" then 11 else if name == "December" then 12
    else 0
  }

  /** Month names are distinct (each gives its month back) and never
      "Unknown" for a real month. */
  lemma MonthNameInverse(m: nat)
    requires 1 <= m <= 12
    ensures MonthOfName(MonthName(m)) == m
    ensures MonthName(m) != "Unknown"
  {
  }

  /** The folders below a dated category: the year in decimal and the month
      name, when the date text parses; none otherwise. */
  function DateFolders(date: string): (r: seq<string>)
    ensures |r| == 0 || |r| == 2
  {
    match ParseExifDate(date)
    case Some(t) => [Decimal(t.year), MonthName(t.month)]
    case None => []
  }

  /** A date that parses gives its year and a real month name, which gives
      the month back; "Unknown" never appears. */
  lemma DateFoldersOfParsed(date: string)
    requires ParseExifDate(date).Some?
    ensures var t := ParseExifDate(date).value;
      && DateFolders(date) == [Decimal(t.year), MonthName(t.month)]
      && DigitsValue(DateFolders(date)[0]) == t.year
      && MonthOfName(DateFolders(date)[1]) == t.month
      && DateFolders(date)[1] != "Unknown"
  {
    var t := ParseExifDate(date).value;
    DecimalValue(t.year);
    MonthNameInverse(t.month);
  }

  // -------------------------------------------------------- categories

  /** Where a file is sorted, in order of precedence. */
  datatype Category =
    | WhatsAppFiles | ScreenshotFiles | MkvFiles | FailedGuess | UnknownTime | Videos | Photos

  /** The name test for WhatsApp files: the lower-cased name contains "wa"
      or "whatsapp" anywhere. */
  predicate NamesWhatsApp(name: string) {
    Contains(Lower(name), "wa") || Contains(Lower(name), "whatsapp")
  }

  /** The name test for screenshots: the lower-cased name contains
      "screenshot". */
  predicate NamesScreenshot(name: string) {
    Contains(Lower(name), "screenshot")
  }

  /** The video extensions of the category test: the media video formats
      except "mkv", which has its own folder. */
  const VideoExtensions: seq<string> := [
    "mp4", "mov", "avi", "webm", "3gp", "m4v", "mpg", "mpeg", "mts", "m2ts", "ts", "flv",
    "f4v", "wmv", "asf", "rm", "rmvb", "vob", "ogv", "mxf", "dv", "divx", "xvid"]

  /** A video: exiftool's MIME type starts with "video", or the extension is
      a video extension. */
  predicate IsVideo(mime: string, ext: string) {
    StartsWith(mime, "video") || Listed(ext, VideoExtensions)
  }

  /** The category of a file from its name, lower-cased extension, date
      text, MIME type, whether its filename date guess failed, and whether
      WhatsApp files and screenshots are kept apart. */
  function Classify(name: string, ext: string, date: string, mime: string, failedGuess: bool,
                    separate: bool): Category
  {
    if separate && NamesWhatsApp(name) then WhatsAppFiles
    else if separate && NamesScreenshot(name) then ScreenshotFiles
    else if ext == "mkv" then MkvFiles
    else if date == "" then (if failedGuess then FailedGuess else UnknownTime)
    else if IsVideo(mime, ext) then Videos
    else Photos
  }

  /** The categories whose folder is divided by year and month. */
  predicate Dated(c: Category) {
    c.WhatsAppFiles? || c.ScreenshotFiles? || c.Videos? || c.Photos?
  }

  /** The order of the tests: each category is chosen exactly when every
      earlier test fails and its own holds. */
  lemma ClassifyPrecedence(name: string, ext: string, date: string, mime: string, failedGuess: bool,
                           separate: bool)
    ensures var c := Classify(name, ext, date, mime, failedGuess, separate);
      var apart := separate && (NamesWhatsApp(name) || NamesScreenshot(name));
      && (c == WhatsAppFiles <==> separate && NamesWhatsApp(name))
      && (c == ScreenshotFiles <==> separate && !NamesWhatsApp(name) && NamesScreenshot(name))
      && (c == MkvFiles <==> !apart && ext == "mkv")
      && (c == FailedGuess <==> !apart && ext != "mkv" && date == "" && failedGuess)
      && (c == UnknownTime <==> !apart && ext != "mkv" && date == "" && !failedGuess)
      && (c == Videos <==> !apart && ext != "mkv" && date != "" && IsVideo(mime, ext))
      && (c == Photos <==> !apart && ext != "mkv" && date != "" && !IsVideo(mime, ext))
  {
  }

  /** Without the option no file goes to the WhatsApp or screenshot folder,
      whatever its name. */
  lemma NotSeparatedNotApart(name: string, ext: string, date: string, mime: string, failedGuess: bool)
    ensures !Classify(name, ext, date, mime, failedGuess, false).WhatsAppFiles?
    ensures !Classify(name, ext, date, mime, failedGuess, false).ScreenshotFiles?
    ensures Classify(name, ext, date, mime, failedGuess, false)
         == Classify("", ext, date, mime, failedGuess, true)
  {
    assert !Contains(Lower(""), "wa") && !Contains(Lower(""), "whatsapp");
    assert !Contains(Lower(""), "screenshot");
  }

  /** A file with a date is never put under "Unknown Time", and a file with
      no date is never put under a year: it goes to an undated folder or,
      named as WhatsApp or screenshot, straight into that folder. */
  lemma DateDecidesUnknown(name: string, ext: string, date: string, mime: string, failedGuess: bool,
                           separate: bool)
    ensures var c := Classify(name, ext, date, mime, failedGuess, separate);
      && (date != "" ==> !c.FailedGuess? && !c.UnknownTime?)
      && (date == "" && Dated(c) ==> c.WhatsAppFiles? || c.ScreenshotFiles?)
      && (c.FailedGuess? ==> failedGuess)
  {
  }

  /** The test is loose: any name containing "wa", such as "Hawaii.jpg",
      counts as a WhatsApp name. */
  lemma HawaiiNamesWhatsApp()
    ensures NamesWhatsApp("Hawaii.jpg")
  {
    var l := Lower("Hawaii.jpg");
    assert l[2] == 'w' && l[3] == 'a';
    assert OccursAt("wa", l, 2);
  }

  /** "mkv" is the one media extension left out of the video extensions, and
      every video extension is a media extension. */
  lemma VideoExtensionsAreMedia(e: string)
    ensures Listed(e, VideoExtensions) ==> Listed(e, MediaCleaning.MediaExtensions) && e != "mkv"
  {
    ListedIsIn(e, VideoExtensions);
    ListedIsIn(e, MediaCleaning.MediaExtensions);
    MkvNotVideo();
  }

  lemma MkvNotVideo()
    ensures "mkv" !in VideoExtensions
  {
  }

  // ------------------------------------------------------ destinations

  /** The folders of a category below `Media Files`. */
  function CategoryFolders(c: Category): (r: seq<string>)
    ensures 1 <= |r| <= 2
  {
    match c
    case WhatsAppFiles => ["Whatsapp"]
    case ScreenshotFiles => ["Screenshots"]
    case MkvFiles => ["mkv_files"]
    case FailedGuess => ["Unknown Time", "Failed Filename Guess"]
    case UnknownTime => ["Unknown Time"]
    case Videos => ["Videos"]
    case Photos => ["Photos"]
  }

  /** The folder a file is copied into:
      `output/Media Files/<category>[/<year>/<month name>]`. */
  function DestFolder(output: Path, c: Category, date: string): Path {
    output + ["Media Files"] + CategoryFolders(c) + (if Dated(c) then DateFolders(date) else [])
  }

  /** The copy's path: the folder joined with the file's name. */
  function Destination(output: Path, c: Category, date: string, name: string): Path {
    DestFolder(output, c, date) + [name]
  }

  /** Reading a category back from the folders below `Media Files`. */
  function FolderCategory(rel: seq<string>): Option<Category> {
    if rel == [] then None
    else if rel[0] == "Whatsapp" then Some(WhatsAppFiles)
    else if rel[0] == "Screenshots" then Some(ScreenshotFiles)
    else if rel[0] == "mkv_files" then Some(MkvFiles)
    else if rel[0] == "Unknown Time" then
      (if |rel| >= 2 && rel[1] == "Failed Filename Guess" then Some(FailedGuess) else Some(UnknownTime))
    else if rel[0] == "Videos" then Some(Videos)
    else if rel[0] == "Photos" then Some(Photos)
    else None
  }

  /** The copy lands below `output/Media Files`, keeps the file's name, and
      the folders below `Media Files` tell its category back, so categories
      never share a folder. */
  lemma DestinationShape(output: Path, c: Category, date: string, name: string)
    ensures var d := Destination(output, c, date, name);
      && |output| + 3 <= |d| <= |output| + 5
      && d[..|output| + 1] == output + ["Media Files"]
      && FileName(d) == name && Parent(d) == DestFolder(output, c, date)
      && FolderCategory(d[|output| + 1..|d| - 1]) == Some(c)
  {
    var d := Destination(output, c, date, name);
    var rel := CategoryFolders(c) + (if Dated(c) then DateFolders(date) else []);
    assert d == output + ["Media Files"] + rel + [name];
    assert d[..|output| + 1] == output + ["Media Files"];
    assert d[|output| + 1..|d| - 1] == rel;
    assert rel[0] == CategoryFolders(c)[0];
    if c.UnknownTime? {
      assert rel == ["Unknown Time"];
    }
  }

  /** A dated category with a date that parses is divided by its year and
      month name; with a date that does not parse it is not divided. */
  lemma DatedDestination(output: Path, c: Category, date: string)
    requires Dated(c)
    ensures ParseExifDate(date).Some? ==>
      var t := ParseExifDate(date).value;
      DestFolder(output, c, date) == output + ["Media Files"] + CategoryFolders(c) + [Decimal(t.year), MonthName(t.month)]
    ensures ParseExifDate(date).None? ==>
      DestFolder(output, c, date) == output + ["Media Files"] + CategoryFolders(c)
  {
  }

  /** The folder the files whose filename date guess failed are moved into. */
  function FailedFolder(output: Path): Path {
    output + ["Media Files", "Unknown Time", "Failed Filename Guess"]
  }

  /** A file sorted as a failed guess is copied exactly where the later move
      puts its original. */
  lemma FailedGuessCopiedToFailedFolder(output: Path, date: string, name: string)
    ensures Destination(output, FailedGuess, date, name) == FailedFolder(output) + [name]
  {
  }

  // ------------------------------------------------------------ report

  /** One report row: name, file type, date text, image size, byte size. */
  datatype Info = Info(fileName: string, fileType: string, date: string, imageSize: string, size: nat)

  /** The five report lists. WhatsApp files and screenshots are listed with
      the photos. */
  datatype Report = Report(photos: seq<Info>, videos: seq<Info>, unknownTime: seq<Info>,
                           mkvFiles: seq<Info>, failedGuess: seq<Info>)

  const EmptyReport := Report([], [], [], [], [])

  /** The list a category's rows go to. */
  function ListOf(r: Report, c: Category): seq<Info> {
    match c
    case WhatsAppFiles => r.photos
    case ScreenshotFiles => r.photos
    case Photos => r.photos
    case Videos => r.videos
    case UnknownTime => r.unknownTime
    case MkvFiles => r.mkvFiles
    case FailedGuess => r.failedGuess
  }

  /** Which of the five report lists a category's rows go to: 0 photos
      (with WhatsApp files and screenshots), 1 videos, 2 unknown time,
      3 mkv files, 4 failed guesses. */
  function Slot(c: Category): nat {
    match c
    case WhatsAppFiles => 0
    case ScreenshotFiles => 0
    case Photos => 0
    case Videos => 1
    case UnknownTime => 2
    case MkvFiles => 3
    case FailedGuess => 4
  }

  /** Recording a row under category `c`: the row is appended to the list
      `c` writes to, and every list another slot writes to is unchanged. */
  function Record(r: Report, c: Category, i: Info): (r': Report)
    ensures ListOf(r', c) == ListOf(r, c) + [i]
    ensures forall d :: ListOf(r', d) == if Slot(d) == Slot(c) then ListOf(r, c) + [i] else ListOf(r, d)
  {
    match c
    case WhatsAppFiles => r.(photos := r.photos + [i])
    case ScreenshotFiles => r.(photos := r.photos + [i])
    case Photos => r.(photos := r.photos + [i])
    case Videos => r.(videos := r.videos + [i])
    case UnknownTime => r.(unknownTime := r.unknownTime + [i])
    case MkvFiles => r.(mkvFiles := r.mkvFiles + [i])
    case FailedGuess => r.(failedGuess := r.failedGuess + [i])
  }

  /** The number of rows in all lists. */
  function Rows(r: Report): nat {
    |r.photos| + |r.videos| + |r.unknownTime| + |r.mkvFiles| + |r.failedGuess|
  }

  /** Recording adds exactly one row. */
  lemma RecordAddsOneRow(r: Report, c: Category, i: Info)
    ensures Rows(Record(r, c, i)) == Rows(r) + 1
  {
  }

  // ---------------------------------------------------- one file sorted

  /** What exiftool printed for a file, and the file's size in bytes (0
      when its metadata cannot be read). When exiftool cannot be run there
      are no lines. */
  datatype Probe = Probe(lines: seq<string>, size: nat)

  /** The probe of `p`; a file missing from `probes` is one exiftool could
      not be run on. */
  function ProbeOf(probes: map<Path, Probe>, p: Path): Probe {
    if p in probes then probes[p] else Probe([], 0)
  }

  /** Where a file goes and the row it adds. */
  datatype Placement = Placement(category: Category, dest: Path, info: Info)

  /** The placement of the media file `p`. */
  function PlacementOf(p: Path, probe: Probe, files: MetadataExtraction.Files, failed: seq<Path>,
                       separate: bool, output: Path): (r: Placement)
    requires p != []
  {
    var probed := ReadLines(probe.lines);
    var date := DateText(probed.date, p, files);
    var name := FileName(p);
    var c := Classify(name, LowerExtension(p), date, probed.mime, p in failed, separate);
    Placement(c, Destination(output, c, date, name), Info(name, probed.fileType, date, probed.imageSize, probe.size))
  }

  /** A placement lands below `Media Files` under its own name, in a folder
      that tells its category back. */
  lemma PlacementDestination(p: Path, probe: Probe, files: MetadataExtraction.Files, failed: seq<Path>,
                             separate: bool, output: Path)
    requires p != []
    ensures var pl := PlacementOf(p, probe, files, failed, separate, output);
      && FileName(pl.dest) == FileName(p) && pl.info.fileName == FileName(p)
      && pl.dest[..|output| + 1] == output + ["Media Files"]
      && FolderCategory(pl.dest[|output| + 1..|pl.dest| - 1]) == Some(pl.category)
  {
    var pl := PlacementOf(p, probe, files, failed, separate, output);
    DestinationShape(output, pl.category, pl.info.date, FileName(p));
  }

  /** Only a listed file without a date is sorted as a failed guess, and it
      is copied where the later move puts its original; the undated
      categories hold only files without a date. */
  lemma PlacementFailedGuess(p: Path, probe: Probe, files: MetadataExtraction.Files, failed: seq<Path>,
                             separate: bool, output: Path)
    requires p != []
    ensures var pl := PlacementOf(p, probe, files, failed, separate, output);
      && (pl.category.FailedGuess? ==> p in failed && pl.dest == FailedFolder(output) + [FileName(p)])
      && (pl.category.FailedGuess? || pl.category.UnknownTime? ==> pl.info.date == "")
  {
    var pl := PlacementOf(p, probe, files, failed, separate, output);
    var probed := ReadLines(probe.lines);
    DateDecidesUnknown(FileName(p), LowerExtension(p), pl.info.date, probed.mime, p in failed, separate);
  }

  /** A file's row has no date exactly when exiftool reports none and the
      fallback sidecar gives none. */
  lemma PlacementUndated(p: Path, probe: Probe, files: MetadataExtraction.Files, failed: seq<Path>,
                         separate: bool, output: Path)
    requires p != []
    ensures PlacementOf(p, probe, files, failed, separate, output).info.date == ""
        <==> ReadLines(probe.lines).date == "" && FallbackDate(p, files).None?
  {
  }

  /** A file exiftool gives no date for but whose fallback sidecar has one
      is filed under that date's year and month when its category is
      dated. */
  lemma FallbackDated(p: Path, probe: Probe, files: MetadataExtraction.Files, failed: seq<Path>,
                      separate: bool, output: Path)
    requires p != [] && ReadLines(probe.lines).date == "" && FallbackDate(p, files).Some?
    ensures ParseExifDate(FallbackDate(p, files).value).Some?
    ensures var pl := PlacementOf(p, probe, files, failed, separate, output);
      var t := ParseExifDate(FallbackDate(p, files).value).value;
      Dated(pl.category) ==>
        pl.dest == output + ["Media Files"] + CategoryFolders(pl.category)
                   + [Decimal(t.year), MonthName(t.month), FileName(p)]
  {
    FallbackDateParses(p, files);
    var probed := ReadLines(probe.lines);
    var date := DateText(probed.date, p, files);
    assert date == FallbackDate(p, files).value;
    var pl := PlacementOf(p, probe, files, failed, separate, output);
    if Dated(pl.category) {
      DatedDestination(output, pl.category, date);
    }
  }

  /** Sorting one file: reading exiftool's output, falling back to the
      sidecar for the date, and choosing the category and the copy's path. */
  method SortOne(p: Path, probe: Probe, files: MetadataExtraction.Files, failed: seq<Path>,
                 separate: bool, output: Path) returns (pl: Placement)
    requires p != []
    ensures pl == PlacementOf(p, probe, files, failed, separate, output)
  {
    var probed := ReadExiftoolOutput(probe.lines);
    var date := ResolveDate(p, probed.date, files);
    var name := FileName(p);
    var c := Classify(name, LowerExtension(p), date, probed.mime, p in failed, separate);
    var dest := DestinationOf(output, c, date, name);
    pl := Placement(c, dest, Info(name, probed.fileType, date, probed.imageSize, probe.size));
  }

  /** The date text: exiftool's, or when it is empty the fallback sidecar's. */
  method ResolveDate(p: Path, reported: string, files: MetadataExtraction.Files) returns (date: string)
    requires p != []
    ensures date == DateText(reported, p, files)
  {
    date := reported;
    if date == "" {
      var fallback := FallbackDate(p, files);
      if fallback.Some? {
        date := fallback.value;
      }
    }
  }

  /** The copy's path, built folder by folder. */
  method DestinationOf(output: Path, c: Category, date: string, name: string) returns (dest: Path)
    ensures dest == Destination(output, c, date, name)
  {
    var folder := output + ["Media Files"] + CategoryFolders(c);
    if Dated(c) {
      var parsed := ParseExifDate(date);
      if parsed.Some? {
        folder := folder + [Decimal(parsed.value.year), MonthName(parsed.value.month)];
      }
    }
    dest := folder + [name];
  }

  // ------------------------------------------------------- all files

  /** A copy made: from the input file to its destination. */
  datatype Copy = Copy(from: Path, to: Path)

  /** The state of the sort: the report, the copies made, the files that
      exist, and the count of files processed. */
  datatype Sorting = Sorting(report: Report, copies: seq<Copy>, fs: set<Path>, processed: nat)

  /** A media file has a name, so its path is not empty. */
  lemma MediaFileNotRoot(p: Path)
    requires MediaCleaning.IsMediaFile(p)
    ensures p != []
  {
  }

  /** One file of the walk: a media file that still exists is copied to its
      destination and recorded; anything else is skipped. */
  function SortStep(st: Sorting, p: Path, probes: map<Path, Probe>, files: MetadataExtraction.Files,
                    failed: seq<Path>, separate: bool, output: Path): Sorting
  {
    if MediaCleaning.IsMediaFile(p) && p in st.fs then
      MediaFileNotRoot(p);
      Place(st, p, PlacementOf(p, ProbeOf(probes, p), files, failed, separate, output))
    else st
  }

  /** Copying `p` as `pl` says and recording its row. */
  function Place(st: Sorting, p: Path, pl: Placement): Sorting {
    Sorting(Record(st.report, pl.category, pl.info), st.copies + [Copy(p, pl.dest)],
            st.fs + {pl.dest}, st.processed + 1)
  }

  /** The state after the walk `walk`, in order. */
  function SortedAll(fs0: set<Path>, walk: seq<Path>, probes: map<Path, Probe>, files: MetadataExtraction.Files,
                     failed: seq<Path>, separate: bool, output: Path): Sorting
  {
    if walk == [] then Sorting(EmptyReport, [], fs0, 0)
    else SortStep(SortedAll(fs0, walk[..|walk| - 1], probes, files, failed, separate, output),
                  walk[|walk| - 1], probes, files, failed, separate, output)
  }

  /** One step adds at most one row, copy and processed file, all
      together, and removes no file. */
  lemma SortStepCounts(st: Sorting, p: Path, probes: map<Path, Probe>, files: MetadataExtraction.Files,
                       failed: seq<Path>, separate: bool, output: Path)
    ensures var st' := SortStep(st, p, probes, files, failed, separate, output);
      && Rows(st'.report) - Rows(st.report) == |st'.copies| - |st.copies| == st'.processed - st.processed
      && st'.processed <= st.processed + 1
      && st.fs <= st'.fs
      && st.copies <= st'.copies
  {
    if MediaCleaning.IsMediaFile(p) && p in st.fs {
      var pl := PlacementOf(p, ProbeOf(probes, p), files, failed, separate, output);
      RecordAddsOneRow(st.report, pl.category, pl.info);
    }
  }

  /** Every processed file has exactly one report row and one copy, and
      copying never removes a file. */
  lemma {:induction false} SortedAllCounts(fs0: set<Path>, walk: seq<Path>, probes: map<Path, Probe>,
                                           files: MetadataExtraction.Files, failed: seq<Path>,
                                           separate: bool, output: Path)
    ensures var st := SortedAll(fs0, walk, probes, files, failed, separate, output);
      && Rows(st.report) == st.processed == |st.copies| <= |walk|
      && fs0 <= st.fs
    decreases |walk|
  {
    if walk != [] {
      SortedAllCounts(fs0, walk[..|walk| - 1], probes, files, failed, separate, output);
      SortStepCounts(SortedAll(fs0, walk[..|walk| - 1], probes, files, failed, separate, output),
                     walk[|walk| - 1], probes, files, failed, separate, output);
    }
  }

  /** A copy made by the sort: from a media file of the walk to its
      placement. */
  predicate IsSortCopy(cp: Copy, walk: seq<Path>, probes: map<Path, Probe>, files: MetadataExtraction.Files,
                       failed: seq<Path>, separate: bool, output: Path)
  {
    && MediaCleaning.IsMediaFile(cp.from) && cp.from in walk && cp.from != []
    && cp.to == PlacementOf(cp.from, ProbeOf(probes, cp.from), files, failed, separate, output).dest
  }

  /** Every copy of `st` is a copy of the sort over `walk` whose
      destination exists. */
  predicate CopiesMade(st: Sorting, walk: seq<Path>, probes: map<Path, Probe>, files: MetadataExtraction.Files,
                       failed: seq<Path>, separate: bool, output: Path)
  {
    forall k :: 0 <= k < |st.copies| ==>
      IsSortCopy(st.copies[k], walk, probes, files, failed, separate, output) && st.copies[k].to in st.fs
  }

  /** A longer walk allows the same copies. */
  lemma CopiesMadeWiden(st: Sorting, init: seq<Path>, p: Path, probes: map<Path, Probe>,
                        files: MetadataExtraction.Files, failed: seq<Path>, separate: bool, output: Path)
    requires CopiesMade(st, init, probes, files, failed, separate, output)
    ensures CopiesMade(st, init + [p], probes, files, failed, separate, output)
  {
    forall k | 0 <= k < |st.copies|
      ensures IsSortCopy(st.copies[k], init + [p], probes, files, failed, separate, output)
    {
      assert st.copies[k].from in init;
    }
  }

  /** A step of the walk over a file of the walk keeps every copy a copy of
      the sort. */
  lemma SortStepCopies(st: Sorting, walk: seq<Path>, p: Path, probes: map<Path, Probe>,
                       files: MetadataExtraction.Files, failed: seq<Path>, separate: bool, output: Path)
    requires p in walk
    requires CopiesMade(st, walk, probes, files, failed, separate, output)
    ensures CopiesMade(SortStep(st, p, probes, files, failed, separate, output), walk, probes, files, failed, separate, output)
  {
    var st' := SortStep(st, p, probes, files, failed, separate, output);
    if MediaCleaning.IsMediaFile(p) && p in st.fs {
      forall k | 0 <= k < |st'.copies|
        ensures IsSortCopy(st'.copies[k], walk, probes, files, failed, separate, output) && st'.copies[k].to in st'.fs
      {
        if k < |st.copies| {
          assert st'.copies[k] == st.copies[k];
        }
      }
    }
  }

  /** Every copy goes from a media file of the walk to its placement, and
      its destination exists afterwards. */
  lemma {:induction false} SortedAllCopies(fs0: set<Path>, walk: seq<Path>, probes: map<Path, Probe>,
                                           files: MetadataExtraction.Files, failed: seq<Path>,
                                           separate: bool, output: Path)
    ensures CopiesMade(SortedAll(fs0, walk, probes, files, failed, separate, output), walk, probes, files, failed,
                       separate, output)
    decreases |walk|
  {
    if walk != [] {
      var init := walk[..|walk| - 1];
      var p := walk[|walk| - 1];
      assert walk == init + [p];
      SortedAllCopies(fs0, init, probes, files, failed, separate, output);
      var st0 := SortedAll(fs0, init, probes, files, failed, separate, output);
      CopiesMadeWiden(st0, init, p, probes, files, failed, separate, output);
      SortStepCopies(st0, walk, p, probes, files, failed, separate, output);
    }
  }

  /** Recording a row only appends to one list: every list keeps its rows. */
  lemma RecordKeepsRows(r: Report, c: Category, i: Info, d: Category)
    ensures ListOf(r, d) <= ListOf(Record(r, c, i), d)
  {
  }

  predicate NoDuplicates(walk: seq<Path>) {
    forall a, b :: 0 <= a < b < |walk| ==> walk[a] != walk[b]
  }

  /** `copies` holds exactly one copy from `p`, and it goes to `dest`. */
  predicate CopiedOnce(copies: seq<Copy>, p: Path, dest: Path) {
    exists k :: 0 <= k < |copies| && copies[k] == Copy(p, dest)
      && forall j :: 0 <= j < |copies| && copies[j].from == p ==> j == k
  }

  lemma CopiedOnceFirst(copies: seq<Copy>, p: Path, dest: Path)
    requires forall j :: 0 <= j < |copies| ==> copies[j].from != p
    ensures CopiedOnce(copies + [Copy(p, dest)], p, dest)
  {
    var c := copies + [Copy(p, dest)];
    assert c[|copies|] == Copy(p, dest);
    assert forall j :: 0 <= j < |copies| ==> c[j] == copies[j];
  }

  lemma CopiedOnceOther(copies: seq<Copy>, p: Path, dest: Path, other: Copy)
    requires CopiedOnce(copies, p, dest) && other.from != p
    ensures CopiedOnce(copies + [other], p, dest)
  {
    var c := copies + [other];
    var k :| 0 <= k < |copies| && copies[k] == Copy(p, dest)
      && forall j :: 0 <= j < |copies| && copies[j].from == p ==> j == k;
    assert c[k] == Copy(p, dest);
    assert forall j :: 0 <= j < |copies| ==> c[j] == copies[j];
  }

  /** A step either skips the file or places it as `PlacementOf` says. */
  lemma SortStepShape(st: Sorting, q: Path, probes: map<Path, Probe>, files: MetadataExtraction.Files,
                      failed: seq<Path>, separate: bool, output: Path)
    ensures var st' := SortStep(st, q, probes, files, failed, separate, output);
      if MediaCleaning.IsMediaFile(q) && q in st.fs then
        q != [] && st' == Place(st, q, PlacementOf(q, ProbeOf(probes, q), files, failed, separate, output))
      else st' == st
  {
  }

  /** The walk's state after its last file, in terms of the state before it. */
  lemma SortedAllLast(fs0: set<Path>, walk: seq<Path>, probes: map<Path, Probe>, files: MetadataExtraction.Files,
                      failed: seq<Path>, separate: bool, output: Path)
    requires walk != []
    ensures SortedAll(fs0, walk, probes, files, failed, separate, output)
      == SortStep(SortedAll(fs0, walk[..|walk| - 1], probes, files, failed, separate, output),
                  walk[|walk| - 1], probes, files, failed, separate, output)
  {
  }

  /** No copy is made from a file the walk does not list. */
  lemma NoCopyFromUnwalked(fs0: set<Path>, walk: seq<Path>, probes: map<Path, Probe>,
                           files: MetadataExtraction.Files, failed: seq<Path>, separate: bool, output: Path,
                           p: Path)
    requires p !in walk
    ensures var st := SortedAll(fs0, walk, probes, files, failed, separate, output);
      forall j :: 0 <= j < |st.copies| ==> st.copies[j].from != p
  {
    SortedAllCopies(fs0, walk, probes, files, failed, separate, output);
  }

  /** The converse of `SortedAllCopies`: a media file that the walk lists
      once and that exists when the sort starts is copied exactly once, to
      its placement, and its row is in its category's list. */
  lemma {:induction false} SortedAllPlacesEach(fs0: set<Path>, walk: seq<Path>, probes: map<Path, Probe>,
                                               files: MetadataExtraction.Files, failed: seq<Path>,
                                               separate: bool, output: Path, p: Path)
    requires NoDuplicates(walk) && p in walk && p in fs0 && MediaCleaning.IsMediaFile(p)
    ensures var st := SortedAll(fs0, walk, probes, files, failed, separate, output);
      var pl := PlacementOf(p, ProbeOf(probes, p), files, failed, separate, output);
      CopiedOnce(st.copies, p, pl.dest) && pl.info in ListOf(st.report, pl.category)
    decreases |walk|
  {
    var init, last := walk[..|walk| - 1], walk[|walk| - 1];
    assert walk == init + [last];
    assert NoDuplicates(init);
    if last == p {
      assert p !in init;
      PlacedAtLast(fs0, walk, probes, files, failed, separate, output);
    } else {
      assert p in init;
      SortedAllPlacesEach(fs0, init, probes, files, failed, separate, output, p);
      PlacedEarlier(fs0, walk, probes, files, failed, separate, output, p);
    }
  }

  /** The last file of the walk, not listed before and existing at the
      start, is copied once and recorded. */
  lemma PlacedAtLast(fs0: set<Path>, walk: seq<Path>, probes: map<Path, Probe>,
                     files: MetadataExtraction.Files, failed: seq<Path>, separate: bool, output: Path)
    requires walk != [] && walk[|walk| - 1] !in walk[..|walk| - 1]
    requires walk[|walk| - 1] in fs0 && MediaCleaning.IsMediaFile(walk[|walk| - 1])
    ensures var p := walk[|walk| - 1];
      var st := SortedAll(fs0, walk, probes, files, failed, separate, output);
      var pl := PlacementOf(p, ProbeOf(probes, p), files, failed, separate, output);
      CopiedOnce(st.copies, p, pl.dest) && pl.info in ListOf(st.report, pl.category)
  {
    var init, p := walk[..|walk| - 1], walk[|walk| - 1];
    var st0 := SortedAll(fs0, init, probes, files, failed, separate, output);
    var pl := PlacementOf(p, ProbeOf(probes, p), files, failed, separate, output);
    SortedAllLast(fs0, walk, probes, files, failed, separate, output);
    SortedAllCounts(fs0, init, probes, files, failed, separate, output);
    SortStepShape(st0, p, probes, files, failed, separate, output);
    NoCopyFromUnwalked(fs0, init, probes, files, failed, separate, output, p);
    CopiedOnceFirst(st0.copies, p, pl.dest);
  }

  /** A file copied once and recorded before the last step of the walk
      stays so when the last file is another one. */
  lemma PlacedEarlier(fs0: set<Path>, walk: seq<Path>, probes: map<Path, Probe>,
                      files: MetadataExtraction.Files, failed: seq<Path>, separate: bool, output: Path, p: Path)
    requires walk != [] && walk[|walk| - 1] != p && p != []
    requires var st0 := SortedAll(fs0, walk[..|walk| - 1], probes, files, failed, separate, output);
      var pl := PlacementOf(p, ProbeOf(probes, p), files, failed, separate, output);
      CopiedOnce(st0.copies, p, pl.dest) && pl.info in ListOf(st0.report, pl.category)
    ensures var st := SortedAll(fs0, walk, probes, files, failed, separate, output);
      var pl := PlacementOf(p, ProbeOf(probes, p), files, failed, separate, output);
      CopiedOnce(st.copies, p, pl.dest) && pl.info in ListOf(st.report, pl.category)
  {
    var init, last := walk[..|walk| - 1], walk[|walk| - 1];
    var st0 := SortedAll(fs0, init, probes, files, failed, separate, output);
    var pl := PlacementOf(p, ProbeOf(probes, p), files, failed, separate, output);
    SortedAllLast(fs0, walk, probes, files, failed, separate, output);
    SortStepShape(st0, last, probes, files, failed, separate, output);
    if MediaCleaning.IsMediaFile(last) && last in st0.fs {
      var pl' := PlacementOf(last, ProbeOf(probes, last), files, failed, separate, output);
      CopiedOnceOther(st0.copies, p, pl.dest, Copy(last, pl'.dest));
      RecordKeepsRows(st0.report, pl'.category, pl'.info, pl.category);
    }
  }

  /** One turn of the loop over the walk. */
  method SortFile(st0: Sorting, p: Path, probes: map<Path, Probe>, files: MetadataExtraction.Files,
                  failed: seq<Path>, separate: bool, output: Path) returns (st: Sorting)
    ensures st == SortStep(st0, p, probes, files, failed, separate, output)
  {
    if MediaCleaning.IsMediaFile(p) && p in st0.fs {
      MediaFileNotRoot(p);
      var pl := SortOne(p, ProbeOf(probes, p), files, failed, separate, output);
      st := Place(st0, p, pl);
    } else {
      st := st0;
    }
  }

  /** The loop over the walk. */
  method SortAll(fs0: set<Path>, walk: seq<Path>, probes: map<Path, Probe>, files: MetadataExtraction.Files,
                 failed: seq<Path>, separate: bool, output: Path) returns (st: Sorting)
    ensures st == SortedAll(fs0, walk, probes, files, failed, separate, output)
  {
    st := Sorting(EmptyReport, [], fs0, 0);
    for i := 0 to |walk|
      invariant st == SortedAll(fs0, walk[..i], probes, files, failed, separate, output)
    {
      assert walk[..i + 1][..i] == walk[..i];
      st := SortFile(st, walk[i], probes, files, failed, separate, output);
    }
    assert walk[..|walk|] == walk;
  }

  // ----------------------------------------------- failed guesses moved

  /** The files after moving each listed failed-guess file, in order, into
      the failed-guess folder under its own name (a path without a name is
      skipped, a missing file stays missing). */
  function MovedFailed(fs: set<Path>, failed: seq<Path>, output: Path): set<Path> {
    if failed == [] then fs
    else
      var p := failed[|failed| - 1];
      var before := MovedFailed(fs, failed[..|failed| - 1], output);
      if p != [] then MediaCleaning.Rename(before, p, FailedFolder(output) + [FileName(p)]) else before
  }

  /** Files neither listed nor in the failed-guess folder are untouched, and
      no listed file outside that folder is left in place. */
  lemma {:induction false} MovedFailedEffect(fs: set<Path>, failed: seq<Path>, output: Path, q: Path)
    ensures q !in failed && Parent(q) != FailedFolder(output) ==>
      (q in MovedFailed(fs, failed, output) <==> q in fs)
    ensures q in failed && q != [] && Parent(q) != FailedFolder(output) ==>
      q !in MovedFailed(fs, failed, output)
    decreases |failed|
  {
    if failed != [] {
      var init := failed[..|failed| - 1];
      var p := failed[|failed| - 1];
      MovedFailedEffect(fs, init, output, q);
      assert failed == init + [p];
      if p != [] {
        var target := FailedFolder(output) + [FileName(p)];
        assert Parent(target) == FailedFolder(output);
      }
    }
  }

  /** A file in the failed-guess folder stays there: a later move of that
      same path puts it back onto itself. */
  lemma {:induction false} MovedFailedKeeps(fs: set<Path>, failed: seq<Path>, output: Path, i: nat, d: Path)
    requires i <= |failed| && d != [] && Parent(d) == FailedFolder(output)
    requires d in MovedFailed(fs, failed[..i], output)
    ensures d in MovedFailed(fs, failed, output)
    decreases |failed| - i
  {
    if i == |failed| {
      assert failed[..i] == failed;
    } else {
      assert failed[..i + 1][..i] == failed[..i];
      assert failed[..i + 1][i] == failed[i];
      assert d == FailedFolder(output) + [FileName(d)];
      MovedFailedKeeps(fs, failed, output, i + 1, d);
    }
  }

  /** Each listed file that still exists at its turn arrives in the
      failed-guess folder under its own name, and stays there. */
  lemma MovedFailedArrival(fs: set<Path>, failed: seq<Path>, output: Path, i: nat)
    requires i < |failed| && failed[i] != [] && failed[i] in MovedFailed(fs, failed[..i], output)
    ensures FailedFolder(output) + [FileName(failed[i])] in MovedFailed(fs, failed, output)
  {
    var target := FailedFolder(output) + [FileName(failed[i])];
    assert failed[..i + 1][..i] == failed[..i];
    assert failed[..i + 1][i] == failed[i];
    assert target in MovedFailed(fs, failed[..i + 1], output);
    assert Parent(target) == FailedFolder(output);
    MovedFailedKeeps(fs, failed, output, i + 1, target);
  }

  /** The loop over the failed-guess list. */
  method MoveFailedGuesses(fs0: set<Path>, failed: seq<Path>, output: Path) returns (fs: set<Path>)
    ensures fs == MovedFailed(fs0, failed, output)
  {
    fs := fs0;
    var folder := FailedFolder(output);
    for i := 0 to |failed|
      invariant fs == MovedFailed(fs0, failed[..i], output)
    {
      assert failed[..i + 1][..i] == failed[..i];
      var p := failed[i];
      if p != [] {
        var dest := folder + [FileName(p)];
        if p in fs {
          fs := (fs - {p}) + {dest};
        }
      }
    }
    assert failed[..|failed|] == failed;
  }

  /** `sort_files_to_folders`: sort every media file of the walk, then move
      the failed-guess files. Returns the report, the copies made, the
      files that exist afterwards and the number of files sorted. */
  method SortFilesToFolders(fs0: set<Path>, walk: seq<Path>, probes: map<Path, Probe>,
                            files: MetadataExtraction.Files, failed: seq<Path>, separate: bool,
                            output: Path)
    returns (report: Report, copies: seq<Copy>, fs: set<Path>, processed: nat)
    ensures var st := SortedAll(fs0, walk, probes, files, failed, separate, output);
      && report == st.report && copies == st.copies && processed == st.processed
      && fs == MovedFailed(st.fs, failed, output)
  {
    var st := SortAll(fs0, walk, probes, files, failed, separate, output);
    report, copies, processed := st.report, st.copies, st.processed;
    fs := MoveFailedGuesses(st.fs, failed, output);
  }
}
