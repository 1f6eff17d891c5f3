/** `embed_metadata_all` (src/metadata_embed.rs): for every extracted record,
    one exiftool invocation that writes the chosen date, the GPS position and
    the camera into the media file.

    The answer to the prompt (metadata or filename for WhatsApp and
    screenshot images) becomes `useFilename`; what each exiftool run reports
    becomes an input `Outcome`; the log file becomes a sequence of entries. */
module MetadataEmbed {
  import opened Text
  import opened Paths
  import opened Json
  import opened MetadataExtraction
  import FilenameDateGuess

  // ------------------------------------------------------- choosing the date

  /** `a.eq_ignore_ascii_case(b)`. */
  predicate EqIgnoreAsciiCase(a: string, b: string) {
    Lower(a) == Lower(b)
  }

  /** The record's file lies directly in a folder named "Whatsapp" or
      "Screenshots", in any ASCII case. */
  predicate InSeparatedFolder(p: Path) {
    EqIgnoreAsciiCase(ParentName(p), "Whatsapp") || EqIgnoreAsciiCase(ParentName(p), "Screenshots")
  }

  /** The date guessed from the file name, when that is asked for and the
      file is in one of the two folders. */
  function FilenameDate(meta: MediaMetadata, useFilename: bool): Option<string> {
    if useFilename && InSeparatedFolder(meta.mediaPath) then
      FilenameDateGuess.ExtractDateFromFilename(FileName(meta.mediaPath))
    else None
  }

  /** The date embedded and the `used` word written to the log. */
  function ChooseDate(meta: MediaMetadata, useFilename: bool): (r: (Option<string>, string))
    ensures r.1 == "filename" <==> FilenameDate(meta, useFilename).Some?
    ensures r.1 == "filename" ==> r.0 == FilenameDate(meta, useFilename)
    ensures r.1 != "filename" ==> r.0 == meta.exifDate
    ensures r.1 == "metadata (fallback)" <==> r.0.None?
    ensures r.1 in {"filename", "metadata", "metadata (fallback)"}
  {
    var guessed := FilenameDate(meta, useFilename);
    var date := if guessed.Some? then guessed else meta.exifDate;
    var used := if guessed.Some? then "filename" else "metadata";
    (date, if date.None? then "metadata (fallback)" else used)
  }

  /** Without the filename answer, or outside the two folders, the date is
      the record's own. */
  lemma MetadataDateKept(meta: MediaMetadata, useFilename: bool)
    requires !useFilename || !InSeparatedFolder(meta.mediaPath)
    ensures ChooseDate(meta, useFilename).0 == meta.exifDate
    ensures ChooseDate(meta, useFilename).1 == if meta.exifDate.Some? then "metadata" else "metadata (fallback)"
  {
  }

  /** With the filename answer, a file in a "WHATSAPP" folder (any case) with
      a date in its name has that date embedded, whatever its record says. */
  lemma FilenameDateOverrides(meta: MediaMetadata)
    requires EqIgnoreAsciiCase(ParentName(meta.mediaPath), "Whatsapp")
    requires FilenameDateGuess.ExtractDateFromFilename(FileName(meta.mediaPath)).Some?
    ensures ChooseDate(meta, true) ==
      (FilenameDateGuess.ExtractDateFromFilename(FileName(meta.mediaPath)), "filename")
  {
  }

  // ------------------------------------------------------ exiftool arguments

  /** The file's extension, in ASCII lower case, is "png". */
  predicate IsPng(p: Path) {
    Extension(p).Some? && Lower(Extension(p).value) == "png"
  }

  /** PNG files get the date as an XMP tag, other files as the EXIF tag. */
  function DateTag(p: Path): (r: string)
    ensures IsPng(p) <==> r == "XMP:DateTimeOriginal"
    ensures !IsPng(p) <==> r == "DateTimeOriginal"
  {
    if IsPng(p) then "XMP:DateTimeOriginal" else "DateTimeOriginal"
  }

  /** The option `-<tag>=<value>`. */
  function Assign(tag: string, value: string): string {
    "-" + tag + "=" + value
  }

  function Display(x: Option<F64>): Option<string> {
    match x
    case Some(v) => Some(v.display)
    case None => None
  }
  /** The date option, when there is a date. */
  function DateOption(p: Path, date: Option<string>): seq<string> {
    OptionFor(DateTag(p), date)
  }

  /** Latitude and longitude, only when both are known. */
  function GpsOptions(meta: MediaMetadata): seq<string> {
    if meta.gpsLatitude.Some? && meta.gpsLongitude.Some? then
      [Assign("GPSLatitude", meta.gpsLatitude.value.display), Assign("GPSLongitude", meta.gpsLongitude.value.display)]
    else []
  }

  /** The option for `tag` when its value is known. */
  function OptionFor(tag: string, value: Option<string>): seq<string> {
    if value.Some? then [Assign(tag, value.value)] else []
  }

  /** The options written for a record and the date chosen for it, in the
      order they are pushed: date, latitude and longitude, altitude, make,
      model. */
  function TagOptions(meta: MediaMetadata, date: Option<string>): seq<string> {
    DateOption(meta.mediaPath, date) + GpsOptions(meta) + OptionFor("GPSAltitude", Display(meta.gpsAltitude))
    + OptionFor("Make", meta.cameraMake) + OptionFor("Model", meta.cameraModel)
  }

  /** The whole argument list: the options, "-overwrite_original", then the
      file's path. */
  function PlannedArgs(meta: MediaMetadata, date: Option<string>): seq<string> {
    TagOptions(meta, date) + ["-overwrite_original", PathText(meta.mediaPath)]
  }

  // ------------------------------------------ what exiftool reads from them

  /** The value exiftool is given for `tag`: that of the first option
      `-<tag>=<value>`. */
  function TagValue(options: seq<string>, tag: string): (r: Option<string>)
    ensures r.Some? ==> exists k :: 0 <= k < |options| && options[k] == Assign(tag, r.value)
    decreases |options|
  {
    if options == [] then None
    else
      var prefix := "-" + tag + "=";
      if StartsWith(options[0], prefix) then
        assert options[0] == Assign(tag, options[0][|prefix|..]) by {
          assert options[0] == options[0][..|prefix|] + options[0][|prefix|..];
        }
        Some(options[0][|prefix|..])
      else
        var r := TagValue(options[1..], tag);
        if r.Some? then
          var k :| 0 <= k < |options[1..]| && options[1..][k] == Assign(tag, r.value);
          assert options[k + 1] == Assign(tag, r.value);
          r
        else r
  }

  /** An option for one tag is never read as the value of another, since no
      tag name holds an "=". */
  lemma TagsDistinct(t: string, u: string, value: string)
    requires '=' !in t && '=' !in u && t != u
    ensures !StartsWith(Assign(t, value), "-" + u + "=")
  {
    var a := Assign(t, value);
    var pu := "-" + u + "=";
    assert a == "-" + t + "=" + value;
    if |pu| <= |a| {
      if |u| < |t| {
        assert t[|u|] in t;
        assert a[|u| + 1] != pu[|u| + 1];
      } else if |u| > |t| {
        assert u[|t|] in u;
        assert a[|t| + 1] != pu[|t| + 1];
      } else {
        var k :| 0 <= k < |t| && t[k] != u[k];
        assert a[k + 1] != pu[k + 1];
      }
    }
  }

  /** A tag's first option sets its value. */
  lemma TagValueHead(tag: string, value: string, rest: seq<string>)
    ensures TagValue([Assign(tag, value)] + rest, tag) == Some(value)
  {
    var o := [Assign(tag, value)] + rest;
    assert o[0][..|tag| + 2] == "-" + tag + "=";
    assert o[0][|tag| + 2..] == value;
  }

  /** Options for other tags are skipped. */
  lemma TagValueSkip(t: string, value: string, rest: seq<string>, u: string)
    requires '=' !in t && '=' !in u && t != u
    ensures TagValue([Assign(t, value)] + rest, u) == TagValue(rest, u)
  {
    TagsDistinct(t, u, value);
    assert ([Assign(t, value)] + rest)[1..] == rest;
  }

  /** The first of two option lists that sets a tag decides its value. */
  lemma {:induction false} TagValueConcat(a: seq<string>, b: seq<string>, u: string)
    ensures TagValue(a + b, u) == if TagValue(a, u).Some? then TagValue(a, u) else TagValue(b, u)
    decreases |a|
  {
    if a == [] {
      assert a + b == b;
    } else {
      var prefix := "-" + u + "=";
      assert (a + b)[0] == a[0];
      if StartsWith(a[0], prefix) {
        assert TagValue(a + b, u) == Some(a[0][|prefix|..]);
        assert TagValue(a, u) == Some(a[0][|prefix|..]);
      } else {
        assert (a + b)[1..] == a[1..] + b;
        TagValueConcat(a[1..], b, u);
        assert TagValue(a + b, u) == TagValue(a[1..] + b, u);
        assert TagValue(a, u) == TagValue(a[1..], u);
      }
    }
  }

  lemma OptionForValue(t: string, value: Option<string>, u: string)
    requires '=' !in t && '=' !in u
    ensures TagValue(OptionFor(t, value), u) == if t == u then value else None
  {
    if value.Some? {
      if t == u {
        TagValueHead(t, value.value, []);
      } else {
        TagValueSkip(t, value.value, [], u);
      }
      assert [Assign(t, value.value)] + [] == OptionFor(t, value);
    }
  }

  lemma GpsOptionsValue(meta: MediaMetadata, u: string)
    requires '=' !in u
    ensures TagValue(GpsOptions(meta), u) ==
      if u == "GPSLatitude" && meta.gpsLongitude.Some? then Display(meta.gpsLatitude)
      else if u == "GPSLongitude" && meta.gpsLatitude.Some? then Display(meta.gpsLongitude)
      else None
  {
    if meta.gpsLatitude.Some? && meta.gpsLongitude.Some? {
      var lat := OptionFor("GPSLatitude", Display(meta.gpsLatitude));
      var lon := OptionFor("GPSLongitude", Display(meta.gpsLongitude));
      assert GpsOptions(meta) == lat + lon;
      GpsTagsHaveNoEquals();
      TagValueConcat(lat, lon, u);
      OptionForValue("GPSLatitude", Display(meta.gpsLatitude), u);
      OptionForValue("GPSLongitude", Display(meta.gpsLongitude), u);
    }
  }

  lemma DateTagsHaveNoEquals()
    ensures '=' !in "XMP:DateTimeOriginal" && '=' !in "DateTimeOriginal"
  {
  }

  lemma GpsTagsHaveNoEquals()
    ensures '=' !in "GPSLatitude" && '=' !in "GPSLongitude" && '=' !in "GPSAltitude"
  {
  }

  lemma CameraTagsHaveNoEquals()
    ensures '=' !in "Make" && '=' !in "Model"
  {
  }

  /** The value each tag is meant to receive, read off the record and the
      chosen date: the date under the date tag for the file's kind, the
      latitude and the longitude only when both are known, the altitude, make
      and model when known, and nothing under any other tag. */
  function IntendedValue(meta: MediaMetadata, date: Option<string>, u: string): Option<string> {
    if u == DateTag(meta.mediaPath) then date
    else if u == "GPSLatitude" then (if meta.gpsLongitude.Some? then Display(meta.gpsLatitude) else None)
    else if u == "GPSLongitude" then (if meta.gpsLatitude.Some? then Display(meta.gpsLongitude) else None)
    else if u == "GPSAltitude" then Display(meta.gpsAltitude)
    else if u == "Make" then meta.cameraMake
    else if u == "Model" then meta.cameraModel
    else None
  }

  /** Every tag exiftool is given has the value it is meant to have, and no
      other tag is given: the options never mix up two tags. */
  lemma PlannedValue(meta: MediaMetadata, date: Option<string>, u: string)
    requires '=' !in u
    ensures TagValue(TagOptions(meta, date), u) == IntendedValue(meta, date, u)
  {
    var p := meta.mediaPath;
    TagOptionsValue(meta, date, u);
    DateTagsHaveNoEquals();
    GpsTagsHaveNoEquals();
    CameraTagsHaveNoEquals();
    OptionForValue(DateTag(p), date, u);
    GpsOptionsValue(meta, u);
    OptionForValue("GPSAltitude", Display(meta.gpsAltitude), u);
    OptionForValue("Make", meta.cameraMake, u);
    OptionForValue("Model", meta.cameraModel, u);
    IntendedValueChain(meta, date, u);
  }

  lemma IntendedValueChain(meta: MediaMetadata, date: Option<string>, u: string)
    ensures IntendedValue(meta, date, u) ==
      First(if u == DateTag(meta.mediaPath) then date else None,
      First(if u == "GPSLatitude" && meta.gpsLongitude.Some? then Display(meta.gpsLatitude)
            else if u == "GPSLongitude" && meta.gpsLatitude.Some? then Display(meta.gpsLongitude) else None,
      First(if u == "GPSAltitude" then Display(meta.gpsAltitude) else None,
      First(if u == "Make" then meta.cameraMake else None,
            if u == "Model" then meta.cameraModel else None))))
  {
  }

  /** The value of a tag is the one of the first group of options that sets it. */
  lemma TagOptionsValue(meta: MediaMetadata, date: Option<string>, u: string)
    ensures TagValue(TagOptions(meta, date), u) ==
      First(TagValue(DateOption(meta.mediaPath, date), u),
      First(TagValue(GpsOptions(meta), u),
      First(TagValue(OptionFor("GPSAltitude", Display(meta.gpsAltitude)), u),
      First(TagValue(OptionFor("Make", meta.cameraMake), u),
            TagValue(OptionFor("Model", meta.cameraModel), u)))))
  {
    var s1 := DateOption(meta.mediaPath, date);
    var s2 := GpsOptions(meta);
    var s3 := OptionFor("GPSAltitude", Display(meta.gpsAltitude));
    var s4 := OptionFor("Make", meta.cameraMake);
    var s5 := OptionFor("Model", meta.cameraModel);
    TagValueConcat(s1 + s2 + s3 + s4, s5, u);
    TagValueConcat(s1 + s2 + s3, s4, u);
    TagValueConcat(s1 + s2, s3, u);
    TagValueConcat(s1, s2, u);
  }

  function First(a: Option<string>, b: Option<string>): Option<string> {
    if a.Some? then a else b
  }

  /** The date tag not used for the file. */
  function OtherDateTag(p: Path): (r: string)
    ensures r != DateTag(p)
    ensures r == "DateTimeOriginal" || r == "XMP:DateTimeOriginal"
  {
    if IsPng(p) then "DateTimeOriginal" else "XMP:DateTimeOriginal"
  }

  /** The argument list ends with "-overwrite_original" and the file's path;
      before them, the date goes under the tag for the file's kind and never
      under the other, and latitude and longitude are given together or not
      at all. */
  lemma PlannedArgsShape(meta: MediaMetadata, date: Option<string>)
    ensures var args := PlannedArgs(meta, date);
      |args| >= 2 && args[|args| - 2] == "-overwrite_original" && args[|args| - 1] == PathText(meta.mediaPath)
    ensures var options := TagOptions(meta, date);
      && TagValue(options, DateTag(meta.mediaPath)) == date
      && TagValue(options, OtherDateTag(meta.mediaPath)) == None
      && (TagValue(options, "GPSLatitude").Some? <==> meta.gpsLatitude.Some? && meta.gpsLongitude.Some?)
      && (TagValue(options, "GPSLongitude").Some? <==> meta.gpsLatitude.Some? && meta.gpsLongitude.Some?)
  {
    var p := meta.mediaPath;
    DateTagsHaveNoEquals();
    GpsTagsHaveNoEquals();
    PlannedValue(meta, date, DateTag(p));
    PlannedValue(meta, date, OtherDateTag(p));
    PlannedValue(meta, date, "GPSLatitude");
    PlannedValue(meta, date, "GPSLongitude");
  }

  /** With the filename answer, a file in either folder whose name holds a
      date has exiftool told that date under the tag for its kind, whatever
      its record says. */
  lemma FilenameDateEmbedded(meta: MediaMetadata)
    requires InSeparatedFolder(meta.mediaPath)
    requires FilenameDateGuess.ExtractDateFromFilename(FileName(meta.mediaPath)).Some?
    ensures TagValue(TagOptions(meta, ChooseDate(meta, true).0), DateTag(meta.mediaPath)) ==
      FilenameDateGuess.ExtractDateFromFilename(FileName(meta.mediaPath))
  {
    DateTagsHaveNoEquals();
    PlannedValue(meta, ChooseDate(meta, true).0, DateTag(meta.mediaPath));
  }

  // ----------------------------------------------------------- embedding

  /** What became of one exiftool run: it exited successfully, it exited
      with a failure, or it could not be started. */
  datatype Outcome = Succeeded | Failed | NotRun

  /** One line of the embedding log: the outcome, the file name, the `used`
      word, the date embedded and the record's GPS and camera fields. */
  datatype LogEntry = LogEntry(
    outcome: Outcome, fileName: string, used: string, date: Option<string>,
    latitude: Option<F64>, longitude: Option<F64>, altitude: Option<F64>,
    make: Option<string>, model: Option<string>)

  /** The log line of a record whose run ended with `outcome`. */
  function LogLine(meta: MediaMetadata, useFilename: bool, outcome: Outcome): (e: LogEntry)
    ensures e.date == ChooseDate(meta, useFilename).0 && e.used == ChooseDate(meta, useFilename).1
    ensures e.outcome == outcome && e.fileName == FileName(meta.mediaPath)
  {
    var (date, used) := ChooseDate(meta, useFilename);
    LogEntry(outcome, FileName(meta.mediaPath), used, date, meta.gpsLatitude, meta.gpsLongitude,
             meta.gpsAltitude, meta.cameraMake, meta.cameraModel)
  }

  /** The argument list of one record, pushed option by option. */
  method BuildArgs(meta: MediaMetadata, date: Option<string>) returns (args: seq<string>)
    ensures args == PlannedArgs(meta, date)
  {
    args := PushDate([], meta.mediaPath, date);
    assert args == DateOption(meta.mediaPath, date);
    args := PushGps(args, meta);
    args := PushOption(args, "GPSAltitude", Display(meta.gpsAltitude));
    args := PushOption(args, "Make", meta.cameraMake);
    args := PushOption(args, "Model", meta.cameraModel);
    assert args == TagOptions(meta, date);
    args := args + ["-overwrite_original"];
    args := args + [PathText(meta.mediaPath)];
  }

  /** Pushing the date option: under the XMP tag for a PNG file. */
  method PushDate(args0: seq<string>, p: Path, date: Option<string>) returns (args: seq<string>)
    ensures args == args0 + DateOption(p, date)
  {
    args := args0;
    if date.Some? {
      if IsPng(p) {
        args := args + [Assign("XMP:DateTimeOriginal", date.value)];
      } else {
        args := args + [Assign("DateTimeOriginal", date.value)];
      }
    }
  }

  /** Pushing latitude and longitude when both are known. */
  method PushGps(args0: seq<string>, meta: MediaMetadata) returns (args: seq<string>)
    ensures args == args0 + GpsOptions(meta)
  {
    args := args0;
    if meta.gpsLatitude.Some? && meta.gpsLongitude.Some? {
      args := args + [Assign("GPSLatitude", meta.gpsLatitude.value.display)];
      args := args + [Assign("GPSLongitude", meta.gpsLongitude.value.display)];
    }
  }

  /** Pushing the option for `tag` when its value is known. */
  method PushOption(args0: seq<string>, tag: string, value: Option<string>) returns (args: seq<string>)
    ensures args == args0 + OptionFor(tag, value)
  {
    args := args0;
    if value.Some? {
      args := args + [Assign(tag, value.value)];
    }
  }

  /** One exiftool invocation, with its arguments. */
  datatype Run = Exiftool(args: seq<string>)

  /** The exiftool run for a record, with the date chosen for it. */
  function RunFor(meta: MediaMetadata, useFilename: bool): Run {
    Exiftool(PlannedArgs(meta, ChooseDate(meta, useFilename).0))
  }

  /** The body of the loop for one record: its arguments and its log line. */
  method EmbedOne(meta: MediaMetadata, useFilename: bool, outcome: Outcome) returns (run: Run, entry: LogEntry)
    ensures run == RunFor(meta, useFilename) && entry == LogLine(meta, useFilename, outcome)
  {
    var chosen := ChooseDate(meta, useFilename);
    var args := BuildArgs(meta, chosen.0);
    run := Exiftool(args);
    entry := LogEntry(outcome, FileName(meta.mediaPath), chosen.1, chosen.0, meta.gpsLatitude,
                      meta.gpsLongitude, meta.gpsAltitude, meta.cameraMake, meta.cameraModel);
  }

  /** `embed_metadata_all`: one exiftool run per record, in order, each with
      the arguments planned for it and the date chosen for it; `outcomes[k]`
      is what the k-th run reports, which is only logged. */
  method EmbedMetadataAll(list: seq<MediaMetadata>, useFilename: bool, outcomes: seq<Outcome>)
    returns (runs: seq<Run>, log: seq<LogEntry>, processed: nat)
    requires |outcomes| == |list|
    ensures |runs| == |list| && forall k :: 0 <= k < |list| ==> runs[k] == RunFor(list[k], useFilename)
    ensures |log| == |list| && forall k :: 0 <= k < |list| ==> log[k] == LogLine(list[k], useFilename, outcomes[k])
    ensures processed == |list|
  {
    runs := [];
    log := [];
    processed := 0;
    for i := 0 to |list|
      invariant |runs| == i && forall k :: 0 <= k < i ==> runs[k] == RunFor(list[k], useFilename)
      invariant |log| == i && forall k :: 0 <= k < i ==> log[k] == LogLine(list[k], useFilename, outcomes[k])
      invariant processed == i
    {
      var run, entry := EmbedOne(list[i], useFilename, outcomes[i]);
      RunsGrow(runs, list, useFilename, run);
      LogGrows(log, list, useFilename, outcomes, entry);
      runs := runs + [run];
      log := log + [entry];
      processed := processed + 1;
    }
  }

  /** The runs of the first records, followed by the next record's run, are
      the runs of one more record. */
  lemma RunsGrow(runs: seq<Run>, list: seq<MediaMetadata>, useFilename: bool, run: Run)
    requires |runs| < |list| && run == RunFor(list[|runs|], useFilename)
    requires forall k :: 0 <= k < |runs| ==> runs[k] == RunFor(list[k], useFilename)
    ensures forall k :: 0 <= k < |runs| + 1 ==> (runs + [run])[k] == RunFor(list[k], useFilename)
  {
  }

  /** The same for the log lines. */
  lemma LogGrows(log: seq<LogEntry>, list: seq<MediaMetadata>, useFilename: bool, outcomes: seq<Outcome>,
                 entry: LogEntry)
    requires |log| < |list| == |outcomes| && entry == LogLine(list[|log|], useFilename, outcomes[|log|])
    requires forall k :: 0 <= k < |log| ==> log[k] == LogLine(list[k], useFilename, outcomes[k])
    ensures forall k :: 0 <= k < |log| + 1 ==> (log + [entry])[k] == LogLine(list[k], useFilename, outcomes[k])
  {
  }
}
