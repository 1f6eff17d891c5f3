/** `extract_metadata` (src/metadata_extraction.rs): every media file under the
    base folder is paired with its Google Takeout sidecar `.json` when one
    exists; a paired file's record takes its date, GPS position and camera
    from the sidecar, and an unpaired file's record has at most a date
    guessed from its file name.

    The directory walk becomes `entries`, the regular files in walk order;
    `files` maps every existing file to what reading it as JSON gives; the
    answer to the prompt for unpaired files becomes `guess`. */
module MetadataExtraction {
  import opened Text
  import opened Paths
  import opened Json
  import opened CivilTime
  import FilenameDateGuess

  /** The extensions (lower case) that make a file a media file here:
      38 image and raw formats, then 24 video formats. */
  const MediaExtensions: seq<string> := [
    "jpg", "jpeg", "png", "webp", "heic", "heif", "bmp", "tiff", "gif", "avif", "jxl", "jfif",
    "raw", "cr2", "nef", "orf", "sr2", "arw", "dng", "pef", "raf", "rw2", "srw", "3fr", "erf",
    "k25", "kdc", "mef", "mos", "mrw", "nrw", "srf", "x3f", "svg", "ico", "psd", "ai", "eps",
    "mp4", "mov", "mkv", "avi", "webm", "3gp", "m4v", "mpg", "mpeg", "mts", "m2ts", "ts", "flv",
    "f4v", "wmv", "asf", "rm", "rmvb", "vob", "ogv", "mxf", "dv", "divx", "xvid"]

  datatype MediaMetadata = MediaMetadata(
    mediaPath: Path,
    jsonPath: Path,          // the empty path for a file without sidecar
    exifDate: Option<string>,
    gpsLatitude: Option<F64>,
    gpsLongitude: Option<F64>,
    gpsAltitude: Option<F64>,
    cameraMake: Option<string>,
    cameraModel: Option<string>)

  /** What `read_to_string` followed by `serde_json::from_str` gives for a file. */
  datatype Sidecar = Unreadable | Unparsable | Parsed(value: Json)

  /** The existing files, each with what reading it as JSON gives. */
  type Files = map<Path, Sidecar>

  // -------------------------------------------------------------- pairing

  predicate IsMediaFile(p: Path) {
    Extension(p).Some? && Listed(Lower(Extension(p).value), MediaExtensions)
  }

  lemma MediaFileNotEmpty(p: Path)
    requires Extension(p).Some?
    ensures p != []
  {
  }

  /** The two sidecar names tried for a media file: `<stem>.<ext in lower
      case>.json`, then `<stem>.json`. */
  function SidecarCandidates(p: Path): (r: (Path, Path))
    requires Extension(p).Some?
    ensures Parent(r.0) == Parent(p) && Parent(r.1) == Parent(p)
    ensures FileName(r.0) == Stem(p) + "." + (Lower(Extension(p).value) + ".json")
    ensures FileName(r.1) == Stem(p) + ".json"
  {
    MediaFileNotEmpty(p);
    var ext := Lower(Extension(p).value) + ".json";
    assert ext != "";
    var second := WithExtension(p, "json");
    DotThenJson(Stem(p));
    (WithExtension(p, ext), second)
  }

  lemma DotThenJson(stem: string)
    ensures stem + "." + "json" == stem + ".json"
  {
  }

  lemma NameThenJson(stem: string, ext: string)
    ensures stem + "." + ext + ".json" == stem + "." + (ext + ".json")
  {
  }

  lemma PathOfName(c: Path)
    requires c != []
    ensures c == Parent(c) + [FileName(c)]
  {
  }

  /** The sidecar of a media file: the first candidate that exists. */
  function SidecarFor(p: Path, files: Files): (r: Option<Path>)
    requires IsMediaFile(p)
    ensures r.Some? ==> r.value in files
    ensures r.Some? ==> r.value == SidecarCandidates(p).0 || r.value == SidecarCandidates(p).1
    ensures SidecarCandidates(p).0 in files ==> r == Some(SidecarCandidates(p).0)
    ensures r.None? <==> SidecarCandidates(p).0 !in files && SidecarCandidates(p).1 !in files
  {
    var (first, second) := SidecarCandidates(p);
    if first in files then Some(first) else if second in files then Some(second) else None
  }

  /** A media file whose extension is already in lower case is paired with
      the Takeout name `<file name>.json` when that file exists. */
  lemma TakeoutSidecarName(p: Path, files: Files)
    requires IsMediaFile(p) && Lower(Extension(p).value) == Extension(p).value
    requires Parent(p) + [FileName(p) + ".json"] in files
    ensures SidecarFor(p, files) == Some(Parent(p) + [FileName(p) + ".json"])
  {
    var c := SidecarCandidates(p).0;
    NameThenJson(Stem(p), Extension(p).value);
    MediaFileNotEmpty(p);
    PathOfName(c);
  }

  /** The media files among the walked files, in walk order. */
  function MediaFiles(entries: seq<Path>): (r: seq<Path>)
    ensures forall p :: p in r <==> p in entries && IsMediaFile(p)
  {
    if entries == [] then []
    else
      var last := entries[|entries| - 1];
      MediaFiles(entries[..|entries| - 1]) + (if IsMediaFile(last) then [last] else [])
  }

  /** A media file one of whose sidecar names exists. */
  predicate Pairable(p: Path, files: Files) {
    IsMediaFile(p) && SidecarFor(p, files).Some?
  }

  /** The (media file, sidecar) pairs, in walk order. */
  function Pairs(entries: seq<Path>, files: Files): (r: seq<(Path, Path)>)
    ensures forall k :: 0 <= k < |r| ==> IsMediaFile(r[k].0) && SidecarFor(r[k].0, files) == Some(r[k].1)
  {
    if entries == [] then []
    else
      var last := entries[|entries| - 1];
      Pairs(entries[..|entries| - 1], files)
        + (if Pairable(last, files) then [(last, SidecarFor(last, files).value)] else [])
  }

  function PairedMedia(pairs: seq<(Path, Path)>): (r: seq<Path>)
    ensures |r| == |pairs| && forall k :: 0 <= k < |r| ==> r[k] == pairs[k].0
  {
    seq(|pairs|, k requires 0 <= k < |pairs| => pairs[k].0)
  }

  /** `all_media_files` without the paired ones, keeping their order. */
  function Without(ps: seq<Path>, drop: seq<Path>): (r: seq<Path>)
    ensures forall p :: p in r <==> p in ps && p !in drop
  {
    if ps == [] then []
    else
      var last := ps[|ps| - 1];
      Without(ps[..|ps| - 1], drop) + (if last in drop then [] else [last])
  }

  function Unpaired(entries: seq<Path>, files: Files): seq<Path> {
    Without(MediaFiles(entries), PairedMedia(Pairs(entries, files)))
  }

  // ------------------------------------------------------- sidecar records

  /** `v["photoTakenTime"]["timestamp"]`, when it is a string that parses as
      an `i64`, converted to UTC EXIF date text. */
  function TakenTime(v: Json): (r: Option<string>)
    ensures r.Some? ==> |r.value| == 19
    ensures r.Some? ==> exists ts :: AsStr(Index(Index(v, "photoTakenTime"), "timestamp")) == Some(ts)
                                      && ParseI64(ts).Some? && ExifFromTimestamp(ParseI64(ts).value) == r
  {
    match AsStr(Index(Index(v, "photoTakenTime"), "timestamp"))
    case Some(ts) =>
      (match ParseI64(ts)
       case Some(n) => ExifFromTimestamp(n)
       case None => None)
    case None => None
  }

  /** The taken time is the UTC date of the number written in the sidecar,
      with or without a sign. */
  lemma TakenTimeOfTimestamp(v: Json, n: nat)
    ensures AsStr(Index(Index(v, "photoTakenTime"), "timestamp")) == Some(Decimal(n)) && n < I64Limit
            ==> TakenTime(v) == ExifFromTimestamp(n)
    ensures AsStr(Index(Index(v, "photoTakenTime"), "timestamp")) == Some("-" + Decimal(n)) && n <= I64Limit
            ==> TakenTime(v) == ExifFromTimestamp(-(n as int))
  {
    if n < I64Limit {
      ParseI64Decimal(n);
    }
    if n <= I64Limit {
      ParseI64Negated(n);
    }
  }

  /** A GPS field read from `geoData`, else from `geoDataExif`. */
  function GeoField(v: Json, key: string): Option<F64> {
    OrElse(AsF64(Index(Index(v, "geoData"), key)), AsF64(Index(Index(v, "geoDataExif"), key)))
  }

  /** The record of a media file with a parsed sidecar. */
  function SidecarRecord(media: Path, json: Path, v: Json): (r: MediaMetadata)
    ensures r.mediaPath == media && r.jsonPath == json
  {
    MediaMetadata(media, json, TakenTime(v),
      GeoField(v, "latitude"), GeoField(v, "longitude"), GeoField(v, "altitude"),
      AsStr(Index(v, "cameraMake")), AsStr(Index(v, "cameraModel")))
  }

  /** Each GPS field is the number under `geoData` when there is one, and
      otherwise the number under `geoDataExif`; neither gives None. */
  lemma GeoFieldFallback(v: Json, key: string)
    ensures Index(Index(v, "geoData"), key).Number? ==> GeoField(v, key) == Some(Index(Index(v, "geoData"), key).n)
    ensures !Index(Index(v, "geoData"), key).Number? && Index(Index(v, "geoDataExif"), key).Number?
            ==> GeoField(v, key) == Some(Index(Index(v, "geoDataExif"), key).n)
    ensures GeoField(v, key).None? <==>
            !Index(Index(v, "geoData"), key).Number? && !Index(Index(v, "geoDataExif"), key).Number?
  {
  }

  /** Records of the pairs whose sidecar could be read and parsed, in order;
      a pair whose sidecar cannot be read or parsed is skipped. */
  function PairedRecords(pairs: seq<(Path, Path)>, files: Files): seq<MediaMetadata> {
    if pairs == [] then []
    else
      var (m, j) := pairs[|pairs| - 1];
      PairedRecords(pairs[..|pairs| - 1], files)
        + (if j in files && files[j].Parsed? then [SidecarRecord(m, j, files[j].value)] else [])
  }

  // -------------------------------------------------------- unpaired files

  /** The date given to a file without sidecar: guessed from its file name
      when the user chose to guess, otherwise none. */
  function GuessedDate(p: Path, guess: bool): Option<string> {
    if guess then FilenameDateGuess.ExtractDateFromFilename(FileName(p)) else None
  }

  function UnpairedRecord(p: Path, guess: bool): MediaMetadata {
    MediaMetadata(p, [], GuessedDate(p, guess), None, None, None, None, None)
  }

  function UnpairedRecords(ps: seq<Path>, guess: bool): (r: seq<MediaMetadata>)
    ensures |r| == |ps| && forall k :: 0 <= k < |ps| ==> r[k] == UnpairedRecord(ps[k], guess)
  {
    seq(|ps|, k requires 0 <= k < |ps| => UnpairedRecord(ps[k], guess))
  }

  /** The unpaired files whose name gave no date, when guessing. */
  function FailedGuesses(ps: seq<Path>, guess: bool): seq<Path> {
    if !guess || ps == [] then []
    else
      var last := ps[|ps| - 1];
      FailedGuesses(ps[..|ps| - 1], guess)
        + (if FilenameDateGuess.ExtractDateFromFilename(FileName(last)).None? then [last] else [])
  }

  // ------------------------------------------------------------- properties

  /** The media files keep the walk order. */
  lemma {:induction false} MediaFilesInOrder(entries: seq<Path>)
    ensures Subsequence(MediaFiles(entries), entries)
    decreases |entries|
  {
    if entries != [] {
      var init, last := entries[..|entries| - 1], entries[|entries| - 1];
      assert entries == init + [last];
      MediaFilesInOrder(init);
      if IsMediaFile(last) {
        assert MediaFiles(entries) == MediaFiles(init) + [last];
        SubsequenceKeep(MediaFiles(init), init, last);
      } else {
        assert MediaFiles(entries) == MediaFiles(init);
        SubsequenceSkip(MediaFiles(init), init, last);
      }
    }
  }

  /** Filtering keeps the order of what it keeps. */
  lemma {:induction false} WithoutInOrder(ps: seq<Path>, drop: seq<Path>)
    ensures Subsequence(Without(ps, drop), ps)
    decreases |ps|
  {
    if ps != [] {
      var init, last := ps[..|ps| - 1], ps[|ps| - 1];
      assert ps == init + [last];
      WithoutInOrder(init, drop);
      if last in drop {
        assert Without(ps, drop) == Without(init, drop);
        SubsequenceSkip(Without(init, drop), init, last);
      } else {
        assert Without(ps, drop) == Without(init, drop) + [last];
        SubsequenceKeep(Without(init, drop), init, last);
      }
    }
  }

  /** The unpaired files are listed in walk order. */
  lemma UnpairedInOrder(entries: seq<Path>, files: Files)
    ensures Subsequence(Unpaired(entries, files), MediaFiles(entries))
  {
    WithoutInOrder(MediaFiles(entries), PairedMedia(Pairs(entries, files)));
  }

  /** The failed guesses keep the order of the files they come from. */
  lemma {:induction false} FailedGuessesInOrder(ps: seq<Path>, guess: bool)
    ensures Subsequence(FailedGuesses(ps, guess), ps)
    decreases |ps|
  {
    if ps != [] {
      var init, last := ps[..|ps| - 1], ps[|ps| - 1];
      assert ps == init + [last];
      FailedGuessesInOrder(init, guess);
      if guess && FilenameDateGuess.ExtractDateFromFilename(FileName(last)).None? {
        assert FailedGuesses(ps, guess) == FailedGuesses(init, guess) + [last];
        SubsequenceKeep(FailedGuesses(init, guess), init, last);
      } else {
        assert FailedGuesses(ps, guess) == FailedGuesses(init, guess);
        SubsequenceSkip(FailedGuesses(init, guess), init, last);
      }
    }
  }

  /** A media file is paired exactly when one of its two sidecar names exists. */
  lemma {:induction false} PairedIff(entries: seq<Path>, files: Files, p: Path)
    ensures p in PairedMedia(Pairs(entries, files)) <==> p in entries && Pairable(p, files)
    decreases |entries|
  {
    if entries != [] {
      var init := entries[..|entries| - 1];
      var last := entries[|entries| - 1];
      PairedIff(init, files, p);
      PairsStep(entries, files);
      var tail := if Pairable(last, files) then [(last, SidecarFor(last, files).value)] else [];
      PairedMediaAppend(Pairs(init, files), tail);
      assert PairedMedia(tail) == if Pairable(last, files) then [last] else [];
      assert entries == init + [last];
    }
  }

  lemma PairsStep(entries: seq<Path>, files: Files)
    requires entries != []
    ensures var last := entries[|entries| - 1];
      Pairs(entries, files) == Pairs(entries[..|entries| - 1], files)
        + (if Pairable(last, files) then [(last, SidecarFor(last, files).value)] else [])
  {
  }

  lemma PairedMediaAppend(a: seq<(Path, Path)>, b: seq<(Path, Path)>)
    ensures PairedMedia(a + b) == PairedMedia(a) + PairedMedia(b)
  {
  }

  /** The media files are split into paired and unpaired ones: a media file
      is unpaired exactly when neither sidecar name exists. */
  lemma UnpairedIff(entries: seq<Path>, files: Files, p: Path)
    ensures p in Unpaired(entries, files) <==> p in entries && IsMediaFile(p) && SidecarFor(p, files).None?
    ensures p in MediaFiles(entries) <==> p in PairedMedia(Pairs(entries, files)) || p in Unpaired(entries, files)
    ensures !(p in PairedMedia(Pairs(entries, files)) && p in Unpaired(entries, files))
  {
    PairedIff(entries, files, p);
  }

  lemma {:induction false} FailedGuessesIff(ps: seq<Path>, guess: bool, p: Path)
    ensures p in FailedGuesses(ps, guess) <==>
            guess && p in ps && FilenameDateGuess.ExtractDateFromFilename(FileName(p)).None?
    decreases |ps|
  {
    if guess && ps != [] {
      var init := ps[..|ps| - 1];
      FailedGuessesIff(init, guess, p);
      assert ps == init + [ps[|ps| - 1]];
    }
  }

  /** The failed list holds exactly the media files without sidecar whose
      name gives no date, and only when the user chose to guess. */
  lemma FailedAreUnguessable(entries: seq<Path>, files: Files, guess: bool, p: Path)
    ensures p in FailedGuesses(Unpaired(entries, files), guess) <==>
            guess && p in entries && IsMediaFile(p) && SidecarFor(p, files).None?
            && FilenameDateGuess.ExtractDateFromFilename(FileName(p)).None?
    ensures !guess ==> FailedGuesses(Unpaired(entries, files), guess) == []
  {
    FailedGuessesIff(Unpaired(entries, files), guess, p);
    UnpairedIff(entries, files, p);
  }

  /** Every record built from a sidecar comes from a pair whose sidecar was
      read and parsed. */
  lemma {:induction false} PairedRecordsFrom(pairs: seq<(Path, Path)>, files: Files, k: nat)
    requires k < |PairedRecords(pairs, files)|
    ensures exists i :: 0 <= i < |pairs| && pairs[i].1 in files && files[pairs[i].1].Parsed?
              && PairedRecords(pairs, files)[k] == SidecarRecord(pairs[i].0, pairs[i].1, files[pairs[i].1].value)
    decreases |pairs|
  {
    var init := pairs[..|pairs| - 1];
    var n := |PairedRecords(init, files)|;
    if k < n {
      PairedRecordsFrom(init, files, k);
      var i :| 0 <= i < |init| && init[i].1 in files && files[init[i].1].Parsed?
                && PairedRecords(init, files)[k] == SidecarRecord(init[i].0, init[i].1, files[init[i].1].value);
      assert pairs[i] == init[i];
    } else {
      assert pairs[|pairs| - 1].1 in files;
    }
  }

  /** A media file whose sidecar exists but cannot be read or parsed gets no
      record at all: it is neither a paired record nor an unpaired one. */
  lemma DroppedSidecarGivesNoRecord(entries: seq<Path>, files: Files, guess: bool, p: Path, k: nat)
    requires p in entries && IsMediaFile(p) && SidecarFor(p, files).Some?
    requires !files[SidecarFor(p, files).value].Parsed?
    requires k < |PairedRecords(Pairs(entries, files), files) + UnpairedRecords(Unpaired(entries, files), guess)|
    ensures (PairedRecords(Pairs(entries, files), files) + UnpairedRecords(Unpaired(entries, files), guess))[k].mediaPath != p
  {
    var pairs := Pairs(entries, files);
    var n := |PairedRecords(pairs, files)|;
    if k < n {
      PairedRecordsFrom(pairs, files, k);
    } else {
      UnpairedIff(entries, files, p);
      assert Unpaired(entries, files)[k - n] in Unpaired(entries, files);
    }
  }

  /** The records without sidecar path are exactly the unpaired ones, and
      they come after every record read from a sidecar; they carry no GPS
      position and no camera. */
  lemma UnpairedRecordsLast(entries: seq<Path>, files: Files, guess: bool, k: nat)
    requires k < |PairedRecords(Pairs(entries, files), files) + UnpairedRecords(Unpaired(entries, files), guess)|
    ensures var r := (PairedRecords(Pairs(entries, files), files) + UnpairedRecords(Unpaired(entries, files), guess))[k];
      (r.jsonPath == [] <==> k >= |PairedRecords(Pairs(entries, files), files)|)
      && (r.jsonPath == [] ==> r.gpsLatitude.None? && r.gpsLongitude.None? && r.gpsAltitude.None?
                               && r.cameraMake.None? && r.cameraModel.None?)
  {
    var paired := PairedRecords(Pairs(entries, files), files);
    var unpaired := UnpairedRecords(Unpaired(entries, files), guess);
    if k < |paired| {
      PairedRecordHasSidecar(entries, files, k);
      assert (paired + unpaired)[k] == paired[k];
    } else {
      assert (paired + unpaired)[k] == unpaired[k - |paired|];
    }
  }

  /** A record read from a sidecar names its sidecar. */
  lemma PairedRecordHasSidecar(entries: seq<Path>, files: Files, k: nat)
    requires k < |PairedRecords(Pairs(entries, files), files)|
    ensures PairedRecords(Pairs(entries, files), files)[k].jsonPath != []
  {
    var pairs := Pairs(entries, files);
    PairedRecordsFrom(pairs, files, k);
    var i :| 0 <= i < |pairs| && pairs[i].1 in files && files[pairs[i].1].Parsed?
              && PairedRecords(pairs, files)[k] == SidecarRecord(pairs[i].0, pairs[i].1, files[pairs[i].1].value);
    MediaFileNotEmpty(pairs[i].0);
    assert |pairs[i].1| == |pairs[i].0|;
  }

  // ---------------------------------------------------------------- method

  /** `extract_metadata`: the records of the paired files whose sidecar
      parsed, then one record per unpaired file, and the unpaired files whose
      date could not be guessed. */
  method ExtractMetadata(entries: seq<Path>, files: Files, guess: bool)
    returns (list: seq<MediaMetadata>, failed: seq<Path>)
    ensures list == PairedRecords(Pairs(entries, files), files) + UnpairedRecords(Unpaired(entries, files), guess)
    ensures failed == FailedGuesses(Unpaired(entries, files), guess)
  {
    var allMedia, pairs := CollectMedia(entries, files);
    var unpaired := RemovePaired(allMedia, PairedMedia(pairs));
    list := ReadSidecars(pairs, files);
    failed := [];
    if unpaired != [] {
      var records;
      records, failed := RecordUnpaired(unpaired, guess);
      list := list + records;
    }
  }

  /** The walk: every media file, and every media file with its sidecar. */
  method CollectMedia(entries: seq<Path>, files: Files) returns (allMedia: seq<Path>, pairs: seq<(Path, Path)>)
    ensures allMedia == MediaFiles(entries)
    ensures pairs == Pairs(entries, files)
  {
    pairs := [];
    allMedia := [];
    for i := 0 to |entries|
      invariant allMedia == MediaFiles(entries[..i])
      invariant pairs == Pairs(entries[..i], files)
    {
      var path := entries[i];
      CollectStep(entries, i, files);
      if IsMediaFile(path) {
        allMedia := allMedia + [path];
        var (first, second) := SidecarCandidates(path);
        if first in files {
          pairs := pairs + [(path, first)];
        } else if second in files {
          pairs := pairs + [(path, second)];
        }
      }
    }
    assert entries[..|entries|] == entries;
  }

  /** One more walked entry: it joins the media files when it is one, and
      the pairs when one of its sidecar names exists. */
  lemma CollectStep(entries: seq<Path>, i: nat, files: Files)
    requires i < |entries|
    ensures var p := entries[i];
      && MediaFiles(entries[..i + 1]) == MediaFiles(entries[..i]) + (if IsMediaFile(p) then [p] else [])
      && Pairs(entries[..i + 1], files) == Pairs(entries[..i], files)
           + (if Pairable(p, files) then [(p, SidecarFor(p, files).value)] else [])
  {
    assert entries[..i + 1][..i] == entries[..i];
    assert entries[..i + 1][i] == entries[i];
  }

  /** `all_media_files.filter(|m| !paired_media.contains(m))`. */
  method RemovePaired(allMedia: seq<Path>, paired: seq<Path>) returns (unpaired: seq<Path>)
    ensures unpaired == Without(allMedia, paired)
  {
    unpaired := [];
    for i := 0 to |allMedia|
      invariant unpaired == Without(allMedia[..i], paired)
    {
      assert allMedia[..i + 1][..i] == allMedia[..i];
      if allMedia[i] !in paired {
        unpaired := unpaired + [allMedia[i]];
      }
    }
    assert allMedia[..|allMedia|] == allMedia;
  }

  /** The loop over the pairs: a sidecar that cannot be read or parsed is
      skipped (`continue`), any other gives a record. */
  method ReadSidecars(pairs: seq<(Path, Path)>, files: Files) returns (list: seq<MediaMetadata>)
    ensures list == PairedRecords(pairs, files)
  {
    list := [];
    for k := 0 to |pairs|
      invariant list == PairedRecords(pairs[..k], files)
    {
      assert pairs[..k + 1][..k] == pairs[..k];
      var (mediaPath, jsonPath) := pairs[k];
      if jsonPath !in files || !files[jsonPath].Parsed? {
        continue;
      }
      list := list + [SidecarRecord(mediaPath, jsonPath, files[jsonPath].value)];
    }
    assert pairs[..|pairs|] == pairs;
  }

  /** The loop over the unpaired files, guessing each date from the file
      name when `guess` holds. */
  method RecordUnpaired(unpaired: seq<Path>, guess: bool) returns (records: seq<MediaMetadata>, failed: seq<Path>)
    ensures records == UnpairedRecords(unpaired, guess)
    ensures failed == FailedGuesses(unpaired, guess)
  {
    records := [];
    failed := [];
    for k := 0 to |unpaired|
      invariant records == UnpairedRecords(unpaired[..k], guess)
      invariant failed == FailedGuesses(unpaired[..k], guess)
    {
      var record, guessFailed := RecordOne(unpaired[k], guess);
      UnpairedRecordsStep(unpaired, k, guess);
      FailedGuessesStep(unpaired, k, guess);
      if guessFailed {
        failed := failed + [unpaired[k]];
      }
      records := records + [record];
    }
    assert unpaired[..|unpaired|] == unpaired;
  }

  /** The record of one unpaired file, and whether guessing its date
      failed. */
  method RecordOne(mediaPath: Path, guess: bool) returns (record: MediaMetadata, guessFailed: bool)
    ensures record == UnpairedRecord(mediaPath, guess)
    ensures guessFailed == (guess && FilenameDateGuess.ExtractDateFromFilename(FileName(mediaPath)).None?)
  {
    var exifDate: Option<string>;
    guessFailed := false;
    if guess {
      var date := FilenameDateGuess.ExtractDateFromFilename(FileName(mediaPath));
      if date.Some? {
        exifDate := date;
      } else {
        guessFailed := true;
        exifDate := None;
      }
    } else {
      exifDate := None;
    }
    record := MediaMetadata(mediaPath, [], exifDate, None, None, None, None, None);
  }

  lemma UnpairedRecordsStep(ps: seq<Path>, k: nat, guess: bool)
    requires k < |ps|
    ensures UnpairedRecords(ps[..k + 1], guess) == UnpairedRecords(ps[..k], guess) + [UnpairedRecord(ps[k], guess)]
  {
    var a := UnpairedRecords(ps[..k + 1], guess);
    var b := UnpairedRecords(ps[..k], guess) + [UnpairedRecord(ps[k], guess)];
    assert |a| == |b|;
    forall j | 0 <= j < |a|
      ensures a[j] == b[j]
    {
      assert ps[..k + 1][j] == ps[j];
      if j < k {
        assert ps[..k][j] == ps[j];
      }
    }
  }

  /** One more unpaired file adds itself to the failed guesses exactly when
      guessing is on and its name gives no date. */
  lemma FailedGuessesStep(ps: seq<Path>, k: nat, guess: bool)
    requires k < |ps|
    ensures FailedGuesses(ps[..k + 1], guess) == FailedGuesses(ps[..k], guess)
      + (if guess && FilenameDateGuess.ExtractDateFromFilename(FileName(ps[k])).None? then [ps[k]] else [])
  {
    assert ps[..k + 1][..k] == ps[..k];
  }
}
