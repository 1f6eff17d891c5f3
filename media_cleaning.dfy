/** src/media_cleaning.rs: moving WhatsApp images and screenshots (with their
    sidecars) into `Other Images/Whatsapp` and `Other Images/Screenshots`, and
    renaming stray sidecars such as `IMG_1.jpg(1).json` or
    `IMG_1.jpg.supplemental-metadata.json` to `IMG_1.jpg.json`.

    The filesystem is the set of paths of existing regular files; a rename
    that fails (its source is gone) leaves the set as it was, since the
    source ignores rename errors. Directories are not modelled. */
module MediaCleaning {
  import opened Text
  import opened Paths
  import opened Pattern

  // ------------------------------------------------------------ patterns

  /** `(?i)^(IMG-\d{8}-WA\d+|IMG-WA\d+|WA\d+|VID-\d{8}-WA\d+|VID-WA\d+|
      WhatsApp Image <date> at <time>|WhatsApp Video <date> at <time>)`,
      one pattern per alternative. */
  const WhatsAppPatterns: seq<Pattern> := [
    [Lit("IMG-"), Digits(8), Lit("-WA"), DigitsFrom(1)],
    [Lit("IMG-WA"), DigitsFrom(1)],
    [Lit("WA"), DigitsFrom(1)],
    [Lit("VID-"), Digits(8), Lit("-WA"), DigitsFrom(1)],
    [Lit("VID-WA"), DigitsFrom(1)],
    [Lit("WhatsApp Image "), Digits(4), Lit("-"), Digits(2), Lit("-"), Digits(2), Lit(" at "),
     Digits(2), Lit("."), Digits(2), Lit("."), Digits(2)],
    [Lit("WhatsApp Video "), Digits(4), Lit("-"), Digits(2), Lit("-"), Digits(2), Lit(" at "),
     Digits(2), Lit("."), Digits(2), Lit("."), Digits(2)]]

  /** Screenshot names in other languages and of other tools, matched as
      plain words at the start of the name. */
  const ScreenshotWords: seq<string> := [
    "スクリーンショット", "Снимок экрана", "Captura de pantalla", "Capture d'écran", "Bildschirmfoto",
    "Istantanea", "Skjermbilde", "Skärmbild", "Ekran görüntüsü", "Zrzut ekranu", "PrtSc", "Snip"]

  /** `(?i)^(Screenshot(_| )?<date>(-| )?\d{2}(-|\.|:)?\d{2}(-|\.|:)?\d{2}|
      Screenshot \(\d+\)|Screen Shot <date> at <time>|Screenshot_\d+|
      Screenshot_\d{8}-\d{6}|<words>)`, one pattern per alternative and the
      words as one choice. An optional group `(x|y)?` is the choice
      ["x", "y", ""], tried in that order as the greedy `?` does. */
  const ScreenshotPatterns: seq<Pattern> := [
    [Lit("Screenshot"), Choice(["_", " ", ""]), Digits(4), Lit("-"), Digits(2), Lit("-"), Digits(2),
     Choice(["-", " ", ""]), Digits(2), Choice(["-", ".", ":", ""]), Digits(2), Choice(["-", ".", ":", ""]), Digits(2)],
    [Lit("Screenshot ("), DigitsFrom(1), Lit(")")],
    [Lit("Screen Shot "), Digits(4), Lit("-"), Digits(2), Lit("-"), Digits(2), Lit(" at "),
     Digits(2), Lit("."), Digits(2), Lit("."), Digits(2)],
    [Lit("Screenshot_"), DigitsFrom(1)],
    [Lit("Screenshot_"), Digits(8), Lit("-"), Digits(6)],
    [Choice(ScreenshotWords)]]

  /** Some alternative matches at the start of the name, ignoring case. */
  predicate AnyMatchesStart(ps: seq<Pattern>, name: string)
    decreases |ps|
  {
    ps != [] && (MatchesStartIgnoringCase(ps[0], name) || AnyMatchesStart(ps[1..], name))
  }

  predicate IsWhatsAppName(name: string) {
    AnyMatchesStart(WhatsAppPatterns, name)
  }

  predicate IsScreenshotName(name: string) {
    AnyMatchesStart(ScreenshotPatterns, name)
  }

  datatype Folder = WhatsAppFolder | ScreenshotsFolder

  function FolderName(f: Folder): string {
    match f
    case WhatsAppFolder => "Whatsapp"
    case ScreenshotsFolder => "Screenshots"
  }

  /** Where a file goes: the WhatsApp test is made first. */
  function Route(name: string): (r: Option<Folder>)
    ensures r == Some(WhatsAppFolder) <==> IsWhatsAppName(name)
    ensures r == Some(ScreenshotsFolder) <==> !IsWhatsAppName(name) && IsScreenshotName(name)
  {
    if IsWhatsAppName(name) then Some(WhatsAppFolder)
    else if IsScreenshotName(name) then Some(ScreenshotsFolder)
    else None
  }

  /** `base/Other Images/Whatsapp` or `base/Other Images/Screenshots`. */
  function FolderPath(base: Path, f: Folder): Path {
    base + ["Other Images", FolderName(f)]
  }

  // ------------------------------------------------ what the patterns accept

  lemma {:induction false} AnyMatchesStartSome(ps: seq<Pattern>, name: string)
    requires AnyMatchesStart(ps, name)
    ensures exists k :: 0 <= k < |ps| && MatchesStartIgnoringCase(ps[k], name)
    decreases |ps|
  {
    if !MatchesStartIgnoringCase(ps[0], name) {
      AnyMatchesStartSome(ps[1..], name);
      var k :| 0 <= k < |ps[1..]| && MatchesStartIgnoringCase(ps[1..][k], name);
      assert ps[k + 1] == ps[1..][k];
    }
  }

  /** The opening of a lower-cased WhatsApp name: "im", "v" or "w". */
  predicate WhatsAppOpening(l: string) {
    |l| >= 2 && ((l[0] == 'i' && l[1] == 'm') || l[0] == 'v' || l[0] == 'w')
  }

  /** The opening of a lower-cased screenshot name: never "v" or "w", and
      "is" rather than "im". */
  predicate ScreenshotOpening(l: string) {
    |l| >= 2 && l[0] != 'v' && l[0] != 'w' && (l[0] == 'i' ==> l[1] == 's')
  }

  /** The patterns are anchored: a WhatsApp name starts with one of the
      alternatives' leading words, whatever follows. */
  lemma WhatsAppNameOpening(name: string)
    requires IsWhatsAppName(name)
    ensures WhatsAppOpening(Lower(name))
  {
    AnyMatchesStartSome(WhatsAppPatterns, name);
    var k :| 0 <= k < |WhatsAppPatterns| && MatchesStartIgnoringCase(WhatsAppPatterns[k], name);
    var w := WhatsAppPatterns[k][0].words[0];
    StartIgnoringCaseLiteral(WhatsAppPatterns[k], name, w);
    WhatsAppLeadingWords(k);
    assert Lower(name)[..|Lower(w)|] == Lower(w);
    assert Lower(name)[0] == Lower(w)[0] && Lower(name)[1] == Lower(w)[1];
  }

  lemma WhatsAppLeadingWords(k: nat)
    requires k < |WhatsAppPatterns|
    ensures WhatsAppPatterns[k] != [] && WhatsAppPatterns[k][0].Choice? && |WhatsAppPatterns[k][0].words| == 1
    ensures WhatsAppPatterns[k][0] == Lit(WhatsAppPatterns[k][0].words[0])
    ensures WhatsAppOpening(Lower(WhatsAppPatterns[k][0].words[0]))
  {
  }

  lemma ScreenshotNameOpening(name: string)
    requires IsScreenshotName(name)
    ensures ScreenshotOpening(Lower(name))
  {
    AnyMatchesStartSome(ScreenshotPatterns, name);
    var k :| 0 <= k < |ScreenshotPatterns| && MatchesStartIgnoringCase(ScreenshotPatterns[k], name);
    var q := LowerPattern(ScreenshotPatterns[k]);
    MatchAtLeadingWord(q, Lower(name), 0);
    var w :| w in q[0].words && OccursAt(w, Lower(name), 0);
    ScreenshotLeadingWords(k, w);
    assert Lower(name)[..|w|] == w;
    assert Lower(name)[0] == w[0] && Lower(name)[1] == w[1];
  }

  lemma ScreenshotLeadingWords(k: nat, w: string)
    requires k < |ScreenshotPatterns|
    requires ScreenshotPatterns[k] != [] && ScreenshotPatterns[k][0].Choice?
    requires w in LowerPattern(ScreenshotPatterns[k])[0].words
    ensures ScreenshotOpening(w)
  {
    var ws := ScreenshotPatterns[k][0].words;
    var n :| 0 <= n < |ws| && w == Lower(ws[n]);
    if k < 5 {
      assert ws == [ws[0]] && n == 0;
      ScreenshotLiteralOpening(k);
    } else {
      ScreenshotWordOpening(n);
    }
  }

  lemma ScreenshotLiteralOpening(k: nat)
    requires k < 5
    ensures ScreenshotPatterns[k][0] == Lit(ScreenshotPatterns[k][0].words[0])
    ensures ScreenshotOpening(Lower(ScreenshotPatterns[k][0].words[0]))
  {
  }

  lemma ScreenshotWordOpening(n: nat)
    requires n < |ScreenshotWords|
    ensures ScreenshotPatterns[5][0].words == ScreenshotWords
    ensures ScreenshotOpening(Lower(ScreenshotWords[n]))
  {
  }

  /** No name is both a WhatsApp name and a screenshot name, so the order in
      which the two tests are made never changes where a file goes. */
  lemma NoNameIsBoth(name: string)
    ensures !(IsWhatsAppName(name) && IsScreenshotName(name))
    ensures Route(name) == Some(ScreenshotsFolder) <==> IsScreenshotName(name)
  {
    if IsWhatsAppName(name) && IsScreenshotName(name) {
      WhatsAppNameOpening(name);
      ScreenshotNameOpening(name);
    }
  }

  /** Names that differ only in the case of ASCII letters go to the same place. */
  lemma RouteIgnoresCase(a: string, b: string)
    requires Lower(a) == Lower(b)
    ensures Route(a) == Route(b)
  {
    assert forall p :: MatchesStartIgnoringCase(p, a) == MatchesStartIgnoringCase(p, b);
    AnyMatchesStartSame(WhatsAppPatterns, a, b);
    AnyMatchesStartSame(ScreenshotPatterns, a, b);
  }

  lemma {:induction false} AnyMatchesStartSame(ps: seq<Pattern>, a: string, b: string)
    requires Lower(a) == Lower(b)
    ensures AnyMatchesStart(ps, a) == AnyMatchesStart(ps, b)
    decreases |ps|
  {
    if ps != [] {
      AnyMatchesStartSame(ps[1..], a, b);
    }
  }

  /** A name such as "WA0042.jpg" or "wa7" — "WA" in any case, then a digit —
      is a WhatsApp name. */
  lemma NumberedWhatsAppName(name: string)
    requires |name| >= 3 && Lower(name[..2]) == "wa" && IsAsciiDigit(name[2])
    ensures Route(name) == Some(WhatsAppFolder)
  {
    var l := Lower(name);
    assert l[..2] == Lower(name[..2]);
    LiteralThenDigits("wa", l);
    LowerWaDigits();
    assert MatchesStartIgnoringCase(WhatsAppPatterns[2], name);
    assert WhatsAppPatterns[1..][1..] == WhatsAppPatterns[2..];
  }

  lemma LowerWaDigits()
    ensures LowerPattern(WhatsAppPatterns[2]) == [Lit("wa"), DigitsFrom(1)]
  {
    var q := LowerPattern(WhatsAppPatterns[2]);
    assert Lower("WA") == "wa";
    assert q[0].words == [Lower("WA")];
    assert q[1] == DigitsFrom(1);
    assert q == [q[0], q[1]];
  }

  /** A name such as "Screenshot_20230101-120000.png" — "screenshot_" in any
      case, then a digit — is a screenshot name. */
  lemma NumberedScreenshotName(name: string)
    requires |name| >= 12 && Lower(name[..11]) == "screenshot_" && IsAsciiDigit(name[11])
    ensures Route(name) == Some(ScreenshotsFolder)
  {
    var l := Lower(name);
    assert l[..11] == Lower(name[..11]);
    LiteralThenDigits("screenshot_", l);
    LowerScreenshotDigits();
    assert MatchesStartIgnoringCase(ScreenshotPatterns[3], name);
    assert AnyMatchesStart(ScreenshotPatterns[3..], name);
    assert ScreenshotPatterns[2..][1..] == ScreenshotPatterns[3..];
    assert AnyMatchesStart(ScreenshotPatterns[2..], name);
    assert ScreenshotPatterns[1..][1..] == ScreenshotPatterns[2..];
    assert AnyMatchesStart(ScreenshotPatterns[1..], name);
    NoNameIsBoth(name);
  }

  lemma LowerScreenshotDigits()
    ensures LowerPattern(ScreenshotPatterns[3]) == [Lit("screenshot_"), DigitsFrom(1)]
  {
    var q := LowerPattern(ScreenshotPatterns[3]);
    assert Lower("Screenshot_") == "screenshot_";
    assert q[0].words == [Lower("Screenshot_")];
    assert q[1] == DigitsFrom(1);
    assert q == [q[0], q[1]];
  }

  // ------------------------------------------------------------- moving

  /** `fs::rename`: the file at `from`, if there is one, is now at `to`
      (replacing what was there). */
  function Rename(fs: set<Path>, from: Path, to: Path): set<Path> {
    if from in fs then (fs - {from}) + {to} else fs
  }

  /** The sidecar moved along with a file:
      `path.with_extension(format!("{}.json", extension or ""))`. */
  function CompanionSidecar(p: Path): Path
    requires p != []
  {
    var ext := match Extension(p) case Some(e) => e case None => "";
    WithExtension(p, ext + ".json")
  }

  /** The companion sidecar of `name.ext` is `name.ext.json`, in the same
      folder; for a name without extension it is `name..json`. */
  lemma CompanionSidecarName(p: Path)
    requires p != []
    ensures Parent(CompanionSidecar(p)) == Parent(p)
    ensures Extension(p).Some? ==> FileName(CompanionSidecar(p)) == FileName(p) + ".json"
    ensures Extension(p).None? ==> FileName(CompanionSidecar(p)) == FileName(p) + "..json"
    ensures |FileName(CompanionSidecar(p))| >= |FileName(p)| + 5
  {
    var e := match Extension(p) case Some(e) => e case None => "";
    assert e + ".json" != "";
    if Extension(p).Some? {
      AppendAssoc(Stem(p) + ".", e, ".json");
    } else {
      AppendAssoc(Stem(p), ".", ".json");
    }
  }

  /** A routed file moved into `dir`, then its companion sidecar when it
      exists at that point. */
  function MoveTo(fs: set<Path>, path: Path, dir: Path): set<Path>
    requires path != []
  {
    var moved := Rename(fs, path, dir + [FileName(path)]);
    var sidecar := CompanionSidecar(path);
    if sidecar in moved then Rename(moved, sidecar, dir + [FileName(sidecar)]) else moved
  }

  /** The whole new filesystem after moving a file: the file and its sidecar
      are gone from where they were and present in `dir`; nothing else changes. */
  lemma MoveToEffect(fs: set<Path>, path: Path, dir: Path)
    requires path != []
    ensures var sidecar := CompanionSidecar(path);
      MoveTo(fs, path, dir) ==
        (fs - {path} - {sidecar})
        + (if path in fs then {dir + [FileName(path)]} else {})
        + (if sidecar in fs then {dir + [FileName(sidecar)]} else {})
  {
    var sidecar := CompanionSidecar(path);
    var dest := dir + [FileName(path)];
    CompanionSidecarName(path);
    assert FileName(sidecar) != FileName(path);
    assert sidecar != path && sidecar != dest;
  }

  /** The walk with the separation applied to each file in turn. */
  function Separated(fs: set<Path>, base: Path, walk: seq<Path>): set<Path>
    requires forall k :: 0 <= k < |walk| ==> walk[k] != []
  {
    if walk == [] then fs
    else
      var last := walk[|walk| - 1];
      var before := Separated(fs, base, walk[..|walk| - 1]);
      match Route(FileName(last))
      case Some(f) => MoveTo(before, last, FolderPath(base, f))
      case None => before
  }

  /** How many walked files have a WhatsApp or screenshot name. */
  function RoutedCount(walk: seq<Path>): (n: nat)
    ensures n <= |walk|
  {
    if walk == [] then 0
    else RoutedCount(walk[..|walk| - 1]) + (if Route(FileName(walk[|walk| - 1])).Some? then 1 else 0)
  }

  /** `ask_and_separate_whatsapp_screenshots`: when enabled, every walked file
      with a WhatsApp or screenshot name is moved with its sidecar into its
      folder, and counted; when disabled nothing happens. `walk` is the list
      of regular files collected before the loop. */
  method SeparateWhatsAppScreenshots(base: Path, separate: bool, fs0: set<Path>, walk: seq<Path>)
    returns (fs: set<Path>, processed: nat)
    requires forall k :: 0 <= k < |walk| ==> walk[k] != []
    ensures !separate ==> fs == fs0 && processed == 0
    ensures separate ==> fs == Separated(fs0, base, walk) && processed == RoutedCount(walk)
  {
    if !separate {
      return fs0, 0;
    }
    var whatsappDir := FolderPath(base, WhatsAppFolder);
    var screenshotsDir := FolderPath(base, ScreenshotsFolder);
    fs := fs0;
    processed := 0;
    for i := 0 to |walk|
      invariant fs == Separated(fs0, base, walk[..i])
      invariant processed == RoutedCount(walk[..i])
    {
      SeparatedStep(fs0, base, walk, i);
      var path := walk[i];
      var filename := FileName(path);
      if IsWhatsAppName(filename) {
        fs := MoveWithSidecar(fs, path, whatsappDir);
        processed := processed + 1;
        continue;
      }
      if IsScreenshotName(filename) {
        fs := MoveWithSidecar(fs, path, screenshotsDir);
        processed := processed + 1;
      }
    }
    assert walk[..|walk|] == walk;
  }

  /** The move of one routed file into `dir`, then of its sidecar when it
      exists. */
  method MoveWithSidecar(fs0: set<Path>, path: Path, dir: Path) returns (fs: set<Path>)
    requires path != []
    ensures fs == MoveTo(fs0, path, dir)
  {
    fs := Rename(fs0, path, dir + [FileName(path)]);
    var jsonPath := CompanionSidecar(path);
    if jsonPath in fs {
      fs := Rename(fs, jsonPath, dir + [FileName(jsonPath)]);
    }
  }

  // ------------------------------------------------- the whole separation

  lemma {:induction false} AnyMatchesStartExtends(ps: seq<Pattern>, name: string, t: string)
    requires AnyMatchesStart(ps, name)
    ensures AnyMatchesStart(ps, name + t)
    decreases |ps|
  {
    if MatchesStartIgnoringCase(ps[0], name) {
      MatchesStartExtends(ps[0], name, t);
    } else {
      AnyMatchesStartExtends(ps[1..], name, t);
    }
  }

  /** The patterns are anchored only at the start, so a routed name keeps its
      folder whatever is appended to it, such as the ".json" of its sidecar. */
  lemma RouteExtends(name: string, t: string)
    requires Route(name).Some?
    ensures Route(name + t) == Route(name)
  {
    if IsWhatsAppName(name) {
      AnyMatchesStartExtends(WhatsAppPatterns, name, t);
    } else {
      AnyMatchesStartExtends(ScreenshotPatterns, name, t);
      NoNameIsBoth(name + t);
    }
  }

  /** A file's companion sidecar goes where the file goes. */
  lemma RouteOfCompanion(p: Path)
    requires p != [] && Route(FileName(p)).Some?
    ensures Route(FileName(CompanionSidecar(p))) == Route(FileName(p))
  {
    CompanionSidecarName(p);
    if Extension(p).Some? {
      RouteExtends(FileName(p), ".json");
    } else {
      RouteExtends(FileName(p), "..json");
    }
  }

  /** A file already in the folder its name is routed to. */
  predicate Settled(base: Path, d: Path) {
    d != [] && Route(FileName(d)).Some? && Parent(d) == FolderPath(base, Route(FileName(d)).value)
  }

  /** Moving `q` into `dir` leaves a file where it is when, should it be `q`
      or `q`'s sidecar, it is already in `dir`. */
  lemma MoveToKeeps(fs: set<Path>, q: Path, dir: Path, d: Path)
    requires q != [] && d != [] && d in fs
    requires d == q || d == CompanionSidecar(q) ==> Parent(d) == dir
    ensures d in MoveTo(fs, q, dir)
  {
    MoveToEffect(fs, q, dir);
    if d == q {
      assert d == dir + [FileName(q)];
    } else if d == CompanionSidecar(q) {
      assert d == dir + [FileName(CompanionSidecar(q))];
    }
  }

  /** Moving any routed file leaves a settled file where it is: if it is the
      file moved or its sidecar, it is moved onto itself. */
  lemma MoveToKeepsSettled(fs: set<Path>, q: Path, base: Path, d: Path)
    requires q != [] && Route(FileName(q)).Some?
    requires Settled(base, d) && d in fs
    ensures d in MoveTo(fs, q, FolderPath(base, Route(FileName(q)).value))
  {
    if d == CompanionSidecar(q) {
      RouteOfCompanion(q);
    }
    MoveToKeeps(fs, q, FolderPath(base, Route(FileName(q)).value), d);
  }

  /** One turn of the separation loop. */
  lemma SeparatedStep(fs: set<Path>, base: Path, walk: seq<Path>, i: nat)
    requires forall k :: 0 <= k < |walk| ==> walk[k] != []
    requires i < |walk|
    ensures RoutedCount(walk[..i + 1]) == RoutedCount(walk[..i]) + if Route(FileName(walk[i])).Some? then 1 else 0
    ensures Route(FileName(walk[i])).None? ==> Separated(fs, base, walk[..i + 1]) == Separated(fs, base, walk[..i])
    ensures Route(FileName(walk[i])).Some? ==>
      Separated(fs, base, walk[..i + 1]) == MoveTo(Separated(fs, base, walk[..i]), walk[i], FolderPath(base, Route(FileName(walk[i])).value))
  {
    assert walk[..i + 1][..i] == walk[..i];
    assert walk[..i + 1][i] == walk[i];
  }

  /** One turn of the loop leaves a settled file where it is. */
  lemma SeparatedStepKeepsSettled(fs: set<Path>, base: Path, walk: seq<Path>, i: nat, d: Path)
    requires forall k :: 0 <= k < |walk| ==> walk[k] != []
    requires i < |walk| && Settled(base, d) && d in Separated(fs, base, walk[..i])
    ensures d in Separated(fs, base, walk[..i + 1])
  {
    SeparatedStep(fs, base, walk, i);
    if Route(FileName(walk[i])).Some? {
      MoveToKeepsSettled(Separated(fs, base, walk[..i]), walk[i], base, d);
    }
  }

  lemma {:induction false} SeparatedKeepsSettled(fs: set<Path>, base: Path, walk: seq<Path>, i: nat, d: Path)
    requires forall k :: 0 <= k < |walk| ==> walk[k] != []
    requires i <= |walk| && Settled(base, d) && d in Separated(fs, base, walk[..i])
    ensures d in Separated(fs, base, walk)
    decreases |walk| - i
  {
    if i == |walk| {
      assert walk[..i] == walk;
    } else {
      SeparatedStepKeepsSettled(fs, base, walk, i, d);
      SeparatedKeepsSettled(fs, base, walk, i + 1, d);
    }
  }

  /** A routed file of the walk that still exists at its turn ends up in its
      folder under its own name, and so does its sidecar when that exists at
      the same turn; later moves never take them out again. */
  lemma SeparatedArrival(fs: set<Path>, base: Path, walk: seq<Path>, i: nat)
    requires forall k :: 0 <= k < |walk| ==> walk[k] != []
    requires i < |walk| && Route(FileName(walk[i])).Some?
    ensures var p, before := walk[i], Separated(fs, base, walk[..i]);
      var dir := FolderPath(base, Route(FileName(p)).value);
      && (p in before ==> dir + [FileName(p)] in Separated(fs, base, walk))
      && (CompanionSidecar(p) in before ==> dir + [FileName(CompanionSidecar(p))] in Separated(fs, base, walk))
  {
    var p, before := walk[i], Separated(fs, base, walk[..i]);
    var dir := FolderPath(base, Route(FileName(p)).value);
    SeparatedStep(fs, base, walk, i);
    if p in before {
      MovedArrives(before, p, dir);
      ArrivedSettled(base, p, dir + [FileName(p)]);
      SeparatedKeepsSettled(fs, base, walk, i + 1, dir + [FileName(p)]);
    }
    if CompanionSidecar(p) in before {
      MovedArrives(before, p, dir);
      RouteOfCompanion(p);
      ArrivedSettled(base, CompanionSidecar(p), dir + [FileName(CompanionSidecar(p))]);
      SeparatedKeepsSettled(fs, base, walk, i + 1, dir + [FileName(CompanionSidecar(p))]);
    }
  }

  /** After moving `p` into `dir`, `p` and its companion, if they existed,
      are in `dir` under their names. */
  lemma MovedArrives(fs: set<Path>, p: Path, dir: Path)
    requires p != []
    ensures p in fs ==> dir + [FileName(p)] in MoveTo(fs, p, dir)
    ensures CompanionSidecar(p) in fs ==> dir + [FileName(CompanionSidecar(p))] in MoveTo(fs, p, dir)
  {
    MoveToEffect(fs, p, dir);
  }

  /** A file placed in the folder its name is routed to is settled. */
  lemma ArrivedSettled(base: Path, named: Path, d: Path)
    requires Route(FileName(named)).Some?
    requires d == FolderPath(base, Route(FileName(named)).value) + [FileName(named)]
    ensures Settled(base, d)
  {
  }

  /** Moving `q` into `dir` does not touch a path outside `dir` that is
      neither `q` nor its sidecar. */
  lemma MoveToFrame(fs: set<Path>, q: Path, dir: Path, x: Path)
    requires q != [] && x != q && x != CompanionSidecar(q) && Parent(x) != dir
    ensures x in MoveTo(fs, q, dir) <==> x in fs
  {
    MoveToEffect(fs, q, dir);
    assert Parent(dir + [FileName(q)]) == dir;
    assert Parent(dir + [FileName(CompanionSidecar(q))]) == dir;
  }

  /** `q` is neither a routed file of the walk nor the sidecar of one, and is
      not in either target folder. */
  predicate Untouched(base: Path, walk: seq<Path>, q: Path)
    requires forall k :: 0 <= k < |walk| ==> walk[k] != []
  {
    && (forall k :: 0 <= k < |walk| && Route(FileName(walk[k])).Some? ==>
          q != walk[k] && q != CompanionSidecar(walk[k]))
    && Parent(q) != FolderPath(base, WhatsAppFolder) && Parent(q) != FolderPath(base, ScreenshotsFolder)
  }

  /** An untouched path exists after the separation exactly when it existed
      before: unrouted files stay where they are and nothing else appears. */
  lemma {:induction false} SeparatedFrame(fs: set<Path>, base: Path, walk: seq<Path>, q: Path)
    requires forall k :: 0 <= k < |walk| ==> walk[k] != []
    ensures Untouched(base, walk, q) ==> (q in Separated(fs, base, walk) <==> q in fs)
    decreases |walk|
  {
    if walk != [] && Untouched(base, walk, q) {
      var init, last := walk[..|walk| - 1], walk[|walk| - 1];
      assert forall k :: 0 <= k < |init| ==> init[k] == walk[k];
      assert Untouched(base, init, q);
      SeparatedFrame(fs, base, init, q);
      if Route(FileName(last)).Some? {
        MoveToFrame(Separated(fs, base, init), last, FolderPath(base, Route(FileName(last)).value), q);
      }
    }
  }

  // ------------------------------------------------------ sidecar renaming

  /** The extensions (lower case) of the files whose sidecars are renamed:
      12 image and 24 video formats. */
  const MediaExtensions: seq<string> := [
    "jpg", "jpeg", "png", "webp", "heic", "heif", "bmp", "tiff", "gif", "avif", "jxl", "jfif",
    "mp4", "mov", "mkv", "avi", "webm", "3gp", "m4v", "mpg", "mpeg", "mts", "m2ts", "ts", "flv",
    "f4v", "wmv", "asf", "rm", "rmvb", "vob", "ogv", "mxf", "dv", "divx", "xvid"]

  predicate IsMediaFile(p: Path) {
    Extension(p).Some? && Listed(Lower(Extension(p).value), MediaExtensions)
  }

  /** A file named `jsonName` in the folder of the media file `name` is renamed
      when its name starts with `name`, ends with ".json" and is not already
      `name.json`. */
  predicate IsRenameCandidate(jsonName: string, name: string) {
    StartsWith(jsonName, name) && EndsWith(jsonName, ".json") && jsonName != name + ".json"
  }

  /** `parent.join(format!("{}.json", filename))`. */
  function CanonicalSidecar(path: Path): Path {
    Parent(path) + [FileName(path) + ".json"]
  }

  /** The files of the media file's folder that are renamed for it. */
  function Candidates(fs: set<Path>, path: Path): set<Path> {
    set q | q in fs && IsCandidateOf(q, path)
  }

  /** `q` is a file of the folder of `path` renamed for it. */
  predicate IsCandidateOf(q: Path, path: Path) {
    q != [] && Parent(q) == Parent(path) && IsRenameCandidate(FileName(q), FileName(path))
  }

  /** Every file of `moved` renamed, one after the other, to `target`. */
  function RenamedTo(fs: set<Path>, moved: set<Path>, target: Path): set<Path> {
    (fs - moved) + (if moved == {} then {} else {target})
  }

  /** Renaming one more candidate `q` of `c` extends the renamed set. */
  lemma RenamedToStep(fs: set<Path>, c: set<Path>, visited: set<Path>, q: Path, target: Path)
    requires q in fs && q in c && q !in visited && q != target
    ensures Rename(RenamedTo(fs, c * visited, target), q, target) == RenamedTo(fs, c * (visited + {q}), target)
  {
    assert c * (visited + {q}) == c * visited + {q};
  }

  /** Visiting a file that is not a candidate renames nothing. */
  lemma RenamedToSkip(fs: set<Path>, c: set<Path>, visited: set<Path>, q: Path, target: Path)
    requires q !in c
    ensures RenamedTo(fs, c * (visited + {q}), target) == RenamedTo(fs, c * visited, target)
  {
    assert c * (visited + {q}) == c * visited;
  }

  /** A candidate is never the canonical sidecar itself. */
  lemma CandidateNotTarget(q: Path, path: Path)
    requires IsCandidateOf(q, path)
    ensures q != CanonicalSidecar(path)
  {
  }

  /** One walked file: when it is an existing media file, every candidate in
      its folder is renamed to its canonical sidecar. */
  function CleanStep(fs: set<Path>, path: Path): set<Path> {
    if path in fs && IsMediaFile(path) then RenamedTo(fs, Candidates(fs, path), CanonicalSidecar(path))
    else fs
  }

  function Cleaned(fs: set<Path>, walk: seq<Path>): set<Path> {
    if walk == [] then fs else CleanStep(Cleaned(fs, walk[..|walk| - 1]), walk[|walk| - 1])
  }

  /** `clean_json_filenames`. `walk` is the walk in order; the directory
      listing of the inner loop is visited in an unspecified order, which
      does not change the result. */
  method CleanJsonFilenames(fs0: set<Path>, walk: seq<Path>) returns (fs: set<Path>)
    ensures fs == Cleaned(fs0, walk)
  {
    fs := fs0;
    for i := 0 to |walk|
      invariant fs == Cleaned(fs0, walk[..i])
    {
      assert walk[..i + 1][..i] == walk[..i];
      var path := walk[i];
      if path in fs && IsMediaFile(path) {
        fs := RenameSidecars(fs, path);
      }
    }
    assert walk[..|walk|] == walk;
  }

  /** The inner loop over the listing of the media file's folder. */
  method RenameSidecars(fs0: set<Path>, path: Path) returns (fs: set<Path>)
    requires path in fs0 && IsMediaFile(path)
    ensures fs == CleanStep(fs0, path)
  {
    var parent := Parent(path);
    var listing := set q | q in fs0 && q != [] && Parent(q) == parent;
    assert Candidates(fs0, path) <= listing;
    fs := RenameListed(fs0, path, listing);
  }

  /** Visiting the entries of `listing0` one by one, in any order, renames
      exactly the candidates. */
  method RenameListed(fs0: set<Path>, path: Path, listing0: set<Path>) returns (fs: set<Path>)
    requires forall q :: q in listing0 ==> q in fs0 && q != [] && Parent(q) == Parent(path)
    requires Candidates(fs0, path) <= listing0
    ensures fs == RenamedTo(fs0, Candidates(fs0, path), CanonicalSidecar(path))
  {
    ghost var c := Candidates(fs0, path);
    var listing := listing0;
    ghost var visited: set<Path> := {};
    fs := fs0;
    while listing != {}
      invariant listing !! visited && listing <= listing0
      invariant c <= listing + visited
      invariant fs == RenamedTo(fs0, c * visited, CanonicalSidecar(path))
      decreases |listing|
    {
      var q :| q in listing;
      fs := VisitEntry(fs0, fs, path, c, visited, q);
      ListingStep(c, listing, visited, q);
      listing := listing - {q};
      visited := visited + {q};
    }
    ListingDone(c, listing, visited);
  }

  /** Moving one entry from the listing to the visited entries keeps the
      candidates covered. */
  lemma ListingStep<T>(c: set<T>, listing: set<T>, visited: set<T>, q: T)
    requires listing !! visited && c <= listing + visited && q in listing
    ensures listing - {q} !! visited + {q}
    ensures c <= (listing - {q}) + (visited + {q})
  {
  }

  /** Once the listing is exhausted every candidate has been visited. */
  lemma ListingDone<T>(c: set<T>, listing: set<T>, visited: set<T>)
    requires listing == {} && c <= listing + visited
    ensures c * visited == c
  {
  }

  /** One entry of the listing: an existing file whose name makes it a
      candidate is renamed to the canonical sidecar. */
  method VisitEntry(fs0: set<Path>, fs: set<Path>, path: Path, ghost c: set<Path>, ghost visited: set<Path>,
                    q: Path) returns (fs': set<Path>)
    requires c == Candidates(fs0, path)
    requires q in fs0 && q != [] && Parent(q) == Parent(path) && q !in visited
    requires fs == RenamedTo(fs0, c * visited, CanonicalSidecar(path))
    ensures fs' == RenamedTo(fs0, c * (visited + {q}), CanonicalSidecar(path))
  {
    var target := Parent(path) + [FileName(path) + ".json"];
    if q in fs && IsRenameCandidate(FileName(q), FileName(path)) {
      assert IsCandidateOf(q, path) && q in c;
      CandidateNotTarget(q, path);
      RenamedToStep(fs0, c, visited, q, target);
      fs' := Rename(fs, q, target);
    } else {
      assert q !in c;
      RenamedToSkip(fs0, c, visited, q, target);
      fs' := fs;
    }
  }

  // ---------------------------------------------- what the cleaning does

  /** A file whose name ends in ".json" is never a media file: its extension
      is "json", or it has none (the name ".json"). */
  lemma JsonNameNotMedia(q: Path)
    requires EndsWith(FileName(q), ".json")
    ensures !IsMediaFile(q)
  {
    var name := FileName(q);
    LastDotOfJsonName(name);
    if |name| > 5 {
      assert name[|name| - 4..] == name[|name| - 5..][1..];
      assert Extension(q) == Some("json");
      JsonNotMediaExtension();
    }
  }

  lemma JsonNotMediaExtension()
    ensures !Listed(Lower("json"), MediaExtensions)
  {
    assert Lower("json") == "json";
    JsonNotInMediaExtensions();
    ListedIsIn("json", MediaExtensions);
  }

  lemma JsonNotInMediaExtensions()
    ensures "json" !in MediaExtensions
  {
  }

  /** The last dot of a name ending in ".json" is the one of ".json". */
  lemma LastDotOfJsonName(name: string)
    requires EndsWith(name, ".json")
    ensures LastDot(name) == if |name| == 5 then None else Some(|name| - 5)
  {
    var d := |name| - 5;
    assert name[d..] == ".json";
    assert name[d + 1..] == "json";
    LastIndexOfAt(name, '.', d);
  }

  /** What one step of the cleaning does to the folder of a media file: no
      candidate is left, the canonical sidecar exists exactly when it already
      did or some candidate was renamed to it, the media file itself stays and
      every other file is untouched. */
  lemma CleanStepEffect(fs: set<Path>, path: Path)
    requires path in fs && IsMediaFile(path)
    ensures Candidates(CleanStep(fs, path), path) == {}
    ensures CanonicalSidecar(path) in CleanStep(fs, path) <==>
      CanonicalSidecar(path) in fs || Candidates(fs, path) != {}
    ensures path in CleanStep(fs, path)
    ensures forall q :: q != CanonicalSidecar(path) && !IsCandidateOf(q, path) ==>
      (q in CleanStep(fs, path) <==> q in fs)
  {
    var c := Candidates(fs, path);
    var target := CanonicalSidecar(path);
    var after := CleanStep(fs, path);
    assert after == RenamedTo(fs, c, target);
    RenamedToMembers(fs, c, target);
    if IsCandidateOf(path, path) {
      JsonNameNotMedia(path);
    }
  }

  /** The files after renaming: the unmoved ones, and the target when
      something was moved. */
  lemma RenamedToMembers(fs: set<Path>, moved: set<Path>, target: Path)
    ensures forall q :: q in RenamedTo(fs, moved, target) <==>
      (q in fs && q !in moved) || (moved != {} && q == target)
  {
  }

  /** Cleaning the same media file twice renames nothing the second time. */
  lemma CleanStepIdempotent(fs: set<Path>, path: Path)
    ensures CleanStep(CleanStep(fs, path), path) == CleanStep(fs, path)
  {
    if path in fs && IsMediaFile(path) {
      CleanStepEffect(fs, path);
      var after := CleanStep(fs, path);
      assert RenamedTo(after, {}, CanonicalSidecar(path)) == after;
    }
  }

  /** One step neither creates nor removes a media file. */
  lemma CleanStepKeepsMedia(fs: set<Path>, path: Path, m: Path)
    requires IsMediaFile(m)
    ensures m in CleanStep(fs, path) <==> m in fs
  {
    if path in fs && IsMediaFile(path) {
      if m == CanonicalSidecar(path) {
        JsonNameNotMedia(m);
      }
      if IsCandidateOf(m, path) {
        JsonNameNotMedia(m);
      }
      CleanStepEffect(fs, path);
    }
  }

  /** The whole cleaning neither creates nor removes a media file: only
      sidecars are renamed. */
  lemma {:induction false} CleanedKeepsMedia(fs: set<Path>, walk: seq<Path>, m: Path)
    requires IsMediaFile(m)
    ensures m in Cleaned(fs, walk) <==> m in fs
    decreases |walk|
  {
    if walk != [] {
      CleanedKeepsMedia(fs, walk[..|walk| - 1], m);
      CleanStepKeepsMedia(Cleaned(fs, walk[..|walk| - 1]), walk[|walk| - 1], m);
    }
  }
}
