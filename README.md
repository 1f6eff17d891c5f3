# MetaSort core, modelled in Dafny

MetaSort organises a Google Photos Takeout export. It pairs every media file
with its JSON sidecar and reads the capture time, GPS position and camera
from the sidecar. When there is no sidecar, it can guess the capture time
from the file name. It writes the metadata back into the files with
exiftool, and copies every file into a dated folder tree under
`Media Files/`. This project models that core and proves what it does.

The model has one module per source file of the core, plus five support
modules in four files:

- `FilenameDateGuess` (`filename_date_guess.dfy`): the first-match cascade
  of `extract_date_from_filename`. It has the 24 patterns of the code, in
  the code's order, and the output layout of each.
- `MediaCleaning` (`media_cleaning.dfy`): two operations over a filesystem
  modelled as a set of paths.
  - Moving WhatsApp and screenshot images, and their `.json` companions,
    into `Other Images/`.
  - Renaming sidecars such as `IMG_1.jpg(1).json` to `IMG_1.jpg.json`.
- `MetadataExtraction` (`metadata_extraction.dfy`): pairing media files with
  sidecars, reading sidecars into `MediaMetadata` records, and the records
  of unpaired files, with or without a filename guess.
- `MetadataEmbed` (`metadata_embed.dfy`): choosing the date to embed, the
  exiftool argument list of each file, and the log entry of each file.
- `SortToFolders` (`sort_to_folders.dfy`) covers:
  - reading exiftool's report lines and the JSON date fallback;
  - parsing EXIF dates and month names;
  - the category of each file and its destination path;
  - the CSV report lists and the copies;
  - the final move of failed guesses.
- The support modules:
  - `Text` and `Paths` (`text.dfy`): ASCII text helpers, and paths as
    sequences of components with Rust's `extension`, `file_stem` and
    `with_extension`.
  - `Json` (`json.dfy`): the part of `serde_json::Value` that is read. It
    defines indexing (`v[key]` is the member of an object, and `Null` for a
    missing member or a value that is not an object), `as_str`, `as_f64` and
    `Option::or_else` as plain definitions; the properties that matter are
    proved where they are used (`TakenTimeOfTimestamp`, `GeoFieldFallback`).
  - `CivilTime` (`civil_time.dfy`): UTC conversion of Unix timestamps, as
    chrono does it, for years 0 to 9999.
  - `Pattern` (`pattern.dfy`): a small backtracking regular-expression
    matcher. Its semantics are the leftmost-first semantics of the `regex`
    crate.

Operations that change the filesystem step by step are methods with loops.
Each is proved equal to a recursive specification function. The properties
are lemmas about those functions.

Fifteen of the filename patterns (`samsung1` to `san1`) are raw strings that
write `\\d`. A raw string keeps both backslashes, so the regex engine sees
an escaped backslash followed by the letter `d`. These rules match only
names that contain a backslash followed by `d`s. They never match the
names given as examples in the comments beside them, such as
`20230101_123456`. The model keeps the code's behaviour, and
`BackslashRulesNeedBackslash` and `NoBackslashOnlyAsciiRules` state it. The
same escaping makes every `san1` match capture text that starts with a
backslash. So its day and year never parse, and its output is always
`1970:MM:01 00:00:00` (`MonthRuleOutput`).

## Model

| member | source | states |
|---|---|---|
| FilenameDateGuess.CascadeIsFirstMatch | src/filename_date_guess.rs:38-148 | the cascade returns the output of the first rule whose pattern matches the name, and None when no rule matches |
| FilenameDateGuess.FirstMatchingRule | src/filename_date_guess.rs:38-137 | the chosen rule index is in range and its pattern matches the name |
| FilenameDateGuess.FirstMatchingRuleIsEarliest | src/filename_date_guess.rs:38-137 | no rule before the chosen one matches; there is no choice exactly when no rule matches |
| FilenameDateGuess.FirstMatchingIs | src/filename_date_guess.rs:38-137 | a matching rule with no matching rule before it is the one chosen |
| FilenameDateGuess.CascadeIgnoresSilentTail | src/filename_date_guess.rs:38-148 | rules after the last matching one do not change the result |
| FilenameDateGuess.CascadeNoneWhenSilent | src/filename_date_guess.rs:148 | when no pattern matches, the result is None |
| FilenameDateGuess.NoneIffNoRuleMatches | src/filename_date_guess.rs:5-148 | the guess is None exactly when none of the 24 patterns matches |
| FilenameDateGuess.RuleWins | src/filename_date_guess.rs:38-147 | the guess is the output of the first matching rule |
| FilenameDateGuess.MonthNumber | src/filename_date_guess.rs:141-143 | an English month abbreviation maps to its month number 1 to 12; anything else maps to 1 |
| FilenameDateGuess.RenderShape | src/filename_date_guess.rs:40-77 | for digit captures of the right widths, each layout renders `YYYY:MM:DD HH:MM:SS`; its digits are the captures in order, then zeros |
| FilenameDateGuess.MidnightCase | src/filename_date_guess.rs:39-40 | the 8-digit date layout gives the captured digits followed by `000000` |
| FilenameDateGuess.DateTimeCase | src/filename_date_guess.rs:53-55 | the date-and-time layout gives exactly the 14 captured digits |
| FilenameDateGuess.PixelCase | src/filename_date_guess.rs:103-105 | the pxl layout, which uses only the first six time digits, gives the captured digits |
| FilenameDateGuess.HourMinuteCase | src/filename_date_guess.rs:75-77 | the HHMM layout gives the 12 captured digits followed by `00` |
| FilenameDateGuess.SixFieldsShape | src/filename_date_guess.rs:43 | six captures of widths 4,2,2,2,2,2 are copied into the EXIF layout |
| FilenameDateGuess.JoinedShape | src/filename_date_guess.rs:69-71 | dt1's date joined from three captures and its 6-digit time give the 14 digits |
| FilenameDateGuess.StampShape | src/filename_date_guess.rs:55 | slicing an 8-digit date and a 6-digit time yields an EXIF-shaped text with those digits |
| FilenameDateGuess.DateMidnightShape | src/filename_date_guess.rs:40 | an 8-digit date renders at midnight |
| FilenameDateGuess.HourMinuteShape | src/filename_date_guess.rs:77 | an 8-digit date and a 4-digit time render with seconds `00` |
| FilenameDateGuess.AsciiRuleOutput | src/filename_date_guess.rs:38-78 | when one of the first nine rules decides, the guess is EXIF-shaped, its copied digits occur in order in the name, and the rest are zeros |
| FilenameDateGuess.AsciiRulesCaptureDigits | src/filename_date_guess.rs:7-16 | every group of the first nine patterns captures a fixed number of ASCII digits, as its layout expects |
| FilenameDateGuess.AsciiRuleDigits | src/filename_date_guess.rs:7-16 | the same, rule by rule over the nine patterns |
| FilenameDateGuess.Dt1Digits | src/filename_date_guess.rs:15 | dt1 captures 4, 2, 2 and 6 digits |
| FilenameDateGuess.SixFieldRuleDigits | src/filename_date_guess.rs:8-13 | a six-group pattern of `\d{4}` and `\d{2}` groups captures digits only |
| FilenameDateGuess.PairRuleDigits | src/filename_date_guess.rs:12-16 | a date-and-time pattern captures 8 digits and then 6 or 4 digits |
| FilenameDateGuess.DigitCaptures | src/filename_date_guess.rs:38-78 | a match of such a rule yields captures that fit its layout |
| FilenameDateGuess.WhatsAppPatternAt | src/filename_date_guess.rs:7 | wa1 matches at position i exactly when the name reads `IMG-`, 8 digits, `-WA` and a digit there |
| FilenameDateGuess.WhatsAppSplit | src/filename_date_guess.rs:7 | such a name splits into wa1's pieces at fixed offsets |
| FilenameDateGuess.WhatsAppMatchReads | src/filename_date_guess.rs:7 | a wa1 match at i implies that shape at i |
| FilenameDateGuess.NumberedWhatsAppWins | src/filename_date_guess.rs:38-41 | the leftmost `IMG-dddddddd-WAd` in a name gives its date at midnight |
| FilenameDateGuess.WhatsAppLeftmost | src/filename_date_guess.rs:38 | wa1's match is the leftmost occurrence |
| FilenameDateGuess.WhatsAppFirst | src/filename_date_guess.rs:38 | a name that wa1 matches is decided by wa1 |
| FilenameDateGuess.WhatsAppCapture | src/filename_date_guess.rs:39-40 | wa1's output renders the 8 digits after `IMG-` |
| FilenameDateGuess.WhatsAppEnds | src/filename_date_guess.rs:39 | the date group of a wa1 match is the 8 characters after `IMG-` |
| FilenameDateGuess.MidnightText | src/filename_date_guess.rs:40 | the midnight layout writes `YYYY:MM:DD 00:00:00` from the date's slices |
| FilenameDateGuess.DateHourMinuteSecondsZero | src/filename_date_guess.rs:74-78 | when custom1 decides, the guess ends in `:00` |
| FilenameDateGuess.Custom1SecondsZero | src/filename_date_guess.rs:16 | custom1's output always ends in `:00` |
| FilenameDateGuess.HourMinuteEnds | src/filename_date_guess.rs:77 | the HHMM layout ends in `:00` |
| FilenameDateGuess.ExifTextEnds | src/filename_date_guess.rs:77 | an EXIF text ends with `:` and its seconds |
| FilenameDateGuess.BackslashRuleDemandsBackslash | src/filename_date_guess.rs:18-36 | each of the last 15 patterns contains a piece that requires a backslash |
| FilenameDateGuess.BackslashRulesNeedBackslash | src/filename_date_guess.rs:18-36 | none of the last 15 patterns matches a name without a backslash |
| FilenameDateGuess.NoBackslashOnlyAsciiRules | src/filename_date_guess.rs:18-147 | for a name without a backslash the guess is that of the first nine rules alone |
| FilenameDateGuess.BackslashGroup | src/filename_date_guess.rs:18-36 | a group starting at a `\\` piece captures text starting with a backslash |
| FilenameDateGuess.MonthRuleOutput | src/filename_date_guess.rs:138-146 | when san1 decides, the guess is `1970:MM:01 00:00:00` with the captured abbreviation's month |
| FilenameDateGuess.MonthRuleCaptures | src/filename_date_guess.rs:36 | san1's month capture is an abbreviation; its day and year captures do not parse as u32 |
| FilenameDateGuess.DayMonthYearDefaults | src/filename_date_guess.rs:140-146 | unparsable day and year fall back to 1 and 1970 |
| FilenameDateGuess.DayMonthYearParts | src/filename_date_guess.rs:140-146 | the rendered text is built from the padded defaults and the month |
| FilenameDateGuess.DefaultDateText | src/filename_date_guess.rs:146 | the padded year 1970, month and day 1 read `1970:MM:01 00:00:00` |
| FilenameDateGuess.PaddedTwo | src/filename_date_guess.rs:146 | `{:02}` of a number below 100 is its two-digit form |
| FilenameDateGuess.WhatsAppExample | src/filename_date_guess.rs:6-7 | `IMG-20220101-WA0001...` is dated `2022:01:01 00:00:00` |
| FilenameDateGuess.ScreenshotExample | src/filename_date_guess.rs:9-10 | `Screenshot_2023-01-01-12-00-00.png` is dated `2023:01:01 12:00:00` |
| FilenameDateGuess.ScreenshotSkipsWhatsApp | src/filename_date_guess.rs:38-44 | neither WhatsApp rule matches the screenshot example |
| FilenameDateGuess.NoWhatsAppRule | src/filename_date_guess.rs:7-8 | a name with no `I` and no `W` matches neither WhatsApp pattern |
| FilenameDateGuess.ScreenshotThirdRule | src/filename_date_guess.rs:46-47 | the third rule matches the example and gives its date |
| FilenameDateGuess.ScreenshotSc1Output | src/filename_date_guess.rs:46-47 | sc1 matches the example and renders `2023:01:01 12:00:00` |
| FilenameDateGuess.ScreenshotFind | src/filename_date_guess.rs:10 | sc1 finds the example at position 0, with the piece ends its field widths give |
| Pattern.MatchAtSound | src/filename_date_guess.rs:7-36 | a match found by the backtracking matcher splits the text into pieces that each match their pattern piece |
| Pattern.MatchAtComplete | src/filename_date_guess.rs:7-36 | whenever such a split exists, the matcher finds a match |
| Pattern.MatchAtIff | src/filename_date_guess.rs:7-36 | a match at i exists exactly when some split of the text matches the pattern |
| Pattern.TryCountSound | src/filename_date_guess.rs:7 | trying a repetition count gives only valid splits |
| Pattern.TryWordSound | src/filename_date_guess.rs:36 | trying an alternative gives only valid splits |
| Pattern.TryCountComplete | src/filename_date_guess.rs:7 | a valid count no larger than the greedy one is found |
| Pattern.TryWordComplete | src/filename_date_guess.rs:36 | a valid alternative is found |
| Pattern.Run | src/filename_date_guess.rs:7 | the greedy run of an atom stays inside the text and its cap; it stops only at a character the atom rejects |
| Pattern.FindFrom | src/filename_date_guess.rs:38 | a found match starts at or after the search start and is the matcher's match there |
| Pattern.FindFromLeftmost | src/filename_date_guess.rs:38 | no earlier start matches; nothing is found exactly when no start matches |
| Pattern.FindLeftmost | src/filename_date_guess.rs:38 | the match found is the one at the leftmost matching start |
| Pattern.DemandedCharPresent | src/filename_date_guess.rs:18-36 | a pattern piece that requires a character can match only texts containing it |
| Pattern.Captures | src/filename_date_guess.rs:39 | there is one capture per group, each being the text that group spans |
| Pattern.CapturesInOrder | src/filename_date_guess.rs:38-78 | the concatenated captures of ordered groups occur in order in the text |
| Pattern.FixedMatchAtStart | src/filename_date_guess.rs:46 | a pattern of fixed-width pieces that splits the text from 0 is found at 0 with those ends |
| Pattern.FixedPrefixUnique | src/filename_date_guess.rs:10 | two matches at the same start agree on the ends of a leading run of fixed-width pieces |
| Pattern.PieceWidth | src/filename_date_guess.rs:10 | a piece of fixed width matches only texts of that width |
| Pattern.MatchAtLeadingWord | src/media_cleaning.rs:18-21 | a match of a pattern opening with alternatives starts with one of them |
| Pattern.LiteralThenDigits | src/media_cleaning.rs:18 | a literal followed by a digit matches `literal\d+` |
| Pattern.MatchAtExtends | src/media_cleaning.rs:18-21 | a match at the start of a text is still found when text is appended |
| Pattern.MatchesStartExtends | src/media_cleaning.rs:35 | an anchored case-insensitive match survives appending text |
| Pattern.StartIgnoringCaseLiteral | src/media_cleaning.rs:18-21 | an anchored case-insensitive match of a literal means the lowered name starts with the lowered literal |
| Text.Lower | src/media_cleaning.rs:99 | the result keeps the length, has no ASCII capital left, keeps every other character, and turns each capital into its small letter |
| Text.LowerIdempotent | src/media_cleaning.rs:99 | lowering a lowered text changes nothing |
| Text.ParseU32 | src/filename_date_guess.rs:140-145 | after one optional `+`, parsing succeeds exactly for a non-empty digit string whose value is below 2^32, and yields that value |
| Text.ParseI64 | src/metadata_extraction.rs:82 | after `-`, parsing succeeds exactly for non-empty digits up to 2^63 and yields their negation; otherwise, after an optional `+`, exactly for non-empty digits below 2^63, yielding their value |
| Text.ParseUnsigned | src/filename_date_guess.rs:140-145 | after one optional `+`, succeeds exactly for a non-empty digit string below the limit, and yields its value |
| Text.ParseUnsignedDecimal | src/filename_date_guess.rs:140-145 | the decimal text of a number below the limit, with or without `+`, parses back to that number |
| Text.ParseI64Decimal | src/metadata_extraction.rs:82 | the decimal text of a non-negative i64, with or without `+`, parses back to it |
| Text.ParseI64Negated | src/metadata_extraction.rs:82 | `-` and the decimal text of n, for n up to 2^63, parses to -n |
| Text.DecimalValue | src/sort_to_folders.rs:100 | the decimal text of a number reads back as that number |
| Text.DigitsValueInjective | src/sort_to_folders.rs:184-186 | equal-length digit texts with the same value are equal |
| Text.Padded | src/filename_date_guess.rs:146 | zero padding gives digits whose value is the number, exactly as many as the width or the number's own digits, whichever is more; a wide number is unchanged |
| Text.ZerosThenValue | src/filename_date_guess.rs:146 | zeros on the left do not change a digit string's value |
| Text.LastIndexOf | src/media_cleaning.rs:98 | the last occurrence of a character, or None when absent |
| Text.ListedIsIn | src/media_cleaning.rs:100 | the list membership test is sequence membership |
| Paths.LastDot | src/media_cleaning.rs:98 | the extension's dot is the last dot and is not the first character |
| Paths.Extension | src/media_cleaning.rs:98 | an extension contains no dot |
| Paths.Stem | src/media_cleaning.rs:40 | the file name is the stem, a dot and the extension when there is one |
| Paths.WithExtension | src/media_cleaning.rs:40 | keeps the folder; the name becomes the stem and the new extension, or the stem alone for an empty extension |
| CivilTime.FromTimestamp | src/metadata_extraction.rs:83 | a UTC date exists exactly for timestamps of years 0 to 9999; it is a valid date with seconds below 60 |
| CivilTime.TimestampOfFromTimestamp | src/metadata_extraction.rs:83 | converting a timestamp to a date and back gives the timestamp |
| CivilTime.FromTimestampOfTimestamp | src/metadata_extraction.rs:83 | converting a valid date to a timestamp and back gives the date |
| CivilTime.CivilOfDayNumber | src/metadata_extraction.rs:83 | day numbers and calendar dates correspond one to one |
| CivilTime.DayNumberOfCivil | src/metadata_extraction.rs:83 | the date of a day number has that day number |
| CivilTime.DaysBeforeYearClosedForm | src/metadata_extraction.rs:83 | days before a year are 365 per year plus one per Gregorian leap year |
| CivilTime.DaysBeforeYearMonotone | src/metadata_extraction.rs:83 | each later year starts at least 365 days later |
| CivilTime.DaysBeforeMonthStep | src/metadata_extraction.rs:83 | consecutive month starts differ by the month's length; the year has 365 or 366 days |
| CivilTime.YearUnique | src/metadata_extraction.rs:83 | a day belongs to exactly one year |
| CivilTime.MonthUnique | src/metadata_extraction.rs:83 | a day of the year belongs to exactly one month |
| CivilTime.YearFrom | src/metadata_extraction.rs:83 | the year found contains the day |
| CivilTime.MonthFrom | src/metadata_extraction.rs:83 | the month found contains the day of the year |
| CivilTime.CivilFromDayNumber | src/metadata_extraction.rs:83 | the date of a day number is a valid calendar date |
| CivilTime.UnixEpochDayIs1970 | src/metadata_extraction.rs:83 | 1970-01-01 is day 719528 |
| CivilTime.EndDayIs10000 | src/metadata_extraction.rs:83 | 10000-01-01 is day 3652425 |
| CivilTime.DayNumberInRange | src/metadata_extraction.rs:83 | a valid date has a day number of the modelled range |
| CivilTime.DaysInMonth | src/sort_to_folders.rs:184-186 | months have 28 to 31 days, 29 exactly for February of a leap year |
| CivilTime.ExifString | src/metadata_extraction.rs:84 | `%Y:%m:%d %H:%M:%S` of a valid date is 19 characters |
| CivilTime.ExifFromTimestamp | src/metadata_extraction.rs:81-85 | a formatted date exists exactly for timestamps of years 0 to 9999 and is 19 characters |
| CivilTime.ExifTextShape | src/filename_date_guess.rs:40 | fields of widths 4,2,2,2,2,2 give an EXIF-shaped text with those digits |
| MediaCleaning.Route | src/media_cleaning.rs:35-64 | a file goes to `Whatsapp` exactly when a WhatsApp pattern matches its name, and to `Screenshots` exactly when no WhatsApp pattern and some screenshot pattern matches |
| MediaCleaning.NoNameIsBoth | src/media_cleaning.rs:17-22 | no name matches both pattern lists, so the screenshot route is exactly the screenshot patterns |
| MediaCleaning.RouteIgnoresCase | src/media_cleaning.rs:18-21 | names that agree after lowering are routed alike |
| MediaCleaning.AnyMatchesStartSame | src/media_cleaning.rs:18-21 | matching a pattern list at the start ignores case |
| MediaCleaning.AnyMatchesStartSome | src/media_cleaning.rs:35 | some pattern of the list matches |
| MediaCleaning.WhatsAppNameOpening | src/media_cleaning.rs:18 | a WhatsApp name starts, ignoring case, with `im`, `v` or `w` |
| MediaCleaning.ScreenshotNameOpening | src/media_cleaning.rs:21 | a screenshot name does not start with `v` or `w`, nor with `i` unless `is` follows |
| MediaCleaning.WhatsAppLeadingWords | src/media_cleaning.rs:18 | each WhatsApp alternative opens with one literal of that kind |
| MediaCleaning.ScreenshotLeadingWords | src/media_cleaning.rs:21 | every opening word of a screenshot alternative has the screenshot opening |
| MediaCleaning.ScreenshotLiteralOpening | src/media_cleaning.rs:21 | the five literal screenshot alternatives open that way |
| MediaCleaning.ScreenshotWordOpening | src/media_cleaning.rs:21 | the localised screenshot words open that way |
| MediaCleaning.NumberedWhatsAppName | src/media_cleaning.rs:18 | a name starting `WA` and a digit, in any case, is routed to `Whatsapp` |
| MediaCleaning.LowerWaDigits | src/media_cleaning.rs:18 | the case-folded `WA\d+` alternative is `wa\d+` |
| MediaCleaning.NumberedScreenshotName | src/media_cleaning.rs:21 | a name starting `Screenshot_` and a digit, in any case, is routed to `Screenshots` |
| MediaCleaning.LowerScreenshotDigits | src/media_cleaning.rs:21 | the case-folded `Screenshot_\d+` alternative is `screenshot_\d+` |
| MediaCleaning.CompanionSidecarName | src/media_cleaning.rs:40 | the companion is `name.json` in the same folder, or `name..json` for a file without extension |
| MediaCleaning.MoveToEffect | src/media_cleaning.rs:36-45 | the file and its existing companion leave their folder and appear under their names in the target folder |
| MediaCleaning.MoveWithSidecar | src/media_cleaning.rs:36-45 | moving a file and its companion yields that set of files |
| MediaCleaning.RoutedCount | src/media_cleaning.rs:46-62 | at most one file is counted per walked file |
| MediaCleaning.SeparateWhatsAppScreenshots | src/media_cleaning.rs:11-67 | when separation is off nothing changes and nothing is counted; otherwise the walk moves every routed file and counts them |
| MediaCleaning.RouteExtends | src/media_cleaning.rs:18-21 | the patterns are anchored only at the start, so text appended to a routed name never changes its folder |
| MediaCleaning.RouteOfCompanion | src/media_cleaning.rs:40-42 | a routed file's companion sidecar is routed to the same folder |
| MediaCleaning.MoveToKeepsSettled | src/media_cleaning.rs:35-61 | a file already in its own folder stays there whatever routed file is moved next |
| MediaCleaning.SeparatedArrival | src/media_cleaning.rs:31-64 | a routed walked file that exists at its turn ends the walk in `Other Images/<folder>` under its own name, and so does its companion when that exists at the same turn |
| MediaCleaning.SeparatedFrame | src/media_cleaning.rs:31-64 | a path that is neither a routed walked file, nor its companion, nor in a target folder exists after the walk exactly when it did before |
| MediaCleaning.CleanJsonFilenames | src/media_cleaning.rs:81-125 | the walk renames the sidecar candidates of every existing media file, file by file |
| MediaCleaning.RenameSidecars | src/media_cleaning.rs:101-121 | the inner loop over the media file's folder is one cleaning step |
| MediaCleaning.RenameListed | src/media_cleaning.rs:103-120 | visiting the folder listing in any order renames exactly the candidates |
| MediaCleaning.VisitEntry | src/media_cleaning.rs:106-116 | one listed file is renamed exactly when it exists and is a candidate |
| MediaCleaning.RenamedToStep | src/media_cleaning.rs:111 | renaming one more candidate extends the renamed set |
| MediaCleaning.RenamedToSkip | src/media_cleaning.rs:109 | a non-candidate changes nothing |
| MediaCleaning.CandidateNotTarget | src/media_cleaning.rs:109 | a candidate is never the canonical `name.json` |
| MediaCleaning.CleanStepEffect | src/media_cleaning.rs:109-111 | after a step no candidate is left, `name.json` exists exactly when it did or a candidate existed, the media file stays, and other files are untouched |
| MediaCleaning.CleanStepIdempotent | src/media_cleaning.rs:109-111 | cleaning the same media file twice is the same as once |
| MediaCleaning.CleanStepKeepsMedia | src/media_cleaning.rs:95-125 | a step neither removes nor creates a media file |
| MediaCleaning.CleanedKeepsMedia | src/media_cleaning.rs:95-125 | the whole walk keeps the set of media files |
| MediaCleaning.JsonNameNotMedia | src/media_cleaning.rs:82-88 | a file named `*.json` is never a media file |
| MediaCleaning.LastDotOfJsonName | src/media_cleaning.rs:98 | the extension dot of `x.json` is the dot of `.json`; a name that is only `.json` has no extension |
| MetadataExtraction.SidecarCandidates | src/metadata_extraction.rs:46-47 | the two sidecar names: `stem.ext.json` with the extension lowered, then `stem.json`, both in the media file's folder |
| MetadataExtraction.SidecarFor | src/metadata_extraction.rs:46-53 | the first candidate that exists is paired; there is no pair exactly when neither exists |
| MetadataExtraction.TakeoutSidecarName | src/metadata_extraction.rs:48-50 | for a lower-case extension, an existing `name.json` is the sidecar |
| MetadataExtraction.MediaFiles | src/metadata_extraction.rs:39-45 | the media files are exactly the walked files with a listed extension |
| MetadataExtraction.Pairs | src/metadata_extraction.rs:49-53 | every pair is a media file with its sidecar |
| MetadataExtraction.PairedMedia | src/metadata_extraction.rs:59 | the paired media, in pair order |
| MetadataExtraction.Without | src/metadata_extraction.rs:60 | keeps exactly the files not paired |
| MetadataExtraction.MediaFilesInOrder | src/metadata_extraction.rs:39-45 | the media files are listed in walk order |
| MetadataExtraction.WithoutInOrder | src/metadata_extraction.rs:60 | the filter keeps the order of the files it keeps |
| MetadataExtraction.UnpairedInOrder | src/metadata_extraction.rs:59-60 | the unpaired files are the media files minus the paired ones, in walk order |
| MetadataExtraction.PairedIff | src/metadata_extraction.rs:59 | a file is paired exactly when it is a walked media file with an existing sidecar |
| MetadataExtraction.PairsStep | src/metadata_extraction.rs:39-57 | the walk appends one pair per pairable file |
| MetadataExtraction.UnpairedIff | src/metadata_extraction.rs:59-60 | unpaired means a media file without a sidecar; every media file is paired or unpaired, never both |
| MetadataExtraction.TakenTime | src/metadata_extraction.rs:81-86 | a date is the 19-character formatting of the parsed `photoTakenTime.timestamp` string |
| MetadataExtraction.TakenTimeOfTimestamp | src/metadata_extraction.rs:81-86 | a sidecar whose timestamp is the decimal text of n, or `-` and that text, has the UTC date of n, or of -n, as its taken time |
| MetadataExtraction.SidecarRecord | src/metadata_extraction.rs:98-107 | the record keeps the media and sidecar paths |
| MetadataExtraction.GeoFieldFallback | src/metadata_extraction.rs:88-93 | each GPS field comes from `geoData`, else from `geoDataExif`, and is absent only when neither has a number |
| MetadataExtraction.UnpairedRecords | src/metadata_extraction.rs:120-145 | one record per unpaired file, in order, with the guessed date and nothing else |
| MetadataExtraction.FailedGuessesIff | src/metadata_extraction.rs:122-130 | a file is a failed guess exactly when guessing is on and its name gives no date |
| MetadataExtraction.FailedGuessesInOrder | src/metadata_extraction.rs:120-130 | the failed guesses keep the order of the unpaired files |
| MetadataExtraction.FailedAreUnguessable | src/metadata_extraction.rs:112-130 | the failed guesses are exactly the unpaired media files whose names give no date; none without guessing |
| MetadataExtraction.PairedRecordsFrom | src/metadata_extraction.rs:65-107 | every paired record comes from a pair whose sidecar parsed |
| MetadataExtraction.DroppedSidecarGivesNoRecord | src/metadata_extraction.rs:66-79 | a media file whose sidecar cannot be read or parsed gets no record at all |
| MetadataExtraction.UnpairedRecordsLast | src/metadata_extraction.rs:98-144 | records without a sidecar path come after all sidecar records, and carry no GPS or camera data |
| MetadataExtraction.PairedRecordHasSidecar | src/metadata_extraction.rs:98-100 | a sidecar record has a sidecar path |
| MetadataExtraction.ExtractMetadata | src/metadata_extraction.rs:23-148 | the records are the sidecar records followed by the unpaired records; the failed list is the failed guesses |
| MetadataExtraction.CollectMedia | src/metadata_extraction.rs:39-57 | the walk collects the media files and the pairs |
| MetadataExtraction.RemovePaired | src/metadata_extraction.rs:60 | the unpaired files are the media files not paired |
| MetadataExtraction.ReadSidecars | src/metadata_extraction.rs:65-110 | reading the sidecars gives the sidecar records |
| MetadataExtraction.RecordUnpaired | src/metadata_extraction.rs:120-145 | the loop over unpaired files gives their records and the failed guesses |
| MetadataExtraction.RecordOne | src/metadata_extraction.rs:121-144 | one unpaired file's record, and whether its guess failed |
| MetadataEmbed.ChooseDate | src/metadata_embed.rs:25-39 | `filename` is used exactly when a filename date exists and is then embedded; otherwise the metadata date; `metadata (fallback)` exactly when there is no date |
| MetadataEmbed.MetadataDateKept | src/metadata_embed.rs:29-39 | outside the separated folders, or without the filename choice, the metadata date is kept |
| MetadataEmbed.FilenameDateOverrides | src/metadata_embed.rs:27-35 | a file in `Whatsapp` (any case) with a filename date embeds that date |
| MetadataEmbed.DateTag | src/metadata_embed.rs:41-45 | PNG files get `XMP:DateTimeOriginal`, all others `DateTimeOriginal` |
| MetadataEmbed.OtherDateTag | src/metadata_embed.rs:41-45 | the date tag that is not used |
| MetadataEmbed.TagValue | src/metadata_embed.rs:42-58 | a tag's value is read from an option of the argument list |
| MetadataEmbed.TagValueConcat | src/metadata_embed.rs:42-58 | the first option for a tag wins across concatenated lists |
| MetadataEmbed.OptionForValue | src/metadata_embed.rs:51-58 | an optional field yields its value for its own tag and nothing for others |
| MetadataEmbed.GpsOptionsValue | src/metadata_embed.rs:47-50 | latitude and longitude are written only together |
| MetadataEmbed.TagOptionsValue | src/metadata_embed.rs:40-58 | the options for a tag are looked up group by group |
| MetadataEmbed.PlannedValue | src/metadata_embed.rs:40-58 | each tag gets exactly its intended value: the date, the GPS pair, the altitude, make and model |
| MetadataEmbed.PlannedArgsShape | src/metadata_embed.rs:40-62 | the list ends with `-overwrite_original` and the path; the date goes to the right tag and not the other; GPS only as a pair |
| MetadataEmbed.FilenameDateEmbedded | src/metadata_embed.rs:31-46 | with the filename choice, a separated file's date tag carries its filename date |
| MetadataEmbed.LogLine | src/metadata_embed.rs:63-78 | the log entry names the file, the source used, the date embedded and the outcome |
| MetadataEmbed.BuildArgs | src/metadata_embed.rs:24-62 | the argument list built step by step is the planned one |
| MetadataEmbed.PushDate | src/metadata_embed.rs:40-46 | appends the date option when there is a date |
| MetadataEmbed.PushGps | src/metadata_embed.rs:47-50 | appends the GPS pair when both coordinates exist |
| MetadataEmbed.PushOption | src/metadata_embed.rs:51-59 | appends an optional field's option |
| MetadataEmbed.EmbedOne | src/metadata_embed.rs:24-80 | the run passes the planned arguments with the chosen date, and the log entry records the choice and the outcome |
| MetadataEmbed.EmbedMetadataAll | src/metadata_embed.rs:12-83 | one run and one log entry per record, in order, and every record counted |
| SortToFolders.LineField | src/sort_to_folders.rs:61-70 | a line is a date line exactly when it contains `Date/Time Original` |
| SortToFolders.AfterColon | src/sort_to_folders.rs:63 | the text after the first colon, or nothing without a colon |
| SortToFolders.LeadingSpaces | src/sort_to_folders.rs:63 | the leading whitespace run |
| SortToFolders.TrailingSpaces | src/sort_to_folders.rs:63 | the trailing whitespace run |
| SortToFolders.Trim | src/sort_to_folders.rs:63 | the result is the text without leading and trailing whitespace |
| SortToFolders.Set | src/sort_to_folders.rs:62-70 | one field changes and the others stay |
| SortToFolders.LastReport | src/sort_to_folders.rs:61-70 | the last line reporting a field |
| SortToFolders.ReadLinesLast | src/sort_to_folders.rs:61-71 | each field holds the value of the last line that reports it, or is empty |
| SortToFolders.ReadExiftoolOutput | src/sort_to_folders.rs:59-72 | the loop over the report lines gives that reading |
| SortToFolders.FallbackSidecarName | src/sort_to_folders.rs:75 | the JSON fallback is `stem.` + lowered extension + `json`, with no dot before `json` |
| SortToFolders.FallbackMissesTakeoutSidecar | src/sort_to_folders.rs:75 | the fallback name is never the Takeout sidecar `name.json` |
| SortToFolders.FallbackDate | src/sort_to_folders.rs:74-89 | a fallback date comes from a parsed sidecar at the fallback path |
| SortToFolders.DateText | src/sort_to_folders.rs:73-89 | the reported date is kept when present, else the fallback date; the date is empty exactly when both are missing |
| SortToFolders.ParseExifDate | src/sort_to_folders.rs:184-186 | a parsed date is a valid calendar date |
| SortToFolders.ParseExifString | src/sort_to_folders.rs:184-186 | parsing the formatting of a valid date gives the date back |
| SortToFolders.ExifStringOfParse | src/sort_to_folders.rs:184-186 | formatting a parsed date gives the text back |
| SortToFolders.ExifStringFields | src/sort_to_folders.rs:184-186 | the formatted date has its fields at fixed positions |
| SortToFolders.ParseExifFromTimestamp | src/sort_to_folders.rs:82-83 | parsing a sidecar's formatted timestamp gives its UTC date |
| SortToFolders.FallbackDateParses | src/sort_to_folders.rs:82-99 | a fallback date always parses |
| SortToFolders.MonthName | src/sort_to_folders.rs:188-203 | months 1 to 12 get their English names, every other number `Unknown` |
| SortToFolders.MonthNameInverse | src/sort_to_folders.rs:188-203 | the name of a month determines the month and is never `Unknown` |
| SortToFolders.DateFolders | src/sort_to_folders.rs:99-102 | a date adds no folder or exactly two |
| SortToFolders.DateFoldersOfParsed | src/sort_to_folders.rs:99-102 | a parsed date adds its year and month name folders, which give the year and month back |
| SortToFolders.ClassifyPrecedence | src/sort_to_folders.rs:94-144 | each category holds exactly under its condition: WhatsApp, then screenshot, mkv, no date, video and photo |
| SortToFolders.NotSeparatedNotApart | src/sort_to_folders.rs:97-104 | without separation, names play no part in the category |
| SortToFolders.DateDecidesUnknown | src/sort_to_folders.rs:115-126 | a dated file never lands in `Unknown Time`; an undated one gets date folders only if it is WhatsApp or screenshot |
| SortToFolders.HawaiiNamesWhatsApp | src/sort_to_folders.rs:95 | any name containing `wa`, such as `Hawaii.jpg`, counts as WhatsApp |
| SortToFolders.VideoExtensionsAreMedia | src/sort_to_folders.rs:13-19 | every video extension is a media extension other than mkv |
| SortToFolders.MkvNotVideo | src/sort_to_folders.rs:111-126 | mkv is not in the video list |
| SortToFolders.CategoryFolders | src/sort_to_folders.rs:98-138 | each category has one or two folder names |
| SortToFolders.DestinationShape | src/sort_to_folders.rs:92-147 | the destination is under `output/Media Files`, keeps the file name, and its folders name the category |
| SortToFolders.DatedDestination | src/sort_to_folders.rs:99-142 | a dated category adds year and month exactly when the date parses |
| SortToFolders.FailedGuessCopiedToFailedFolder | src/sort_to_folders.rs:116-119 | a failed guess is copied to `Media Files/Unknown Time/Failed Filename Guess` |
| SortToFolders.Record | src/sort_to_folders.rs:103-143 | one row is appended to the list the category writes to (photos for WhatsApp files, screenshots and photos); every list another category slot writes to is unchanged |
| SortToFolders.RecordAddsOneRow | src/sort_to_folders.rs:103-143 | recording adds exactly one row |
| SortToFolders.PlacementDestination | src/sort_to_folders.rs:91-147 | a file is copied under its own name to its category's folder |
| SortToFolders.PlacementFailedGuess | src/sort_to_folders.rs:115-120 | only listed failed guesses go to the failed-guess folder; undated categories have an empty date |
| SortToFolders.PlacementUndated | src/sort_to_folders.rs:73-89 | a row's date is empty exactly when exiftool reports none and the fallback finds none |
| SortToFolders.FallbackDated | src/sort_to_folders.rs:73-142 | a fallback date always gives dated categories their year and month folders |
| SortToFolders.SortOne | src/sort_to_folders.rs:44-147 | probing and placing one file gives its placement |
| SortToFolders.ResolveDate | src/sort_to_folders.rs:73-89 | the date resolution step |
| SortToFolders.DestinationOf | src/sort_to_folders.rs:92-147 | the destination built folder by folder |
| SortToFolders.SortStepCounts | src/sort_to_folders.rs:43-159 | a step adds equally many rows, copies and counted files, at most one; it loses no file and no earlier copy |
| SortToFolders.SortedAllCounts | src/sort_to_folders.rs:43-160 | rows, copies and the processed count agree and are at most the walk's length; no file disappears |
| SortToFolders.SortStepCopies | src/sort_to_folders.rs:147-156 | a step makes only copies of walked media files to their placements |
| SortToFolders.SortedAllCopies | src/sort_to_folders.rs:147-156 | every copy is of a walked media file to its placement |
| SortToFolders.SortedAllPlacesEach | src/sort_to_folders.rs:43-159 | conversely, each media file the walk lists once and that exists is copied exactly once, to its placement, and its row is in its category's list |
| SortToFolders.SortFile | src/sort_to_folders.rs:44-159 | one iteration of the loop is one sorting step |
| SortToFolders.SortAll | src/sort_to_folders.rs:43-160 | the loop is the sort of the whole walk |
| SortToFolders.MovedFailedEffect | src/sort_to_folders.rs:173-181 | unlisted files outside the failed folder are untouched; listed ones outside it leave their place |
| SortToFolders.MovedFailedArrival | src/sort_to_folders.rs:175-180 | each listed file that exists at its turn ends in the failed-guess folder under its own name |
| SortToFolders.MoveFailedGuesses | src/sort_to_folders.rs:173-181 | the final loop moves the listed files into the failed-guess folder |
| SortToFolders.SortFilesToFolders | src/sort_to_folders.rs:12-182 | the report, copies and count are those of the sort, and the files are then moved |

## Left out

- Regular expressions: `\d` matches ASCII digits only; the `regex` crate also accepts other Unicode decimal digits.
- Case folding: `(?i)`, `to_lowercase` and `eq_ignore_ascii_case` are modelled as ASCII lowering. Non-ASCII letters in names and in the localised screenshot words are compared exactly.
- SortToFolders.Trim: removes ASCII whitespace only; Rust's `trim` also removes other Unicode white space.
- CivilTime.FromTimestamp: covers years 0 to 9999 only. Outside them the model has no date, where chrono supports more years and `unwrap` panics only beyond its range.
- MetadataExtraction.TakenTime: such a timestamp gives no date instead of the panic at `unwrap`.
- SortToFolders.ParseExifDate: accepts only the canonical 19-character form with four-digit years. chrono also accepts shorter numbers and signed years.
- Floating point: GPS values are carried as the text Rust prints for them. `human_readable_size` is left out; rows keep the byte size.
- File contents: the filesystem is the set of existing file paths. A rename onto an existing file replaces it, but what it held is not modelled.
- Directories: `is_file` is membership in that set. Folder creation is assumed to succeed, and directory entries are not walked.
- Failures of `fs::rename` and `fs::copy` are ignored by the code. The model assumes every rename and copy succeeds.
- Walk and `read_dir` order: the walk is an input sequence. A folder listing is visited in any order, which the proof covers.
- exiftool is not run. Its report on each file is an input, as lines of text with the file size. A file with no report gets no lines and size 0. The outcome of each embedding run is an input.
- Sidecar reading and JSON parsing: a sidecar is given as unreadable, unparsable or a parsed value.
- Prompts on standard input become boolean parameters.
- Log files, printing and progress bars are left out. The embedding log is modelled as a list of entries.
- `platform.rs`, `main.rs`, `ui.rs`, `utils.rs`, the CSV and HTML report writers: the report is modelled as the five lists of rows given to the CSV writer.
