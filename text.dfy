/** Strings, ASCII helpers and decimal numbers shared by every part of the model.
    Rust `&str` values are modelled as `string` (= seq<char>); only ASCII case
    folding and ASCII digits are modelled. */
module Text {

  datatype Option<+T> = None | Some(value: T)

  predicate IsAsciiDigit(c: char) {
    '0' <= c <= '9'
  }

  predicate AllDigits(s: string) {
    forall k :: 0 <= k < |s| ==> IsAsciiDigit(s[k])
  }

  function DigitValue(c: char): (v: nat)
    requires IsAsciiDigit(c)
    ensures v < 10
  {
    c as int - '0' as int
  }

  function DigitChar(v: nat): (c: char)
    requires v < 10
    ensures IsAsciiDigit(c) && DigitValue(c) == v
  {
    ('0' as int + v) as char
  }

  /** ASCII lower-casing of one character (`to_ascii_lowercase`). */
  function LowerChar(c: char): (r: char)
    ensures 'A' <= c <= 'Z' ==> 'a' <= r <= 'z' && r as int == c as int + 32
    ensures !('A' <= c <= 'Z') ==> r == c
  {
    if 'A' <= c <= 'Z' then (c as int + 32) as char else c
  }

  /** `to_ascii_lowercase`: no upper-case ASCII letter is left, every other
      character is kept, and letters keep their place. */
  function Lower(s: string): (r: string)
    ensures |r| == |s|
    ensures forall k :: 0 <= k < |r| ==> !('A' <= r[k] <= 'Z')
    ensures forall k :: 0 <= k < |s| && !('A' <= s[k] <= 'Z') ==> r[k] == s[k]
    ensures forall k :: 0 <= k < |s| && 'A' <= s[k] <= 'Z' ==> r[k] as int == s[k] as int + 32
  {
    seq(|s|, k requires 0 <= k < |s| => LowerChar(s[k]))
  }

  /** Lower-casing twice is lower-casing once. */
  lemma LowerIdempotent(s: string)
    ensures Lower(Lower(s)) == Lower(s)
  {
  }

  /** Lower-casing works character by character, so it distributes over
      concatenation. */
  lemma LowerAppend(a: string, b: string)
    ensures Lower(a + b) == Lower(a) + Lower(b)
  {
  }

  lemma AppendAssoc<T>(a: seq<T>, b: seq<T>, c: seq<T>)
    ensures a + b + c == a + (b + c)
  {
  }

  predicate StartsWith(s: string, prefix: string) {
    |prefix| <= |s| && s[..|prefix|] == prefix
  }

  predicate EndsWith(s: string, suffix: string) {
    |suffix| <= |s| && s[|s| - |suffix|..] == suffix
  }

  /** `w` occurs in `s` starting at position `i`. */
  predicate OccursAt(w: string, s: string, i: nat) {
    i + |w| <= |s| && s[i..i + |w|] == w
  }

  /** Substring test (`str::contains`). */
  predicate Contains(s: string, w: string) {
    exists i :: 0 <= i <= |s| && OccursAt(w, s, i)
  }

  /** Index of the last occurrence of `c` in `s`, searching from the end. */
  function LastIndexOf(s: string, c: char): (r: Option<nat>)
    ensures r.Some? ==> r.value < |s| && s[r.value] == c && c !in s[r.value + 1..]
    ensures r.None? ==> c !in s
  {
    if s == [] then None
    else if s[|s| - 1] == c then Some(|s| - 1)
    else
      var r := LastIndexOf(s[..|s| - 1], c);
      assert s == s[..|s| - 1] + [s[|s| - 1]];
      r
  }

  /** The last occurrence of `c` is the one at `i` when no `c` follows it. */
  lemma LastIndexOfAt(s: string, c: char, i: nat)
    requires i < |s| && s[i] == c && c !in s[i + 1..]
    ensures LastIndexOf(s, c) == Some(i)
  {
  }

  /** `s[a..b]`, clamped to the string so that it is always defined. */
  function Sub(s: string, a: nat, b: nat): (r: string)
    ensures a <= b <= |s| ==> r == s[a..b]
  {
    if a <= b <= |s| then s[a..b] else if a <= |s| then s[a..] else ""
  }

  // ---------------------------------------------------------------- decimals

  /** Decimal text of a natural number, without leading zeros (Rust `{}`). */
  function Decimal(n: nat): (r: string)
    ensures |r| >= 1 && AllDigits(r)
    decreases n
  {
    if n < 10 then [DigitChar(n)] else Decimal(n / 10) + [DigitChar(n % 10)]
  }

  /** Decimal text padded on the left with zeros to at least `width` characters
      (Rust `{:0width}`). */
  function Padded(n: nat, width: nat): (r: string)
    ensures AllDigits(r) && DigitsValue(r) == n
    ensures |r| == if |Decimal(n)| >= width then |Decimal(n)| else width
    ensures |Decimal(n)| >= width ==> r == Decimal(n)
  {
    var d := Decimal(n);
    DecimalValue(n);
    if |d| >= width then d
    else
      ZerosThenValue(width - |d|, d);
      seq(width - |d|, _ => '0') + d
  }

  /** Zeros on the left do not change the value of a digit string. */
  lemma {:induction false} ZerosThenValue(z: nat, d: string)
    requires AllDigits(d)
    ensures AllDigits(seq(z, _ => '0') + d)
    ensures DigitsValue(seq(z, _ => '0') + d) == DigitsValue(d)
    decreases |d|
  {
    var s := seq(z, _ => '0') + d;
    if d == [] {
      assert s == seq(z, _ => '0');
      ZerosValue(z);
    } else {
      assert s[..|s| - 1] == seq(z, _ => '0') + d[..|d| - 1];
      ZerosThenValue(z, d[..|d| - 1]);
    }
  }

  lemma {:induction false} ZerosValue(z: nat)
    ensures AllDigits(seq(z, _ => '0')) && DigitsValue(seq(z, _ => '0')) == 0
    decreases z
  {
    if z > 0 {
      assert seq(z, _ => '0')[..z - 1] == seq(z - 1, _ => '0');
      ZerosValue(z - 1);
    }
  }

  /** Value of a non-empty string of ASCII digits. */
  function DigitsValue(s: string): (v: nat)
    requires AllDigits(s)
    decreases |s|
  {
    if s == [] then 0 else 10 * DigitsValue(s[..|s| - 1]) + DigitValue(s[|s| - 1])
  }

  lemma {:induction false} DecimalValue(n: nat)
    ensures DigitsValue(Decimal(n)) == n
    decreases n
  {
    if n >= 10 {
      var d := Decimal(n);
      assert d[..|d| - 1] == Decimal(n / 10);
      DecimalValue(n / 10);
    }
  }

  /** Two-digit and four-digit fixed-width text of small numbers: the
      zero-padded fields of `%Y:%m:%d %H:%M:%S`. */
  function Two(n: nat): (r: string)
    requires n < 100
    ensures |r| == 2 && AllDigits(r) && DigitsValue(r) == n
  {
    var r := [DigitChar(n / 10), DigitChar(n % 10)];
    assert r[..1] == [DigitChar(n / 10)] && r[..1][..0] == [];
    assert DigitsValue(r[..1]) == n / 10;
    r
  }

  function Four(n: nat): (r: string)
    requires n < 10000
    ensures |r| == 4 && AllDigits(r) && DigitsValue(r) == n
  {
    var r := Two(n / 100) + Two(n % 100);
    assert r[..3] == Two(n / 100) + [r[2]];
    assert r[..3][..2] == Two(n / 100);
    r
  }

  lemma {:induction false} DigitsValueInjective(a: string, b: string)
    requires AllDigits(a) && AllDigits(b) && |a| == |b|
    requires DigitsValue(a) == DigitsValue(b)
    ensures a == b
    decreases |a|
  {
    if a != [] {
      var n := |a|;
      assert DigitValue(a[n - 1]) == DigitsValue(a) % 10;
      assert DigitValue(b[n - 1]) == DigitsValue(b) % 10;
      DigitsValueInjective(a[..n - 1], b[..n - 1]);
      assert a == a[..n - 1] + [a[n - 1]];
      assert b == b[..n - 1] + [b[n - 1]];
    }
  }

  /** The text after one leading `+`, if there is one. */
  function WithoutPlus(s: string): (d: string)
    ensures |s| > 0 && s[0] == '+' ==> s == "+" + d
    ensures !(|s| > 0 && s[0] == '+') ==> d == s
  {
    if |s| > 0 && s[0] == '+' then s[1..] else s
  }

  /** `str::parse::<u64>`-style parsing of an optional `+` followed by one or
      more ASCII digits, with the value bounded by `limit` (exclusive). */
  function ParseUnsigned(s: string, limit: nat): (r: Option<nat>)
    ensures var d := WithoutPlus(s);
      r.Some? <==> |d| > 0 && AllDigits(d) && DigitsValue(d) < limit
    ensures r.Some? ==> AllDigits(WithoutPlus(s)) && r.value == DigitsValue(WithoutPlus(s)) < limit
  {
    var digits := WithoutPlus(s);
    if |digits| > 0 && AllDigits(digits) && DigitsValue(digits) < limit then Some(DigitsValue(digits))
    else None
  }

  /** The decimal text of a number below the limit parses back to it, with
      or without a leading `+`. */
  lemma ParseUnsignedDecimal(n: nat, limit: nat)
    requires n < limit
    ensures ParseUnsigned(Decimal(n), limit) == Some(n)
    ensures ParseUnsigned("+" + Decimal(n), limit) == Some(n)
  {
    DecimalValue(n);
    assert WithoutPlus("+" + Decimal(n)) == Decimal(n);
  }

  const U32Limit: nat := 0x1_0000_0000
  const I64Limit: nat := 0x8000_0000_0000_0000

  /** `str::parse::<u32>`: an optional `+`, then ASCII digits whose value
      fits in 32 bits. */
  function ParseU32(s: string): (r: Option<nat>)
    ensures var d := WithoutPlus(s);
      r.Some? <==> |d| > 0 && AllDigits(d) && DigitsValue(d) < U32Limit
    ensures r.Some? ==> AllDigits(WithoutPlus(s)) && r.value == DigitsValue(WithoutPlus(s)) < U32Limit
    ensures r.Some? ==> |s| > 0 && (IsAsciiDigit(s[0]) || s[0] == '+')
  {
    ParseUnsigned(s, U32Limit)
  }

  /** `str::parse::<i64>`: an optional sign, then ASCII digits, within range.
      After `-` the digits may reach 2^63; otherwise they stay below it. */
  function ParseI64(s: string): (r: Option<int>)
    ensures r.Some? ==> -(I64Limit as int) <= r.value < I64Limit
    ensures |s| > 0 && s[0] == '-' ==>
      && (r.Some? <==> |s| > 1 && AllDigits(s[1..]) && DigitsValue(s[1..]) <= I64Limit)
      && (r.Some? ==> r.value == -(DigitsValue(s[1..]) as int))
    ensures !(|s| > 0 && s[0] == '-') ==>
      && (r.Some? <==> |WithoutPlus(s)| > 0 && AllDigits(WithoutPlus(s)) && DigitsValue(WithoutPlus(s)) < I64Limit)
      && (r.Some? ==> r.value == DigitsValue(WithoutPlus(s)))
  {
    if |s| > 0 && s[0] == '-' then
      var digits := s[1..];
      if |digits| > 0 && AllDigits(digits) && DigitsValue(digits) <= I64Limit then Some(0 - DigitsValue(digits) as int)
      else None
    else
      match ParseUnsigned(s, I64Limit)
      case Some(v) => Some(v)
      case None => None
  }

  /** The decimal text of a non-negative `i64` parses back to it. */
  lemma ParseI64Decimal(n: nat)
    requires n < I64Limit
    ensures ParseI64(Decimal(n)) == Some(n as int)
    ensures ParseI64("+" + Decimal(n)) == Some(n as int)
  {
    ParseUnsignedDecimal(n, I64Limit);
    assert ("+" + Decimal(n))[0] == '+';
  }

  /** `-` followed by the decimal text of a number up to 2^63 parses to its
      negation (the least `i64` included). */
  lemma ParseI64Negated(n: nat)
    requires n <= I64Limit
    ensures ParseI64("-" + Decimal(n)) == Some(-(n as int))
  {
    DecimalValue(n);
    assert ("-" + Decimal(n))[1..] == Decimal(n);
  }

  /** Membership of a word in a list of words (`list.contains(&w)`), written
      recursively so that the verifier looks through long literal lists only
      as far as a proof asks it to. */
  predicate Listed(w: string, list: seq<string>)
    decreases |list|
  {
    list != [] && (list[0] == w || Listed(w, list[1..]))
  }

  lemma {:induction false} ListedIsIn(w: string, list: seq<string>)
    ensures Listed(w, list) <==> w in list
    decreases |list|
  {
    if list != [] {
      ListedIsIn(w, list[1..]);
      assert list == [list[0]] + list[1..];
    }
  }

  /** Strings joined with a separator. */
  function Join(parts: seq<string>, sep: string): string {
    if parts == [] then ""
    else if |parts| == 1 then parts[0]
    else parts[0] + sep + Join(parts[1..], sep)
  }
}

/** File paths as sequences of components; the filesystem walks, `exists`
    and `rename` of the source become a `set<Path>` of existing files that the
    methods take and return. A leading "" component stands for the root "/". */
module Paths {
  import opened Text

  type Path = seq<string>

  /** `Path::file_name` (the last component; "" for the empty path). */
  function FileName(p: Path): string {
    if p == [] then "" else p[|p| - 1]
  }

  /** `a` is `b` with some entries left out and the rest kept in order. */
  predicate Subsequence(a: seq<Path>, b: seq<Path>)
    decreases |b|
  {
    if b == [] then a == []
    else
      || (a != [] && a[|a| - 1] == b[|b| - 1] && Subsequence(a[..|a| - 1], b[..|b| - 1]))
      || Subsequence(a, b[..|b| - 1])
  }

  lemma SubsequenceKeep(a: seq<Path>, b: seq<Path>, x: Path)
    requires Subsequence(a, b)
    ensures Subsequence(a + [x], b + [x])
  {
    assert (a + [x])[..|a|] == a;
    assert (b + [x])[..|b|] == b;
  }

  lemma SubsequenceSkip(a: seq<Path>, b: seq<Path>, x: Path)
    requires Subsequence(a, b)
    ensures Subsequence(a, b + [x])
  {
    assert (b + [x])[..|b|] == b;
  }

  /** `Path::parent` for a non-empty path. */
  function Parent(p: Path): Path {
    if p == [] then [] else p[..|p| - 1]
  }

  /** `Path::parent().file_name()` — the name of the enclosing folder. */
  function ParentName(p: Path): string {
    FileName(Parent(p))
  }

  /** Rust's split of a file name at its last dot: a dot at position 0 (a
      hidden file such as ".bashrc") does not start an extension. */
  function LastDot(name: string): (r: Option<nat>)
    ensures r.Some? ==> 0 < r.value < |name| && name[r.value] == '.'
    ensures r.Some? ==> '.' !in name[r.value + 1..]
  {
    match LastIndexOf(name, '.')
    case Some(i) => if i == 0 then None else Some(i)
    case None => None
  }

  /** `Path::extension` of the file name. */
  function Extension(p: Path): (r: Option<string>)
    ensures r.Some? ==> '.' !in r.value
  {
    var name := FileName(p);
    match LastDot(name)
    case Some(i) => Some(name[i + 1..])
    case None => None
  }

  /** `Path::file_stem`. */
  function Stem(p: Path): (r: string)
    ensures Extension(p).Some? ==> FileName(p) == r + "." + Extension(p).value
    ensures Extension(p).None? ==> r == FileName(p)
  {
    var name := FileName(p);
    match LastDot(name)
    case Some(i) =>
      assert name == name[..i] + "." + name[i + 1..];
      name[..i]
    case None => name
  }

  /** Lower-cased extension, "" when there is none
      (`extension().unwrap_or("").to_lowercase()`). */
  function LowerExtension(p: Path): string {
    match Extension(p)
    case Some(e) => Lower(e)
    case None => ""
  }

  /** `Path::with_extension(ext)`: the stem, then "." and `ext` unless `ext`
      is empty, in the same folder. */
  function WithExtension(p: Path, ext: string): (r: Path)
    requires p != []
    ensures |r| == |p| && Parent(r) == Parent(p)
    ensures FileName(r) == if ext == "" then Stem(p) else Stem(p) + "." + ext
  {
    Parent(p) + [if ext == "" then Stem(p) else Stem(p) + "." + ext]
  }

  /** `to_string_lossy` of a path, with "/" as separator. */
  function PathText(p: Path): string {
    Join(p, "/")
  }
}
