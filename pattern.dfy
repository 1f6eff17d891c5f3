/** The fragment of Rust `regex` syntax that the source's patterns use, with
    Rust's leftmost-first (backtracking-priority) semantics.

    A pattern is a sequence of pieces. A piece is either an atom repeated
    between `min` and `max` times, tried greedily from the longest count down
    (`\d{8}`, `\d+`, `\d{1,2}`), or a choice between literal words, tried in
    order (`(Jan|Feb|...)`, `(_| )?` as ["_", " ", ""], or a plain literal
    as a one-word choice). `MatchAt` returns, for the first match at a start
    position in backtracking order, the end position of every piece; `Find`
    looks for the leftmost start, as `Regex::captures` and `Regex::is_match` do. */
module Pattern {
  import opened Text

  datatype Atom =
    | Char(c: char)          // a literal character, e.g. `\\` (a backslash) or `d`
    | AsciiDigit             // `\d`, restricted to ASCII
    | AnyButNewline          // `.`
    | Among(chars: seq<char>) // a class such as `[._-]`

  predicate AtomMatches(a: Atom, c: char) {
    match a
    case Char(x) => c == x
    case AsciiDigit => IsAsciiDigit(c)
    case AnyButNewline => c != '\n'
    case Among(cs) => c in cs
  }

  datatype Piece =
    | Repeat(atom: Atom, min: nat, max: Option<nat>)
    | Choice(words: seq<string>)

  type Pattern = seq<Piece>

  /** A literal string. */
  function Lit(w: string): Piece { Choice([w]) }
  /** `\d{n}`. */
  function Digits(n: nat): Piece { Repeat(AsciiDigit, n, Some(n)) }
  /** `\d+` (n = 1) and `\d{n,}`. */
  function DigitsFrom(n: nat): Piece { Repeat(AsciiDigit, n, None) }
  /** A character repeated exactly n times, e.g. `d{8}`. */
  function Times(c: char, n: nat): Piece { Repeat(Char(c), n, Some(n)) }

  /** How many characters from position i match `a`, up to `cap`: the
      greedy count a repetition starts from. */
  function Run(a: Atom, s: string, i: nat, cap: Option<nat>): (k: nat)
    requires i <= |s|
    ensures i + k <= |s|
    ensures cap.Some? ==> k <= cap.value
    ensures forall j :: i <= j < i + k ==> AtomMatches(a, s[j])
    ensures i + k < |s| && (cap.None? || k < cap.value) ==> !AtomMatches(a, s[i + k])
    decreases |s| - i
  {
    if i < |s| && (cap.None? || cap.value > 0) && AtomMatches(a, s[i]) then
      1 + Run(a, s, i + 1, if cap.Some? then Some(cap.value - 1) else None)
    else 0
  }

  /** The first match of `p` starting exactly at `i`, in backtracking order:
      the end position of each piece. */
  function MatchAt(p: Pattern, s: string, i: nat): Option<seq<nat>>
    requires i <= |s|
    decreases |p|, 2, 0
  {
    if p == [] then Some([])
    else
      match p[0]
      case Repeat(a, lo, hi) =>
        var k := Run(a, s, i, hi);
        if k < lo then None else TryCount(p, s, i, k)
      case Choice(ws) => TryWord(p, s, i, 0)
  }

  /** Backtracking over the count of the leading repetition: k, k-1, ..., min. */
  function TryCount(p: Pattern, s: string, i: nat, k: nat): Option<seq<nat>>
    requires p != [] && p[0].Repeat? && i <= |s|
    requires p[0].min <= k <= Run(p[0].atom, s, i, p[0].max)
    decreases |p|, 1, k
  {
    match MatchAt(p[1..], s, i + k)
    case Some(e) => Some([i + k] + e)
    case None => if k > p[0].min then TryCount(p, s, i, k - 1) else None
  }

  /** Backtracking over the alternatives of the leading choice, in order. */
  function TryWord(p: Pattern, s: string, i: nat, j: nat): Option<seq<nat>>
    requires p != [] && p[0].Choice? && i <= |s| && j <= |p[0].words|
    decreases |p|, 1, |p[0].words| - j
  {
    if j == |p[0].words| then None
    else
      var w := p[0].words[j];
      var next := if OccursAt(w, s, i) then MatchAt(p[1..], s, i + |w|) else None;
      match next
      case Some(e) => Some([i + |w|] + e)
      case None => TryWord(p, s, i, j + 1)
  }

  // ------------------------------------------------ the reference definition

  /** The text `t` is one admissible expansion of piece `pc`. */
  ghost predicate PieceMatches(pc: Piece, t: string) {
    match pc
    case Repeat(a, lo, hi) =>
      lo <= |t| && (hi.Some? ==> |t| <= hi.value) && forall k :: 0 <= k < |t| ==> AtomMatches(a, t[k])
    case Choice(ws) => t in ws
  }

  /** Where piece j starts, given the start i of the match and the ends e. */
  function Start(i: nat, e: seq<nat>, j: nat): nat {
    if j == 0 || j > |e| then i else e[j - 1]
  }

  /** `e` splits `s[i..]` into consecutive texts, one per piece, each an
      expansion of its piece: a match of `p` at `i`, in any order of trial. */
  ghost predicate MatchesWith(p: Pattern, s: string, i: nat, e: seq<nat>) {
    && i <= |s| && |e| == |p|
    && (forall j {:trigger p[j]} :: 0 <= j < |p| ==> Start(i, e, j) <= e[j] <= |s|)
    && (forall j {:trigger p[j]} :: 0 <= j < |p| ==> PieceMatches(p[j], s[Start(i, e, j)..e[j]]))
  }

  /** The facts `MatchesWith` states about piece `j`. */
  lemma PieceAt(p: Pattern, s: string, i: nat, e: seq<nat>, j: nat)
    requires MatchesWith(p, s, i, e) && j < |p|
    ensures Start(i, e, j) <= e[j] <= |s| && PieceMatches(p[j], s[Start(i, e, j)..e[j]])
  {
    assert p[j] == p[j];
  }

  lemma MatchesWithCons(p: Pattern, s: string, i: nat, e: seq<nat>)
    requires p != [] && |e| == |p| && i <= e[0] <= |s|
    ensures MatchesWith(p, s, i, e) <==>
      PieceMatches(p[0], s[i..e[0]]) && MatchesWith(p[1..], s, e[0], e[1..])
  {
    forall j | 0 <= j < |p| - 1
      ensures Start(e[0], e[1..], j) == Start(i, e, j + 1)
    {
    }
    if PieceMatches(p[0], s[i..e[0]]) && MatchesWith(p[1..], s, e[0], e[1..]) {
      forall j | 0 <= j < |p|
        ensures Start(i, e, j) <= e[j] <= |s| && PieceMatches(p[j], s[Start(i, e, j)..e[j]])
      {
        if j > 0 {
          assert Start(e[0], e[1..], j - 1) == Start(i, e, j);
          assert e[1..][j - 1] == e[j] && p[1..][j - 1] == p[j];
        }
      }
    }
    if MatchesWith(p, s, i, e) {
      forall j | 0 <= j < |p| - 1
        ensures Start(e[0], e[1..], j) <= e[1..][j] <= |s|
        ensures PieceMatches(p[1..][j], s[Start(e[0], e[1..], j)..e[1..][j]])
      {
        assert Start(e[0], e[1..], j) == Start(i, e, j + 1);
        PieceAt(p, s, i, e, j + 1);
      }
    }
  }

  // -------------------------------------------------------------- soundness

  lemma {:induction false} MatchAtSound(p: Pattern, s: string, i: nat)
    requires i <= |s| && MatchAt(p, s, i).Some?
    ensures MatchesWith(p, s, i, MatchAt(p, s, i).value)
    decreases |p|, 2, 0
  {
    if p != [] {
      match p[0]
      case Repeat(a, lo, hi) => TryCountSound(p, s, i, Run(a, s, i, hi));
      case Choice(ws) => TryWordSound(p, s, i, 0);
    }
  }

  lemma {:induction false} TryCountSound(p: Pattern, s: string, i: nat, k: nat)
    requires p != [] && p[0].Repeat? && i <= |s|
    requires p[0].min <= k <= Run(p[0].atom, s, i, p[0].max)
    requires TryCount(p, s, i, k).Some?
    ensures MatchesWith(p, s, i, TryCount(p, s, i, k).value)
    decreases |p|, 1, k
  {
    match MatchAt(p[1..], s, i + k)
    case Some(rest) =>
      MatchAtSound(p[1..], s, i + k);
      var e := [i + k] + rest;
      assert e[1..] == rest;
      MatchesWithCons(p, s, i, e);
    case None =>
      TryCountSound(p, s, i, k - 1);
  }

  lemma {:induction false} TryWordSound(p: Pattern, s: string, i: nat, j: nat)
    requires p != [] && p[0].Choice? && i <= |s| && j <= |p[0].words|
    requires TryWord(p, s, i, j).Some?
    ensures MatchesWith(p, s, i, TryWord(p, s, i, j).value)
    decreases |p|, 1, |p[0].words| - j
  {
    var w := p[0].words[j];
    if OccursAt(w, s, i) && MatchAt(p[1..], s, i + |w|).Some? {
      var rest := MatchAt(p[1..], s, i + |w|).value;
      var e := [i + |w|] + rest;
      assert TryWord(p, s, i, j) == Some(e);
      MatchAtSound(p[1..], s, i + |w|);
      assert e[1..] == rest;
      assert s[i..e[0]] == w && w in p[0].words;
      MatchesWithCons(p, s, i, e);
    } else {
      assert TryWord(p, s, i, j) == TryWord(p, s, i, j + 1);
      TryWordSound(p, s, i, j + 1);
    }
  }

  // ----------------------------------------------------------- completeness

  lemma {:induction false} MatchAtComplete(p: Pattern, s: string, i: nat, e: seq<nat>)
    requires MatchesWith(p, s, i, e)
    ensures MatchAt(p, s, i).Some?
    decreases |p|
  {
    if p != [] {
      PieceAt(p, s, i, e, 0);
      MatchesWithCons(p, s, i, e);
      MatchAtComplete(p[1..], s, e[0], e[1..]);
      FirstPieceComplete(p, s, i, e[0]);
    }
  }

  /** When the first piece can expand to `s[i..m]` and the rest matches at
      `m`, the backtracking search succeeds at `i`. */
  lemma FirstPieceComplete(p: Pattern, s: string, i: nat, m: nat)
    requires p != [] && i <= m <= |s| && PieceMatches(p[0], s[i..m])
    requires MatchAt(p[1..], s, m).Some?
    ensures MatchAt(p, s, i).Some?
  {
    match p[0]
    case Repeat(a, lo, hi) =>
      assert forall j :: i <= j < m ==> s[j] == s[i..m][j - i];
      RunCovers(a, s, i, m, hi);
      TryCountComplete(p, s, i, Run(a, s, i, hi), m - i);
    case Choice(ws) =>
      var n :| 0 <= n < |ws| && ws[n] == s[i..m];
      TryWordComplete(p, s, i, 0, n);
  }

  /** The greedy run reaches at least as far as any admissible expansion. */
  lemma RunCovers(a: Atom, s: string, i: nat, m: nat, cap: Option<nat>)
    requires i <= m <= |s| && (cap.Some? ==> m - i <= cap.value)
    requires forall j :: i <= j < m ==> AtomMatches(a, s[j])
    ensures m - i <= Run(a, s, i, cap)
  {
  }

  lemma {:induction false} TryCountComplete(p: Pattern, s: string, i: nat, k: nat, c: nat)
    requires p != [] && p[0].Repeat? && i <= |s|
    requires p[0].min <= c <= k <= Run(p[0].atom, s, i, p[0].max)
    requires MatchAt(p[1..], s, i + c).Some?
    ensures TryCount(p, s, i, k).Some?
    decreases k
  {
    if MatchAt(p[1..], s, i + k).None? {
      TryCountComplete(p, s, i, k - 1, c);
    }
  }

  lemma {:induction false} TryWordComplete(p: Pattern, s: string, i: nat, j: nat, n: nat)
    requires p != [] && p[0].Choice? && i <= |s| && j <= n < |p[0].words|
    requires OccursAt(p[0].words[n], s, i)
    requires MatchAt(p[1..], s, i + |p[0].words[n]|).Some?
    ensures TryWord(p, s, i, j).Some?
    decreases n - j
  {
    var w := p[0].words[j];
    if !(OccursAt(w, s, i) && MatchAt(p[1..], s, i + |w|).Some?) {
      TryWordComplete(p, s, i, j + 1, n);
    }
  }

  /** `MatchAt` finds a match at `i` exactly when the reference definition
      admits one. */
  lemma MatchAtIff(p: Pattern, s: string, i: nat)
    requires i <= |s|
    ensures MatchAt(p, s, i).Some? <==> exists e :: MatchesWith(p, s, i, e)
  {
    if MatchAt(p, s, i).Some? {
      MatchAtSound(p, s, i);
    }
    if e :| MatchesWith(p, s, i, e) {
      MatchAtComplete(p, s, i, e);
    }
  }

  /** A match looks only at the text up to its last end: it is still a match
      when more text follows. */
  lemma MatchesWithExtends(p: Pattern, s: string, i: nat, e: seq<nat>, t: string)
    requires MatchesWith(p, s, i, e)
    ensures MatchesWith(p, s + t, i, e)
  {
    forall j | 0 <= j < |p|
      ensures Start(i, e, j) <= e[j] <= |s + t| && PieceMatches(p[j], (s + t)[Start(i, e, j)..e[j]])
    {
      PieceAt(p, s, i, e, j);
      assert (s + t)[Start(i, e, j)..e[j]] == s[Start(i, e, j)..e[j]];
    }
  }

  /** A pattern that matches at the start of `s` matches at the start of any
      text beginning with `s`. */
  lemma MatchAtExtends(p: Pattern, s: string, t: string)
    requires MatchAt(p, s, 0).Some?
    ensures MatchAt(p, s + t, 0).Some?
  {
    MatchAtSound(p, s, 0);
    MatchesWithExtends(p, s, 0, MatchAt(p, s, 0).value, t);
    MatchAtComplete(p, s + t, 0, MatchAt(p, s, 0).value);
  }

  // ------------------------------------------------------ leftmost searching

  /** The leftmost start at or after `i` where `p` matches, and that match. */
  function FindFrom(p: Pattern, s: string, i: nat): (r: Option<(nat, seq<nat>)>)
    requires i <= |s|
    ensures r.Some? ==> i <= r.value.0 <= |s| && MatchAt(p, s, r.value.0) == Some(r.value.1)
    decreases |s| - i
  {
    match MatchAt(p, s, i)
    case Some(e) => Some((i, e))
    case None => if i == |s| then None else FindFrom(p, s, i + 1)
  }

  /** `FindFrom` reports the leftmost start, and nothing only when no start
      at or after `i` matches. */
  lemma {:induction false} FindFromLeftmost(p: Pattern, s: string, i: nat)
    requires i <= |s|
    ensures FindFrom(p, s, i).Some? ==>
      forall j :: i <= j < FindFrom(p, s, i).value.0 ==> MatchAt(p, s, j).None?
    ensures FindFrom(p, s, i).None? <==> forall j :: i <= j <= |s| ==> MatchAt(p, s, j).None?
    decreases |s| - i
  {
    if MatchAt(p, s, i).None? && i < |s| {
      FindFromLeftmost(p, s, i + 1);
    } else if MatchAt(p, s, i).Some? {
      assert !MatchAt(p, s, i).None?;
    }
  }

  /** `Regex::captures` / `Regex::find`: the leftmost match. */
  function Find(p: Pattern, s: string): Option<(nat, seq<nat>)> {
    FindFrom(p, s, 0)
  }

  /** `Regex::is_match`. */
  predicate IsMatch(p: Pattern, s: string) {
    Find(p, s).Some?
  }

  /** A match at the leftmost start is what `Find` reports. */
  lemma FindLeftmost(p: Pattern, s: string, i: nat)
    requires i <= |s| && MatchAt(p, s, i).Some?
    requires forall j :: 0 <= j < i ==> MatchAt(p, s, j).None?
    ensures Find(p, s) == Some((i, MatchAt(p, s, i).value))
  {
    FindFromLeftmost(p, s, 0);
    var (k, e) := Find(p, s).value;
    assert !(k < i);
  }

  // ----------------------------------------------------- required characters

  /** Every expansion of piece `pc` contains the character `c`. */
  predicate Demands(pc: Piece, c: char) {
    match pc
    case Repeat(a, lo, _) => a == Char(c) && lo >= 1
    case Choice(ws) => forall w :: w in ws ==> c in w
  }

  /** A pattern with a piece that demands `c` never matches a text without `c`. */
  lemma {:induction false} DemandedCharPresent(p: Pattern, s: string, j: nat, c: char)
    requires j < |p| && Demands(p[j], c) && IsMatch(p, s)
    ensures c in s
  {
    var (i, e) := Find(p, s).value;
    MatchAtSound(p, s, i);
    var t := s[Start(i, e, j)..e[j]];
    assert PieceMatches(p[j], t);
    assert c in t by {
      if p[j].Repeat? {
        assert AtomMatches(p[j].atom, t[0]);
      }
    }
    var k :| 0 <= k < |t| && t[k] == c;
    assert s[Start(i, e, j) + k] == c;
  }

  // ---------------------------------------------------------- capture groups

  /** A capture group: the pieces `from` up to but excluding `to`. */
  datatype Group = Group(from: nat, to: nat)

  /** The text a group captured in the match `e` starting at `i`. */
  function GroupText(s: string, i: nat, e: seq<nat>, g: Group): string {
    if g.from < g.to <= |e| then Sub(s, Start(i, e, g.from), e[g.to - 1]) else ""
  }

  function Captures(groups: seq<Group>, s: string, i: nat, e: seq<nat>): (caps: seq<string>)
    ensures |caps| == |groups|
    ensures forall k :: 0 <= k < |groups| ==> caps[k] == GroupText(s, i, e, groups[k])
  {
    seq(|groups|, k requires 0 <= k < |groups| => GroupText(s, i, e, groups[k]))
  }

  /** Groups that lie inside the pattern, each spanning at least one piece,
      in left-to-right order without overlap. */
  predicate OrderedGroups(groups: seq<Group>, n: nat) {
    && (forall k :: 0 <= k < |groups| ==> groups[k].from < groups[k].to <= n)
    && (forall k :: 0 < k < |groups| ==> groups[k - 1].to <= groups[k].from)
  }

  lemma {:induction false} StartMonotone(p: Pattern, s: string, i: nat, e: seq<nat>, a: nat, b: nat)
    requires MatchesWith(p, s, i, e) && a <= b <= |p|
    ensures Start(i, e, a) <= Start(i, e, b)
    decreases b - a
  {
    if a < b {
      StartMonotone(p, s, i, e, a + 1, b);
      PieceAt(p, s, i, e, a);
      assert Start(i, e, a) <= e[a] == Start(i, e, a + 1);
    }
  }

  /** `a` is `b` with some characters left out: `idx` says where each
      character of `a` sits in `b`, strictly left to right. */
  predicate Embeds(idx: seq<nat>, a: string, b: string) {
    && |idx| == |a|
    && (forall m :: 0 <= m < |a| ==> idx[m] < |b| && b[idx[m]] == a[m])
    && (forall m :: 0 < m < |idx| ==> idx[m - 1] < idx[m])
  }

  ghost predicate IsSubsequence(a: string, b: string) {
    exists idx :: Embeds(idx, a, b)
  }

  lemma EmbedsAppend(x: seq<nat>, a: string, y: seq<nat>, c: string, b: string)
    requires Embeds(x, a, b) && Embeds(y, c, b)
    requires |x| > 0 && |y| > 0 ==> x[|x| - 1] < y[0]
    ensures Embeds(x + y, a + c, b)
  {
  }

  function Concat(parts: seq<string>): string {
    if parts == [] then "" else parts[0] + Concat(parts[1..])
  }

  /** The positions of the characters captured by `groups`, in order. */
  function CaptureIndices(groups: seq<Group>, i: nat, e: seq<nat>): seq<nat> {
    if groups == [] then []
    else
      var lo := Start(i, e, groups[0].from);
      var hi := Start(i, e, groups[0].to);
      (if lo <= hi then seq(hi - lo, m => lo + m) else []) + CaptureIndices(groups[1..], i, e)
  }

  /** The captured texts, read left to right, are a subsequence of the
      matched text: a capture never invents or reorders characters. */
  lemma {:induction false} CapturesInOrder(p: Pattern, groups: seq<Group>, s: string, i: nat, e: seq<nat>)
    requires MatchesWith(p, s, i, e) && OrderedGroups(groups, |p|)
    ensures Embeds(CaptureIndices(groups, i, e), Concat(Captures(groups, s, i, e)), s)
  {
    if groups != [] {
      var g := groups[0];
      GroupSpan(p, s, i, e, g);
      CapturesInOrder(p, groups[1..], s, i, e);
      if groups[1..] != [] {
        CaptureIndicesAbove(p, groups[1..], s, i, e);
        StartMonotone(p, s, i, e, g.to, groups[1].from);
      }
      CapturesStep(groups, s, i, e);
    }
  }

  /** One step of `CapturesInOrder`: the first group's positions, then the
      positions of the rest, which all lie beyond it. */
  lemma CapturesStep(groups: seq<Group>, s: string, i: nat, e: seq<nat>)
    requires groups != []
    requires Start(i, e, groups[0].from) <= Start(i, e, groups[0].to) <= |s|
    requires GroupText(s, i, e, groups[0]) == s[Start(i, e, groups[0].from)..Start(i, e, groups[0].to)]
    requires Embeds(CaptureIndices(groups[1..], i, e), Concat(Captures(groups[1..], s, i, e)), s)
    requires forall m :: 0 <= m < |CaptureIndices(groups[1..], i, e)| ==>
      Start(i, e, groups[0].to) <= CaptureIndices(groups[1..], i, e)[m]
    ensures Embeds(CaptureIndices(groups, i, e), Concat(Captures(groups, s, i, e)), s)
  {
    var lo, hi := Start(i, e, groups[0].from), Start(i, e, groups[0].to);
    var head := seq(hi - lo, m => lo + m);
    var rest := CaptureIndices(groups[1..], i, e);
    var caps := Captures(groups, s, i, e);
    assert Captures(groups[1..], s, i, e) == caps[1..];
    RangeEmbeds(lo, hi, s);
    EmbedsAppend(head, s[lo..hi], rest, Concat(caps[1..]), s);
    assert CaptureIndices(groups, i, e) == head + rest;
    assert Concat(caps) == s[lo..hi] + Concat(caps[1..]);
  }

  /** Every captured position lies at or after the start of the first group. */
  lemma {:induction false} CaptureIndicesAbove(p: Pattern, groups: seq<Group>, s: string, i: nat, e: seq<nat>)
    requires MatchesWith(p, s, i, e) && OrderedGroups(groups, |p|) && groups != []
    ensures forall m :: 0 <= m < |CaptureIndices(groups, i, e)| ==>
      Start(i, e, groups[0].from) <= CaptureIndices(groups, i, e)[m]
  {
    var g := groups[0];
    var lo, hi := Start(i, e, g.from), Start(i, e, g.to);
    var rest := CaptureIndices(groups[1..], i, e);
    StartMonotone(p, s, i, e, g.from, g.to);
    var next := hi;
    if groups[1..] != [] {
      CaptureIndicesAbove(p, groups[1..], s, i, e);
      StartMonotone(p, s, i, e, g.to, groups[1].from);
      next := Start(i, e, groups[1].from);
    }
    assert forall m :: 0 <= m < |rest| ==> next <= rest[m];
    var head := seq(hi - lo, m => lo + m);
    assert CaptureIndices(groups, i, e) == head + rest;
    IndicesAbove(head, rest, lo, hi, next);
  }

  lemma IndicesAbove(head: seq<nat>, rest: seq<nat>, lo: nat, hi: nat, next: nat)
    requires lo <= hi <= next && head == seq(hi - lo, m => lo + m)
    requires forall m :: 0 <= m < |rest| ==> next <= rest[m]
    ensures forall m :: 0 <= m < |head + rest| ==> lo <= (head + rest)[m]
  {
  }

  /** A group spanning pieces `from` to `to - 1` captures `s` between their
      start and end. */
  lemma GroupSpan(p: Pattern, s: string, i: nat, e: seq<nat>, g: Group)
    requires MatchesWith(p, s, i, e) && g.from < g.to <= |p|
    ensures Start(i, e, g.from) <= Start(i, e, g.to) == e[g.to - 1] <= |s|
    ensures GroupText(s, i, e, g) == s[Start(i, e, g.from)..Start(i, e, g.to)]
  {
    StartMonotone(p, s, i, e, g.from, g.to);
    PieceAt(p, s, i, e, g.to - 1);
  }

  lemma RangeEmbeds(lo: nat, hi: nat, s: string)
    requires lo <= hi <= |s|
    ensures Embeds(seq(hi - lo, m => lo + m), s[lo..hi], s)
  {
  }

  /** The number of characters every expansion of `pc` has, if fixed. */
  function PieceWidth(pc: Piece): (w: Option<nat>)
    ensures w.Some? ==> forall t :: PieceMatches(pc, t) ==> |t| == w.value
  {
    match pc
    case Repeat(_, lo, hi) => if hi == Some(lo) then Some(lo) else None
    case Choice(ws) => if |ws| == 1 then Some(|ws[0]|) else None
  }

  /** While the pieces have fixed widths, a match's piece ends are determined
      by its start. */
  lemma {:induction false} FixedPrefixUnique(p: Pattern, s: string, i: nat, e1: seq<nat>, e2: seq<nat>, n: nat)
    requires MatchesWith(p, s, i, e1) && MatchesWith(p, s, i, e2)
    requires n <= |p| && forall j :: 0 <= j < n ==> PieceWidth(p[j]).Some?
    ensures e1[..n] == e2[..n]
  {
    if n > 0 {
      FixedFirstEnd(p, s, i, e1, e2);
      assert forall j :: 0 <= j < n - 1 ==> p[1..][j] == p[j + 1];
      FixedPrefixUnique(p[1..], s, e1[0], e1[1..], e2[1..], n - 1);
      PrefixCons(e1, e2, n);
    }
  }

  lemma PrefixCons(e1: seq<nat>, e2: seq<nat>, n: nat)
    requires 0 < n <= |e1| && n <= |e2| && e1[0] == e2[0]
    requires e1[1..][..n - 1] == e2[1..][..n - 1]
    ensures e1[..n] == e2[..n]
  {
    assert e1[..n] == [e1[0]] + e1[1..][..n - 1];
    assert e2[..n] == [e2[0]] + e2[1..][..n - 1];
  }

  lemma FixedFirstEnd(p: Pattern, s: string, i: nat, e1: seq<nat>, e2: seq<nat>)
    requires MatchesWith(p, s, i, e1) && MatchesWith(p, s, i, e2)
    requires p != [] && PieceWidth(p[0]).Some?
    ensures e1[0] == e2[0]
    ensures MatchesWith(p[1..], s, e1[0], e1[1..]) && MatchesWith(p[1..], s, e2[0], e2[1..])
  {
    PieceAt(p, s, i, e1, 0);
    PieceAt(p, s, i, e2, 0);
    MatchesWithCons(p, s, i, e1);
    MatchesWithCons(p, s, i, e2);
    assert |s[i..e1[0]]| == |s[i..e2[0]]|;
  }

  /** A pattern of fixed-width pieces that matches at the start of `s` with
      piece ends `e` is found there, with exactly those ends. */
  lemma FixedMatchAtStart(p: Pattern, s: string, e: seq<nat>)
    requires MatchesWith(p, s, 0, e)
    requires forall j :: 0 <= j < |p| ==> PieceWidth(p[j]).Some?
    ensures Find(p, s) == Some((0, e))
  {
    MatchAtComplete(p, s, 0, e);
    FindLeftmost(p, s, 0);
    MatchAtSound(p, s, 0);
    var m := MatchAt(p, s, 0).value;
    FixedPrefixUnique(p, s, 0, m, e, |p|);
    assert m[..|p|] == m && e[..|p|] == e;
  }

  // ------------------------------------------------------- case insensitivity

  function LowerAtom(a: Atom): Atom {
    match a
    case Char(c) => Char(LowerChar(c))
    case Among(cs) => Among(seq(|cs|, k requires 0 <= k < |cs| => LowerChar(cs[k])))
    case _ => a
  }

  /** The pattern with its literals lower-cased: matched against a lower-cased
      text it behaves as the `(?i)` flag does on ASCII letters. */
  function LowerPattern(p: Pattern): (q: Pattern)
    ensures |q| == |p|
  {
    seq(|p|, j requires 0 <= j < |p| =>
      match p[j]
      case Repeat(a, lo, hi) => Repeat(LowerAtom(a), lo, hi)
      case Choice(ws) => Choice(seq(|ws|, k requires 0 <= k < |ws| => Lower(ws[k]))))
  }

  /** `(?i)^...` tested with `is_match`: an ASCII-case-insensitive match
      anchored at the start of the text. */
  predicate MatchesStartIgnoringCase(p: Pattern, s: string) {
    MatchAt(LowerPattern(p), Lower(s), 0).Some?
  }

  /** A match anchored at `i` of a pattern that opens with a choice of words
      begins with one of those words. */
  lemma MatchAtLeadingWord(p: Pattern, s: string, i: nat)
    requires p != [] && p[0].Choice? && i <= |s| && MatchAt(p, s, i).Some?
    ensures exists w :: w in p[0].words && OccursAt(w, s, i)
  {
    MatchAtSound(p, s, i);
    var e := MatchAt(p, s, i).value;
    PieceAt(p, s, i, e, 0);
    assert OccursAt(s[i..e[0]], s, i);
  }

  /** A literal followed by one digit is matched by `<literal>\d+`. */
  lemma LiteralThenDigits(w: string, s: string)
    requires |w| < |s| && s[..|w|] == w && IsAsciiDigit(s[|w|])
    ensures MatchAt([Lit(w), DigitsFrom(1)], s, 0).Some?
  {
    var p := [Lit(w), DigitsFrom(1)];
    var e := [|w|, |w| + 1];
    assert s[0..|w|] == w;
    assert s[|w|..|w| + 1] == [s[|w|]];
    assert PieceMatches(p[0], s[Start(0, e, 0)..e[0]]);
    assert PieceMatches(p[1], s[Start(0, e, 1)..e[1]]);
    assert MatchesWith(p, s, 0, e);
    MatchAtComplete(p, s, 0, e);
  }

  /** A text matched from its start, ignoring case, by a pattern opening with
      a literal, starts with that literal in lower case. */
  lemma StartIgnoringCaseLiteral(p: Pattern, s: string, w: string)
    requires p != [] && p[0] == Lit(w) && MatchesStartIgnoringCase(p, s)
    ensures StartsWith(Lower(s), Lower(w))
  {
    var q := LowerPattern(p);
    assert q[0].words == [Lower(w)];
    MatchAtLeadingWord(q, Lower(s), 0);
  }

  /** An anchored match without `$` still holds when text is appended. */
  lemma MatchesStartExtends(p: Pattern, s: string, t: string)
    requires MatchesStartIgnoringCase(p, s)
    ensures MatchesStartIgnoringCase(p, s + t)
  {
    LowerAppend(s, t);
    MatchAtExtends(LowerPattern(p), Lower(s), Lower(t));
  }
}
