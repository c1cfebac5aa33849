/**
 * The class names of a CSS/SCSS document and the TypeScript union type that
 * the `createType` and `clipboardType` commands build from them.
 *
 * The two regular expressions of `getAllClassNames` are written out as
 * scanners that try the pattern at every position, as a global `match` does:
 * MatchLines for `/.*[,{]/g` and Tokens for `/\.[_A-Za-z0-9-]+/g`. Each scanner
 * is then proved equal to a description that does not scan (LinePrefixes over
 * the lines; TokenAt at every `.`).
 */
module ClassNames {
  import opened Wrappers
  import opened Text

  /** The characters that `.` in a regular expression does not match. */
  const LineTerminators: set<char> := {'\n', '\r', '\U{2028}', '\U{2029}'}

  predicate IsDelimiter(c: char) {
    c == ',' || c == '{'
  }

  /** `[_A-Za-z0-9-]` */
  predicate IsNameChar(c: char) {
    c == '_' || c == '-' || ('A' <= c <= 'Z') || ('a' <= c <= 'z') || IsDigit(c)
  }

  /** The lines of a text, cut at every line terminator. */
  function Lines(s: string): seq<string> {
    Split(s, LineTerminators)
  }

  // ------------------------------------------------------------ /.*[,{]/g

  /**
   * Backtracking of the greedy `.*` over one line: the length of the line up to
   * and including its last `,` or `{`, if it has one.
   */
  function LastDelimiterEnd(line: string): (r: Option<nat>)
    ensures r.Some? ==> 0 < r.value <= |line| && IsDelimiter(line[r.value - 1])
    ensures r.Some? ==> forall k :: r.value <= k < |line| ==> !IsDelimiter(line[k])
    ensures r.None? ==> forall k :: 0 <= k < |line| ==> !IsDelimiter(line[k])
  {
    if line == [] then None
    else if IsDelimiter(line[|line| - 1]) then Some(|line|)
    else LastDelimiterEnd(line[..|line| - 1])
  }

  /** The length of the match of `.*[,{]` tried at the head of `s`, if it matches there. */
  function MatchAt(s: string): Option<nat> {
    LastDelimiterEnd(s[..IndexOfAny(s, LineTerminators)])
  }

  /** `s.match(/.*[,{]/g)`, with [] standing for `null`. */
  function MatchLines(s: string): seq<string>
    decreases |s|
  {
    if s == [] then []
    else match MatchAt(s)
      case Some(k) => [s[..k]] + MatchLines(s[k..])
      case None => MatchLines(s[1..])
  }

  /** What `/.*[,{]/` keeps of one line: the line up to its last delimiter, if it has one. */
  function PrefixOfLine(line: string): seq<string> {
    match LastDelimiterEnd(line)
    case Some(k) => [line[..k]]
    case None => []
  }

  /** Reference: every line cut after its last delimiter; lines without one are dropped. */
  function LinePrefixes(lines: seq<string>): seq<string> {
    if lines == [] then [] else PrefixOfLine(lines[0]) + LinePrefixes(lines[1..])
  }

  /** Where the first line has no delimiter, the scan resumes on the next line. */
  lemma {:induction false} SkipLine(t: string)
    requires forall k :: 0 <= k < IndexOfAny(t, LineTerminators) ==> !IsDelimiter(t[k])
    ensures var n := IndexOfAny(t, LineTerminators);
            MatchLines(t) == if n < |t| then MatchLines(t[n + 1..]) else []
    decreases |t|
  {
    var n := IndexOfAny(t, LineTerminators);
    if t != [] {
      assert LastDelimiterEnd(t[..n]) == None;
      NoMatchHere(t);
      if n > 0 {
        var u := t[1..];
        IndexOfAnyDrop(t, LineTerminators, 1);
        forall k | 0 <= k < n - 1 ensures !IsDelimiter(u[k]) {
          assert u[k] == t[k + 1];
        }
        SkipLine(u);
        if n < |t| {
          assert u[n..] == t[n + 1..];
        }
      }
    }
  }

  /** Where `.*[,{]` does not match at the head, the scan moves on one character. */
  lemma {:induction false} NoMatchHere(t: string)
    requires t != [] && MatchAt(t) == None
    ensures MatchLines(t) == MatchLines(t[1..])
  {
  }

  /** A first line with a delimiter: the scan keeps it up to its last delimiter and resumes on the next line. */
  lemma {:induction false} MatchLineKept(s: string, n: nat, k: nat)
    requires n == IndexOfAny(s, LineTerminators) && LastDelimiterEnd(s[..n]) == Some(k)
    ensures MatchLines(s) == [s[..k]] + (if n < |s| then MatchLines(s[n + 1..]) else [])
  {
    assert MatchLines(s) == [s[..k]] + MatchLines(s[k..]);
    var t := s[k..];
    IndexOfAnyDrop(s, LineTerminators, k);
    forall k' | 0 <= k' < n - k ensures !IsDelimiter(t[k']) {
      assert t[k'] == s[..n][k + k'];
    }
    SkipLine(t);
    if n < |s| {
      assert t[n - k + 1..] == s[n + 1..];
    }
  }

  /** A first line without a delimiter: the scan resumes on the next line. */
  lemma {:induction false} MatchLineDropped(s: string, n: nat)
    requires s != [] && n == IndexOfAny(s, LineTerminators) && LastDelimiterEnd(s[..n]) == None
    ensures MatchLines(s) == if n < |s| then MatchLines(s[n + 1..]) else []
  {
    forall k' | 0 <= k' < n ensures !IsDelimiter(s[k']) {
      assert s[k'] == s[..n][k'];
    }
    SkipLine(s);
  }

  /** The scan keeps what the first line contributes, then goes on after it. */
  lemma {:induction false} MatchLinesHead(s: string)
    ensures var n := IndexOfAny(s, LineTerminators);
            MatchLines(s) == PrefixOfLine(s[..n]) + (if n < |s| then MatchLines(s[n + 1..]) else [])
  {
    var n := IndexOfAny(s, LineTerminators);
    var line := s[..n];
    if s == [] {
      assert PrefixOfLine(line) == [];
    } else if LastDelimiterEnd(line).Some? {
      PrefixOfLineKept(s, n);
      MatchLineKept(s, n, LastDelimiterEnd(line).value);
    } else {
      MatchLineDropped(s, n);
    }
  }

  /** What the first line keeps, in terms of the whole text. */
  lemma {:induction false} PrefixOfLineKept(s: string, n: nat)
    requires n <= |s| && LastDelimiterEnd(s[..n]).Some?
    ensures PrefixOfLine(s[..n]) == [s[..LastDelimiterEnd(s[..n]).value]]
  {
    var k := LastDelimiterEnd(s[..n]).value;
    assert s[..n][..k] == s[..k];
  }

  lemma {:induction false} LinesHead(s: string)
    ensures var n := IndexOfAny(s, LineTerminators);
            Lines(s) == [s[..n]] + (if n < |s| then Lines(s[n + 1..]) else [])
  {
    var n := IndexOfAny(s, LineTerminators);
    if n == |s| {
      assert s[..n] == s;
    }
  }

  /** The global match of `/.*[,{]/g` is, line by line, each line up to its last `,` or `{`. */
  lemma {:induction false} MatchLinesByLine(s: string)
    ensures MatchLines(s) == LinePrefixes(Lines(s))
    decreases |s|
  {
    var n := IndexOfAny(s, LineTerminators);
    LinesHead(s);
    MatchLinesHead(s);
    if n < |s| {
      var t := s[n + 1..];
      MatchLinesByLine(t);
      LinePrefixesCons(s[..n], Lines(t));
    } else {
      LinePrefixesCons(s[..n], []);
      assert [s[..n]] + [] == [s[..n]];
    }
  }

  lemma {:induction false} LinePrefixesCons(line: string, lines: seq<string>)
    ensures LinePrefixes([line] + lines) == PrefixOfLine(line) + LinePrefixes(lines)
  {
    assert ([line] + lines)[0] == line;
    assert ([line] + lines)[1..] == lines;
  }

  // ------------------------------------------------------ /\.[_A-Za-z0-9-]+/g

  /** A match of `\.[_A-Za-z0-9-]+` starts at `i`. */
  predicate StartsToken(s: string, i: nat) {
    i + 1 < |s| && s[i] == '.' && IsNameChar(s[i + 1])
  }

  /** The (greedy) match of `\.[_A-Za-z0-9-]+` at `i`. */
  function TokenAt(s: string, i: nat): string
    requires StartsToken(s, i)
  {
    s[i..RunEnd(s, i + 1, IsNameChar)]
  }

  predicate IsToken(t: string) {
    |t| >= 2 && t[0] == '.' && forall k :: 1 <= k < |t| ==> IsNameChar(t[k])
  }

  /** `s.match(/\.[_A-Za-z0-9-]+/g)`, with [] standing for `null`. */
  function Tokens(s: string): (r: seq<string>)
    ensures forall i :: 0 <= i < |r| ==> IsToken(r[i])
    decreases |s|
  {
    if s == [] then []
    else if StartsToken(s, 0) then
      var e := RunEnd(s, 1, IsNameChar);
      [s[..e]] + Tokens(s[e..])
    else Tokens(s[1..])
  }

  lemma TokenShift(s: string, d: nat, i: nat)
    requires d <= |s|
    ensures StartsToken(s[d..], i) <==> StartsToken(s, d + i)
    ensures StartsToken(s, d + i) ==> TokenAt(s[d..], i) == TokenAt(s, d + i)
  {
    if StartsToken(s, d + i) {
      RunEndUnique(s[d..], i + 1, IsNameChar, RunEnd(s, d + i + 1, IsNameChar) - d);
    }
  }

  /** Every token the scan finds starts at a `.` followed by a name character. */
  lemma {:induction false} TokensSound(s: string, t: string)
    requires t in Tokens(s)
    ensures exists i: nat :: StartsToken(s, i) && TokenAt(s, i) == t
    decreases |s|
  {
    var d := if StartsToken(s, 0) then RunEnd(s, 1, IsNameChar) else 1;
    if StartsToken(s, 0) && t == s[..d] {
      assert TokenAt(s, 0) == t;
    } else {
      var rest := s[d..];
      assert t in Tokens(rest);
      TokensSound(rest, t);
      var i: nat :| StartsToken(rest, i) && TokenAt(rest, i) == t;
      TokenShift(s, d, i);
      assert StartsToken(s, d + i) && TokenAt(s, d + i) == t;
    }
  }

  /** Every `.` followed by a name character starts a token that the scan finds. */
  lemma {:induction false} TokensComplete(s: string, i: nat)
    requires StartsToken(s, i)
    ensures TokenAt(s, i) in Tokens(s)
    decreases |s|
  {
    var d := if StartsToken(s, 0) then RunEnd(s, 1, IsNameChar) else 1;
    var rest := s[d..];
    assert Tokens(s) == (if StartsToken(s, 0) then [s[..d]] else []) + Tokens(rest);
    if i == 0 {
      assert TokenAt(s, 0) == s[..d];
    } else if i < d {
      assert false;
    } else {
      TokenShift(s, d, i - d);
      TokensComplete(rest, i - d);
    }
  }

  /** The scan finds exactly the tokens that start at a `.` followed by a name character. */
  lemma {:induction false} TokensExactly(s: string, t: string)
    ensures t in Tokens(s) <==> exists i: nat :: StartsToken(s, i) && TokenAt(s, i) == t
  {
    if t in Tokens(s) {
      TokensSound(s, t);
    }
    if exists i: nat :: StartsToken(s, i) && TokenAt(s, i) == t {
      var i: nat :| StartsToken(s, i) && TokenAt(s, i) == t;
      TokensComplete(s, i);
    }
  }

  /** A token at the head of `a` is the same token at the head of `a + " " + b`. */
  lemma {:induction false} TokenHeadAcrossSpace(a: string, b: string)
    requires StartsToken(a, 0)
    ensures StartsToken(a + " " + b, 0)
    ensures RunEnd(a + " " + b, 1, IsNameChar) == RunEnd(a, 1, IsNameChar)
  {
    var s := a + " " + b;
    var e := RunEnd(a, 1, IsNameChar);
    assert forall k :: 0 <= k < |a| ==> s[k] == a[k];
    assert s[|a|] == ' ';
    RunEndUnique(s, 1, IsNameChar, e);
  }

  /** Where `a` does not start with a token, neither does `a + " " + b`. */
  lemma {:induction false} NoTokenHeadAcrossSpace(a: string, b: string)
    requires a != [] && !StartsToken(a, 0)
    ensures !StartsToken(a + " " + b, 0)
  {
    var s := a + " " + b;
    assert s[0] == a[0];
    if |a| >= 2 {
      assert s[1] == a[1];
    } else {
      assert s[1] == ' ';
    }
  }

  /** A space ends every token: the tokens of `a + " " + b` are those of `a`, then those of `b`. */
  lemma {:induction false} TokensAcrossSpace(a: string, b: string)
    ensures Tokens(a + " " + b) == Tokens(a) + Tokens(b)
    decreases |a|
  {
    var s := a + " " + b;
    if a == [] {
      assert !StartsToken(s, 0);
      assert s[1..] == b;
    } else if StartsToken(a, 0) {
      var e := RunEnd(a, 1, IsNameChar);
      TokenHeadAcrossSpace(a, b);
      assert s[..e] == a[..e];
      assert s[e..] == a[e..] + " " + b;
      TokensAcrossSpace(a[e..], b);
      assert Tokens(s) == [a[..e]] + (Tokens(a[e..]) + Tokens(b));
    } else {
      NoTokenHeadAcrossSpace(a, b);
      assert s[1..] == a[1..] + " " + b;
      TokensAcrossSpace(a[1..], b);
    }
  }

  /** The tokens of each text, in order. */
  function AllTokens(ps: seq<string>): (r: seq<string>)
    ensures forall i :: 0 <= i < |r| ==> IsToken(r[i])
  {
    if ps == [] then [] else Tokens(ps[0]) + AllTokens(ps[1..])
  }

  /** Joining with spaces glues no two tokens together and splits none. */
  lemma {:induction false} TokensOfJoin(ps: seq<string>)
    ensures Tokens(Join(ps, " ")) == AllTokens(ps)
  {
    if |ps| == 1 {
      assert AllTokens(ps[1..]) == [];
    } else if |ps| >= 2 {
      TokensOfJoin(ps[1..]);
      TokensAcrossSpace(ps[0], Join(ps[1..], " "));
    }
  }

  lemma {:induction false} AllTokensMember(ps: seq<string>, t: string)
    ensures t in AllTokens(ps) <==> exists j :: 0 <= j < |ps| && t in Tokens(ps[j])
  {
    if ps != [] {
      AllTokensMember(ps[1..], t);
      if exists j :: 0 <= j < |ps| && t in Tokens(ps[j]) {
        var j :| 0 <= j < |ps| && t in Tokens(ps[j]);
        if j > 0 {
          assert ps[1..][j - 1] == ps[j];
        }
      }
      if t in AllTokens(ps[1..]) {
        var j :| 0 <= j < |ps[1..]| && t in Tokens(ps[1..][j]);
        assert ps[j + 1] == ps[1..][j];
      }
    }
  }

  /** The prefix that `/.*[,{]/` keeps of a line holds the token `t` at `i`. */
  predicate TokenInLine(line: string, i: nat, t: string) {
    match LastDelimiterEnd(line)
    case Some(k) => StartsToken(line[..k], i) && TokenAt(line[..k], i) == t
    case None => false
  }

  /** The tokens of what `/.*[,{]/` keeps of one line are the tokens inside that line's kept prefix. */
  lemma {:induction false} PrefixOfLineTokens(l: string, t: string)
    ensures t in AllTokens(PrefixOfLine(l)) <==> exists i: nat :: TokenInLine(l, i, t)
  {
    match LastDelimiterEnd(l) {
      case Some(k) =>
        var p := l[..k];
        assert PrefixOfLine(l) == [p];
        assert [p][1..] == [];
        assert AllTokens([p]) == Tokens(p) + AllTokens([]);
        assert AllTokens(PrefixOfLine(l)) == Tokens(p);
        TokensExactly(p, t);
        forall i: nat ensures TokenInLine(l, i, t) <==> StartsToken(p, i) && TokenAt(p, i) == t {
        }
      case None =>
        assert AllTokens(PrefixOfLine(l)) == [];
        forall i: nat ensures !TokenInLine(l, i, t) {
        }
    }
  }

  lemma {:induction false} LinePrefixesTokens(lines: seq<string>, t: string)
    ensures t in AllTokens(LinePrefixes(lines)) <==>
            exists j, i: nat :: 0 <= j < |lines| && TokenInLine(lines[j], i, t)
  {
    if lines != [] {
      var l := lines[0];
      var tail := lines[1..];
      LinePrefixesTokens(tail, t);
      assert LinePrefixes(lines) == PrefixOfLine(l) + LinePrefixes(tail);
      AllTokensAppend(PrefixOfLine(l), LinePrefixes(tail));
      var inHead := t in AllTokens(PrefixOfLine(l));
      PrefixOfLineTokens(l, t);
      if t in AllTokens(LinePrefixes(lines)) {
        if inHead {
          var i: nat :| TokenInLine(l, i, t);
          assert TokenInLine(lines[0], i, t);
        } else {
          var j, i: nat :| 0 <= j < |tail| && TokenInLine(tail[j], i, t);
          assert TokenInLine(lines[j + 1], i, t);
        }
      }
      if exists j, i: nat :: 0 <= j < |lines| && TokenInLine(lines[j], i, t) {
        var j, i: nat :| 0 <= j < |lines| && TokenInLine(lines[j], i, t);
        if j > 0 {
          assert TokenInLine(tail[j - 1], i, t);
        }
      }
    }
  }

  lemma {:induction false} AllTokensAppend(ps: seq<string>, qs: seq<string>)
    ensures AllTokens(ps + qs) == AllTokens(ps) + AllTokens(qs)
  {
    if ps == [] {
      assert ps + qs == qs;
    } else {
      assert (ps + qs)[0] == ps[0];
      assert (ps + qs)[1..] == ps[1..] + qs;
      AllTokensAppend(ps[1..], qs);
      assert AllTokens(ps + qs) == Tokens(ps[0]) + AllTokens(ps[1..] + qs);
    }
  }

  // -------------------------------------------------- uniq, map and filter

  /** Position of the first occurrence of `x` in `xs`, or |xs| when it does not occur. */
  function IndexOf(xs: seq<string>, x: string): (i: nat)
    ensures i <= |xs| && x !in xs[..i]
    ensures i < |xs| <==> x in xs
    ensures i < |xs| ==> xs[i] == x
  {
    if xs == [] then 0
    else if xs[0] == x then 0
    else
      var i := 1 + IndexOf(xs[1..], x);
      assert xs[..i] == [xs[0]] + xs[1..][..i - 1];
      i
  }

  lemma IndexOfUnique(xs: seq<string>, x: string, i: nat)
    requires i < |xs| && xs[i] == x && x !in xs[..i]
    ensures IndexOf(xs, x) == i
  {
  }

  lemma {:induction false} IndexOfInit(xs: seq<string>, x: string)
    requires |xs| >= 1 && x in xs[..|xs| - 1]
    ensures IndexOf(xs, x) == IndexOf(xs[..|xs| - 1], x)
  {
    var i := IndexOf(xs[..|xs| - 1], x);
    assert xs[..i] == xs[..|xs| - 1][..i];
    IndexOfUnique(xs, x, i);
  }

  predicate Distinct(xs: seq<string>) {
    forall i, j :: 0 <= i < j < |xs| ==> xs[i] != xs[j]
  }

  /** `[...new Set(xs)]`: a Set keeps the order in which values were first inserted. */
  function Uniq(xs: seq<string>): (r: seq<string>)
    ensures forall x :: x in r <==> x in xs
    ensures forall i, j :: 0 <= i < j < |r| ==> IndexOf(xs, r[i]) < IndexOf(xs, r[j])
  {
    if xs == [] then []
    else
      var init := xs[..|xs| - 1];
      var x := xs[|xs| - 1];
      var r := Uniq(init);
      assert xs == init + [x];
      assert forall y :: y in r ==> IndexOf(xs, y) == IndexOf(init, y) < |init| by {
        forall y | y in r ensures IndexOf(xs, y) == IndexOf(init, y) < |init| {
          IndexOfInit(xs, y);
        }
      }
      if x in r then r
      else
        assert IndexOf(xs, x) == |init|;
        r + [x]
  }

  /** `item.slice(1)` on every item. */
  function StripDots(xs: seq<string>): (r: seq<string>)
    ensures |r| == |xs|
    ensures forall i :: 0 <= i < |xs| ==> r[i] == if xs[i] == [] then [] else xs[i][1..]
  {
    seq(|xs|, i requires 0 <= i < |xs| => if xs[i] == [] then [] else xs[i][1..])
  }

  /** `/^[0-9]/.test(n)` */
  predicate DigitLed(n: string) {
    |n| > 0 && IsDigit(n[0])
  }

  /** `.filter((item) => !/^[0-9]/.test(item))` */
  function DropDigitLed(ns: seq<string>): (r: seq<string>)
    ensures forall x :: x in r <==> x in ns && !DigitLed(x)
  {
    if ns == [] then []
    else (if DigitLed(ns[0]) then [] else [ns[0]]) + DropDigitLed(ns[1..])
  }

  /** `getAllClassNames(content)` */
  function GetAllClassNames(content: string): seq<string> {
    var lines := MatchLines(content);
    if |lines| == 0 then []
    else
      var classNames := Tokens(Join(lines, " "));
      if |classNames| == 0 then []
      else DropDigitLed(StripDots(Uniq(classNames)))
  }

  /** The tokens `getAllClassNames` collects, line by line, without the regex scans. */
  function ClassTokens(content: string): seq<string> {
    AllTokens(LinePrefixes(Lines(content)))
  }

  /** A name as `getAllClassNames` returns it. */
  predicate IsClassName(n: string) {
    |n| >= 1 && !IsDigit(n[0]) && forall k :: 0 <= k < |n| ==> IsNameChar(n[k])
  }

  /** The names come from the tokens of the line prefixes, dots stripped and digit-led ones dropped. */
  lemma {:induction false} ClassNamesFromTokens(content: string)
    ensures GetAllClassNames(content) == DropDigitLed(StripDots(Uniq(ClassTokens(content))))
  {
    var lines := MatchLines(content);
    MatchLinesByLine(content);
    TokensOfJoin(lines);
    if |lines| == 0 {
      assert Join(lines, " ") == [];
    }
  }

  /** For tokens, stripping the dot loses nothing: `n` is a stripped token exactly when `"." + n` is a token. */
  lemma {:induction false} StripDotsMember(ts: seq<string>, n: string)
    requires forall i :: 0 <= i < |ts| ==> IsToken(ts[i])
    ensures n in StripDots(ts) <==> "." + n in ts
  {
    var r := StripDots(ts);
    if n in r {
      var i :| 0 <= i < |r| && r[i] == n;
      assert ts[i] == "." + n;
    }
    if "." + n in ts {
      var i :| 0 <= i < |ts| && ts[i] == "." + n;
      assert r[i] == n;
    }
  }

  /**
   * Membership: `n` is returned exactly when `"." + n` is a token of the part of
   * some line up to its last `,` or `{`, and `n` does not begin with a digit.
   */
  lemma {:induction false} ClassNamesMembership(content: string, n: string)
    ensures n in GetAllClassNames(content) <==>
            |n| > 0 && !IsDigit(n[0]) &&
            exists j, i :: 0 <= j < |Lines(content)| && TokenInLine(Lines(content)[j], i, "." + n)
  {
    ClassNamesFromTokens(content);
    var ts := ClassTokens(content);
    var u := Uniq(ts);
    UniqTokensAreTokens(content);
    StripDotsMember(u, n);
    LinePrefixesTokens(Lines(content), "." + n);
    if n == [] {
      assert !IsToken("." + n);
      assert "." + n !in u;
    }
  }

  /** Every returned name is non-empty, uses only `[_A-Za-z0-9-]` and does not begin with a digit. */
  lemma {:induction false} ClassNamesWellFormed(content: string)
    ensures forall n :: n in GetAllClassNames(content) ==> IsClassName(n)
  {
    ClassNamesFromTokens(content);
    UniqTokensAreTokens(content);
    TokensStripToNames(Uniq(ClassTokens(content)));
  }

  /** Tokens with the dot stripped and the digit-led ones dropped are class names. */
  lemma {:induction false} TokensStripToNames(u: seq<string>)
    requires forall i :: 0 <= i < |u| ==> IsToken(u[i])
    ensures forall n :: n in DropDigitLed(StripDots(u)) ==> IsClassName(n)
  {
    var stripped := StripDots(u);
    forall n | n in DropDigitLed(stripped) ensures IsClassName(n) {
      assert n in stripped && !DigitLed(n);
      var i :| 0 <= i < |stripped| && stripped[i] == n;
      assert IsToken(u[i]);
      assert n == u[i][1..];
    }
  }

  /** The order in which `"." + n` first occurs among the tokens. */
  predicate FirstSeenOrder(names: seq<string>, tokens: seq<string>) {
    forall i, j :: 0 <= i < j < |names| ==> FirstSeen(tokens, names[i]) < FirstSeen(tokens, names[j])
  }

  /** Where the token `"." + name` first occurs among the tokens. */
  function FirstSeen(tokens: seq<string>, name: string): nat {
    IndexOf(tokens, "." + name)
  }

  lemma {:induction false} FirstSeenOrderTail(ns: seq<string>, tokens: seq<string>)
    requires ns != [] && FirstSeenOrder(ns, tokens)
    ensures FirstSeenOrder(ns[1..], tokens)
  {
    forall i, j | 0 <= i < j < |ns[1..]|
      ensures FirstSeen(tokens, ns[1..][i]) < FirstSeen(tokens, ns[1..][j])
    {
      assert ns[1..][i] == ns[i + 1] && ns[1..][j] == ns[j + 1];
    }
  }

  lemma {:induction false} FirstSeenHeadBefore(ns: seq<string>, tokens: seq<string>, x: string)
    requires ns != [] && FirstSeenOrder(ns, tokens) && x in ns[1..]
    ensures FirstSeen(tokens, ns[0]) < FirstSeen(tokens, x)
  {
    var m :| 0 <= m < |ns[1..]| && ns[1..][m] == x;
    assert ns[m + 1] == x;
  }

  lemma {:induction false} FirstSeenCons(n: string, rest: seq<string>, tokens: seq<string>)
    requires FirstSeenOrder(rest, tokens)
    requires forall x :: x in rest ==> FirstSeen(tokens, n) < FirstSeen(tokens, x)
    ensures FirstSeenOrder([n] + rest, tokens)
  {
    var r := [n] + rest;
    forall i, j | 0 <= i < j < |r| ensures FirstSeen(tokens, r[i]) < FirstSeen(tokens, r[j]) {
      assert r[j] == rest[j - 1];
      if i == 0 {
        assert rest[j - 1] in rest;
      } else {
        assert r[i] == rest[i - 1];
      }
    }
  }

  /** Dropping the digit-led names keeps the others in first-seen order. */
  lemma {:induction false} DropDigitLedKeepsOrder(ns: seq<string>, tokens: seq<string>)
    requires FirstSeenOrder(ns, tokens)
    ensures FirstSeenOrder(DropDigitLed(ns), tokens)
  {
    if ns != [] {
      var rest := DropDigitLed(ns[1..]);
      FirstSeenOrderTail(ns, tokens);
      DropDigitLedKeepsOrder(ns[1..], tokens);
      if !DigitLed(ns[0]) {
        forall x | x in rest ensures FirstSeen(tokens, ns[0]) < FirstSeen(tokens, x) {
          FirstSeenHeadBefore(ns, tokens, x);
        }
        FirstSeenCons(ns[0], rest, tokens);
        assert DropDigitLed(ns) == [ns[0]] + rest;
      } else {
        assert DropDigitLed(ns) == rest;
      }
    }
  }

  /** Distinct first-occurrence positions make the names distinct. */
  lemma {:induction false} FirstSeenDistinct(names: seq<string>, tokens: seq<string>)
    requires FirstSeenOrder(names, tokens)
    ensures Distinct(names)
  {
    forall i, j | 0 <= i < j < |names| ensures names[i] != names[j] {
      assert FirstSeen(tokens, names[i]) < FirstSeen(tokens, names[j]);
    }
  }

  /** Every distinct token `getAllClassNames` keeps is a dot and a name. */
  lemma {:induction false} UniqTokensAreTokens(content: string)
    ensures forall i :: 0 <= i < |Uniq(ClassTokens(content))| ==> IsToken(Uniq(ClassTokens(content))[i])
  {
    var ts := ClassTokens(content);
    var u := Uniq(ts);
    forall i | 0 <= i < |u| ensures IsToken(u[i]) {
      assert u[i] in ts;
      var k := IndexOf(ts, u[i]);
      assert IsToken(ts[k]);
    }
  }

  /**
   * First-seen order: the names keep the order in which their tokens first occur
   * among the matches, which also makes them pairwise distinct.
   */
  lemma {:induction false} ClassNamesFirstSeen(content: string)
    ensures FirstSeenOrder(GetAllClassNames(content), ClassTokens(content))
    ensures Distinct(GetAllClassNames(content))
  {
    ClassNamesFromTokens(content);
    var ts := ClassTokens(content);
    UniqTokensAreTokens(content);
    StripDotsFirstSeen(Uniq(ts), ts);
    DropDigitLedKeepsOrder(StripDots(Uniq(ts)), ts);
    FirstSeenDistinct(GetAllClassNames(content), ts);
  }

  /** Tokens in order of first occurrence, dots stripped, are names in first-seen order. */
  lemma {:induction false} StripDotsFirstSeen(u: seq<string>, ts: seq<string>)
    requires forall i :: 0 <= i < |u| ==> IsToken(u[i])
    requires forall i, j :: 0 <= i < j < |u| ==> IndexOf(ts, u[i]) < IndexOf(ts, u[j])
    ensures FirstSeenOrder(StripDots(u), ts)
  {
    var stripped := StripDots(u);
    forall i, j | 0 <= i < j < |stripped|
      ensures FirstSeen(ts, stripped[i]) < FirstSeen(ts, stripped[j])
    {
      assert IsToken(u[i]) && IsToken(u[j]);
      assert u[i] == "." + stripped[i] && u[j] == "." + stripped[j];
      assert IndexOf(ts, u[i]) < IndexOf(ts, u[j]);
    }
  }

  /** A document without any `,` or `{` has no class names. */
  lemma {:induction false} NoDelimiterNoClassNames(content: string)
    requires forall k :: 0 <= k < |content| ==> !IsDelimiter(content[k])
    ensures MatchLines(content) == []
    ensures GetAllClassNames(content) == []
    decreases |content|
  {
    if content != [] {
      NoDelimiterNoClassNames(content[1..]);
    }
  }

  // ------------------------------------------------------ arrayToStringTyped

  function Quote(item: string): string {
    "\"" + item + "\""
  }

  function QuoteAll(arr: seq<string>): (r: seq<string>)
    ensures |r| == |arr| && forall i :: 0 <= i < |arr| ==> r[i] == Quote(arr[i])
  {
    seq(|arr|, i requires 0 <= i < |arr| => Quote(arr[i]))
  }

  function Header(name: string): string {
    "export type " + name + " = "
  }

  /** `arrayToStringTyped(arr, name)`: no trailing `;` is emitted. */
  function ArrayToStringTyped(arr: seq<string>, name: string): string {
    Header(name) + Join(QuoteAll(arr), " | ")
  }

  /** Reads `"a" | "b" | …` back into its items; no item may hold a double quote. */
  function ParseQuoted(body: string): Option<seq<string>>
    decreases |body|
  {
    if body == [] || body[0] != '"' then None
    else
      var q := 1 + IndexOfAny(body[1..], {'"'});
      if q == |body| then None
      else
        var item := body[1..q];
        var rest := body[q + 1..];
        if rest == [] then Some([item])
        else if |rest| >= 3 && rest[..3] == " | " then
          match ParseQuoted(rest[3..])
          case Some(items) => Some([item] + items)
          case None => None
        else None
  }

  function ParseUnion(body: string): Option<seq<string>> {
    if body == [] then Some([]) else ParseQuoted(body)
  }

  /** Reads a generated declaration of type `name` back into its items. */
  function ParseTypeDeclaration(text: string, name: string): Option<seq<string>> {
    var h := Header(name);
    if |h| <= |text| && text[..|h|] == h then ParseUnion(text[|h|..]) else None
  }

  lemma {:induction false} ParseQuotedHead(item: string, rest: string)
    requires '"' !in item
    ensures ParseQuoted(Quote(item) + rest) ==
      if rest == [] then Some([item])
      else if |rest| >= 3 && rest[..3] == " | " then
        match ParseQuoted(rest[3..])
        case Some(items) => Some([item] + items)
        case None => None
      else None
  {
    var body := Quote(item) + rest;
    assert body[0] == '"';
    assert body[1..][..|item|] == item;
    assert |item| < |body[1..]| && body[1..][|item|] == '"';
    IndexOfAnyUnique(body[1..], {'"'}, |item|);
    assert body[1..|item| + 1] == item;
    assert body[|item| + 2..] == rest;
  }

  lemma {:induction false} UnionRoundTrip(arr: seq<string>)
    requires forall i :: 0 <= i < |arr| ==> '"' !in arr[i]
    ensures ParseUnion(Join(QuoteAll(arr), " | ")) == Some(arr)
  {
    if |arr| == 1 {
      assert arr == [arr[0]];
      ParseQuotedHead(arr[0], "");
      assert Quote(arr[0]) + "" == Quote(arr[0]);
    } else if |arr| >= 2 {
      var tail := Join(QuoteAll(arr[1..]), " | ");
      assert QuoteAll(arr)[1..] == QuoteAll(arr[1..]);
      assert Join(QuoteAll(arr), " | ") == Quote(arr[0]) + (" | " + tail);
      UnionRoundTrip(arr[1..]);
      ParseQuotedHead(arr[0], " | " + tail);
      assert (" | " + tail)[3..] == tail;
      assert tail != [];
      assert [arr[0]] + arr[1..] == arr;
    }
  }

  /** Round trip: the generated declaration reads back as the list it was made from. */
  lemma {:induction false} TypeDeclarationRoundTrip(arr: seq<string>, name: string)
    requires forall i :: 0 <= i < |arr| ==> '"' !in arr[i]
    ensures ParseTypeDeclaration(ArrayToStringTyped(arr, name), name) == Some(arr)
    ensures arr == [] ==> ArrayToStringTyped(arr, name) == Header(name)
  {
    var text := ArrayToStringTyped(arr, name);
    assert text[..|Header(name)|] == Header(name);
    assert text[|Header(name)|..] == Join(QuoteAll(arr), " | ");
    UnionRoundTrip(arr);
  }

  /** The declaration built from a document reads back as exactly its class names. */
  lemma {:induction false} ClassTypeRoundTrip(content: string, name: string)
    ensures ParseTypeDeclaration(ArrayToStringTyped(GetAllClassNames(content), name), name)
            == Some(GetAllClassNames(content))
  {
    var names := GetAllClassNames(content);
    ClassNamesWellFormed(content);
    forall i | 0 <= i < |names| ensures '"' !in names[i] {
      assert IsClassName(names[i]);
    }
    TypeDeclarationRoundTrip(names, name);
  }

  // ------------------------------------------------------------- file paths

  datatype FilePath = FilePath(name: string, folder: string)

  /** `getFilePath`: split on `/`, pop the last part as the name, join the rest as the folder. */
  function GetFilePath(fsPath: string): FilePath {
    var parts := Split(fsPath, {'/'});
    FilePath(parts[|parts| - 1], Join(parts[..|parts| - 1], "/"))
  }

  /** The name holds no `/`; folder, `/` and name make up the path again. */
  lemma {:induction false} FilePathParts(fsPath: string)
    ensures '/' !in GetFilePath(fsPath).name
    ensures '/' in fsPath ==> GetFilePath(fsPath).folder + "/" + GetFilePath(fsPath).name == fsPath
    ensures '/' !in fsPath ==> GetFilePath(fsPath).folder == "" && GetFilePath(fsPath).name == fsPath
  {
    FileNameNoSlash(fsPath);
    var n := IndexOfAny(fsPath, {'/'});
    if n == |fsPath| {
      assert Split(fsPath, {'/'}) == [fsPath];
    } else {
      FolderAndName(fsPath, n);
    }
  }

  lemma {:induction false} FileNameNoSlash(fsPath: string)
    ensures '/' !in GetFilePath(fsPath).name
  {
    var parts := Split(fsPath, {'/'});
    var last := parts[|parts| - 1];
    forall k | 0 <= k < |last| ensures last[k] != '/' {
      assert last[k] !in {'/'};
    }
  }

  /** With a `/` at `n`, the parts are at least two, and folder, `/` and name make up the path. */
  lemma {:induction false} FolderAndName(fsPath: string, n: nat)
    requires n == IndexOfAny(fsPath, {'/'}) && n < |fsPath|
    ensures GetFilePath(fsPath).folder + "/" + GetFilePath(fsPath).name == fsPath
  {
    var parts := Split(fsPath, {'/'});
    assert fsPath[n] == '/';
    assert parts == [fsPath[..n]] + Split(fsPath[n + 1..], {'/'});
    JoinSplit(fsPath, '/');
    JoinSnoc(parts, "/");
  }

  predicate EndsWith(s: string, suffix: string) {
    |suffix| <= |s| && s[|s| - |suffix|..] == suffix
  }

  /** The leftmost start `p' >= p` at which `(\.css|\.scss)$` matches. */
  function StyleSuffixFrom(name: string, p: nat): (r: Option<nat>)
    ensures r.Some? ==> r.value < |name|
    decreases |name| - p
  {
    if p >= |name| then None
    else if name[p..] == ".css" || name[p..] == ".scss" then Some(p)
    else StyleSuffixFrom(name, p + 1)
  }

  /** `name.replace(/(\.css|\.scss)$/, ".d.ts")` */
  function ReplaceStyleSuffix(name: string): string {
    match StyleSuffixFrom(name, 0)
    case Some(p) => name[..p] + ".d.ts"
    case None => name
  }

  lemma {:induction false} StyleSuffixScan(name: string, p: nat, target: nat)
    requires p <= target < |name|
    requires name[target..] == ".css" || name[target..] == ".scss"
    requires forall q :: p <= q < target ==> name[q..] != ".css" && name[q..] != ".scss"
    ensures StyleSuffixFrom(name, p) == Some(target)
    decreases target - p
  {
    if p < target {
      StyleSuffixScan(name, p + 1, target);
    }
  }

  /** The suffix rewrite replaces exactly the trailing `.css` or `.scss`. */
  lemma {:induction false} ReplaceStyleSuffixEnd(name: string)
    ensures EndsWith(name, ".css") ==> ReplaceStyleSuffix(name) == name[..|name| - 4] + ".d.ts"
    ensures EndsWith(name, ".scss") ==> ReplaceStyleSuffix(name) == name[..|name| - 5] + ".d.ts"
  {
    var n := |name|;
    if EndsWith(name, ".css") {
      forall q | 0 <= q < n - 4 ensures name[q..] != ".css" && name[q..] != ".scss" {
        if q == n - 5 {
          assert name[q..][1] == name[n - 4] == '.';
        }
      }
      StyleSuffixScan(name, 0, n - 4);
    } else if EndsWith(name, ".scss") {
      forall q | 0 <= q < n - 5 ensures name[q..] != ".css" && name[q..] != ".scss" {
      }
      StyleSuffixScan(name, 0, n - 5);
    }
  }

  /** `name.split(".")[0]` */
  function TypeName(name: string): string {
    Split(name, {'.'})[0]
  }

  datatype TypeFile = TypeFile(path: string, content: string)

  /** The `extension.createType` command: the declaration file it writes, if it writes one. */
  function CreateType(fsPath: string, fullText: string): Option<TypeFile> {
    var fp := GetFilePath(fsPath);
    if fp.name == [] then None
    else if !(EndsWith(fp.name, ".css") || EndsWith(fp.name, ".scss")) then None
    else
      var classes := GetAllClassNames(fullText);
      var context := ArrayToStringTyped(classes, TypeName(fp.name));
      Some(TypeFile(DeclarationPath(fsPath), context))
  }

  /** Where `createType` writes: the folder, then the file name with its style suffix replaced. */
  function DeclarationPath(fsPath: string): string {
    var fp := GetFilePath(fsPath);
    fp.folder + "/" + ReplaceStyleSuffix(fp.name)
  }

  /** The `extension.clipboardType` command: the text it copies, if it copies any. */
  function ClipboardType(fsPath: string, fullText: string): Option<string> {
    var fp := GetFilePath(fsPath);
    if fp.name == [] then None
    else if !(EndsWith(fp.name, ".css") || EndsWith(fp.name, ".scss")) then None
    else Some(ArrayToStringTyped(GetAllClassNames(fullText), TypeName(fp.name)))
  }

  /** The type name is the part of the file name before its first `.`. */
  lemma {:induction false} TypeNameBeforeFirstDot(name: string)
    requires '.' in name
    ensures '.' !in TypeName(name)
    ensures IsPrefix(TypeName(name) + ".", name)
  {
    var n := IndexOfAny(name, {'.'});
    assert n < |name| by {
      var k :| 0 <= k < |name| && name[k] == '.';
    }
    assert name[..n + 1] == name[..n] + [name[n]];
  }

  /** A suffix without `/` is a suffix of `folder/name` exactly when it is one of `name`. */
  lemma {:induction false} SuffixAfterSlash(folder: string, name: string, suffix: string)
    requires '/' !in suffix
    ensures EndsWith(folder + "/" + name, suffix) <==> EndsWith(name, suffix)
    ensures EndsWith(name, suffix) ==>
              (folder + "/" + name)[..|folder + "/" + name| - |suffix|] == folder + "/" + name[..|name| - |suffix|]
  {
    var path := folder + "/" + name;
    var m := |path| - |suffix|;
    if |suffix| <= |name| {
      assert path[m..] == name[|name| - |suffix|..];
      assert path[..m] == folder + "/" + name[..|name| - |suffix|];
    } else if |suffix| <= |path| {
      assert path[m..][|suffix| - |name| - 1] == path[|folder|] == '/';
    }
  }

  /** `createType` and `clipboardType` act only on a `.css` or `.scss` file, and copy what the other writes. */
  lemma {:induction false} CreateTypeGuard(fsPath: string, fullText: string)
    ensures var name := GetFilePath(fsPath).name;
            CreateType(fsPath, fullText).Some? <==> EndsWith(name, ".css") || EndsWith(name, ".scss")
    ensures ClipboardType(fsPath, fullText) ==
            match CreateType(fsPath, fullText) case Some(f) => Some(f.content) case None => None
  {
  }

  /**
   * The written declaration is named after the file name's part before its
   * first `.`, and reads back as the document's class names.
   */
  lemma {:induction false} CreateTypeContent(fsPath: string, fullText: string)
    ensures CreateType(fsPath, fullText).Some? ==>
            var name := GetFilePath(fsPath).name;
            && '.' !in TypeName(name)
            && IsPrefix(TypeName(name) + ".", name)
            && ParseTypeDeclaration(CreateType(fsPath, fullText).value.content, TypeName(name))
               == Some(GetAllClassNames(fullText))
  {
    if CreateType(fsPath, fullText).Some? {
      var name := GetFilePath(fsPath).name;
      assert name[|name| - 4] == '.' || name[|name| - 5] == '.';
      TypeNameBeforeFirstDot(name);
      ClassTypeRoundTrip(fullText, TypeName(name));
    }
  }

  lemma {:induction false} StyleSuffixAfterSlash(folder: string, name: string, sfx: string)
    requires sfx == ".css" || sfx == ".scss"
    requires EndsWith(name, sfx)
    ensures var path := folder + "/" + name;
            path[..|path| - |sfx|] + ".d.ts" == folder + "/" + ReplaceStyleSuffix(name)
  {
    ReplaceStyleSuffixEnd(name);
    var stem := name[..|name| - |sfx|];
    SuffixAfterSlash(folder, name, sfx);
    assert folder + "/" + (stem + ".d.ts") == (folder + "/" + stem) + ".d.ts";
  }

  /** With one style suffix: `fsPath` ends in it exactly when its file name does, and it is replaced by `.d.ts`. */
  lemma {:induction false} DeclarationPathFor(fsPath: string, sfx: string)
    requires '/' in fsPath
    requires sfx == ".css" || sfx == ".scss"
    ensures EndsWith(fsPath, sfx) <==> EndsWith(GetFilePath(fsPath).name, sfx)
    ensures EndsWith(fsPath, sfx) ==> DeclarationPath(fsPath) == fsPath[..|fsPath| - |sfx|] + ".d.ts"
  {
    var fp := GetFilePath(fsPath);
    FilePathParts(fsPath);
    assert fsPath == fp.folder + "/" + fp.name;
    SuffixAfterSlash(fp.folder, fp.name, sfx);
    if EndsWith(fp.name, sfx) {
      StyleSuffixAfterSlash(fp.folder, fp.name, sfx);
      assert DeclarationPath(fsPath) == fp.folder + "/" + ReplaceStyleSuffix(fp.name);
    }
  }

  /** The declaration file sits next to the style sheet, its `.css` or `.scss` replaced by `.d.ts`. */
  lemma {:induction false} DeclarationPathNextTo(fsPath: string)
    requires '/' in fsPath
    ensures var name := GetFilePath(fsPath).name;
            (EndsWith(fsPath, ".css") <==> EndsWith(name, ".css")) && (EndsWith(fsPath, ".scss") <==> EndsWith(name, ".scss"))
    ensures EndsWith(fsPath, ".css") ==> DeclarationPath(fsPath) == fsPath[..|fsPath| - 4] + ".d.ts"
    ensures EndsWith(fsPath, ".scss") ==> DeclarationPath(fsPath) == fsPath[..|fsPath| - 5] + ".d.ts"
  {
    DeclarationPathFor(fsPath, ".css");
    DeclarationPathFor(fsPath, ".scss");
  }

  /**
   * Without a `/` the whole path is the file name and the folder is empty, so
   * the declaration goes to the root: `"/"` and the renamed path. A Windows
   * path such as `C:\d\x.scss` takes this branch.
   */
  lemma {:induction false} DeclarationPathWithoutFolder(fsPath: string)
    requires '/' !in fsPath
    ensures DeclarationPath(fsPath) == "/" + ReplaceStyleSuffix(fsPath)
    ensures EndsWith(fsPath, ".css") ==> DeclarationPath(fsPath) == "/" + fsPath[..|fsPath| - 4] + ".d.ts"
    ensures EndsWith(fsPath, ".scss") ==> DeclarationPath(fsPath) == "/" + fsPath[..|fsPath| - 5] + ".d.ts"
  {
    RootDeclarationPath(fsPath);
    RootRenamed(fsPath);
  }

  lemma {:induction false} RootRenamed(name: string)
    ensures EndsWith(name, ".css") ==> "/" + ReplaceStyleSuffix(name) == "/" + name[..|name| - 4] + ".d.ts"
    ensures EndsWith(name, ".scss") ==> "/" + ReplaceStyleSuffix(name) == "/" + name[..|name| - 5] + ".d.ts"
  {
    ReplaceStyleSuffixEnd(name);
    var n := |name|;
    if EndsWith(name, ".css") {
      assert "/" + (name[..n - 4] + ".d.ts") == "/" + name[..n - 4] + ".d.ts";
    } else if EndsWith(name, ".scss") {
      assert "/" + (name[..n - 5] + ".d.ts") == "/" + name[..n - 5] + ".d.ts";
    }
  }

  lemma {:induction false} RootDeclarationPath(fsPath: string)
    requires '/' !in fsPath
    ensures DeclarationPath(fsPath) == "/" + ReplaceStyleSuffix(fsPath)
  {
    FilePathParts(fsPath);
    var renamed := ReplaceStyleSuffix(fsPath);
    assert DeclarationPath(fsPath) == "" + "/" + renamed;
    assert "" + "/" + renamed == "/" + renamed;
  }

  /**
   * `createType` writes exactly when the path ends in `.css` or `.scss`. With a
   * folder, the file goes next to the style sheet, its suffix replaced by
   * `.d.ts`; without a `/`, it goes to `"/"` and the renamed path.
   */
  lemma {:induction false} CreateTypePath(fsPath: string, fullText: string)
    ensures CreateType(fsPath, fullText).Some? <==> EndsWith(fsPath, ".css") || EndsWith(fsPath, ".scss")
    ensures '/' in fsPath && EndsWith(fsPath, ".css") ==>
              CreateType(fsPath, fullText).value.path == fsPath[..|fsPath| - 4] + ".d.ts"
    ensures '/' in fsPath && EndsWith(fsPath, ".scss") ==>
              CreateType(fsPath, fullText).value.path == fsPath[..|fsPath| - 5] + ".d.ts"
    ensures '/' !in fsPath && EndsWith(fsPath, ".css") ==>
              CreateType(fsPath, fullText).value.path == "/" + fsPath[..|fsPath| - 4] + ".d.ts"
    ensures '/' !in fsPath && EndsWith(fsPath, ".scss") ==>
              CreateType(fsPath, fullText).value.path == "/" + fsPath[..|fsPath| - 5] + ".d.ts"
  {
    CreateTypeGuard(fsPath, fullText);
    if '/' in fsPath {
      DeclarationPathNextTo(fsPath);
    } else {
      FilePathParts(fsPath);
      DeclarationPathWithoutFolder(fsPath);
    }
  }
}
