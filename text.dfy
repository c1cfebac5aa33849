/**
 * The JavaScript string primitives the extension relies on, as functions over
 * `seq<char>`: `split` and `join`, `trim`, `parseInt(_, 10)`, the decimal
 * rendering of an integer, and `slice(0, end)`.
 */
module Text {
  import opened Wrappers

  /** ECMAScript WhiteSpace and LineTerminator code points: what `trim` and `parseInt` skip. */
  predicate IsJsSpace(c: char) {
    c == '\t' || c == '\n' || c == '\U{B}' || c == '\U{C}' || c == '\r' || c == ' ' ||
    c == '\U{A0}' || c == '\U{1680}' || ('\U{2000}' <= c <= '\U{200A}') ||
    c == '\U{2028}' || c == '\U{2029}' || c == '\U{202F}' || c == '\U{205F}' ||
    c == '\U{3000}' || c == '\U{FEFF}'
  }

  predicate IsDigit(c: char) {
    '0' <= c <= '9'
  }

  predicate AllDigits(s: string) {
    forall k :: 0 <= k < |s| ==> IsDigit(s[k])
  }

  predicate IsPrefix<T(==)>(p: seq<T>, s: seq<T>) {
    |p| <= |s| && s[..|p|] == p
  }

  // ---------------------------------------------------------------- scanning

  /** End of the longest run of characters satisfying `p` that starts at `i`. */
  function RunEnd(s: string, i: nat, p: char -> bool): (e: nat)
    requires i <= |s|
    ensures i <= e <= |s|
    ensures forall k :: i <= k < e ==> p(s[k])
    ensures e == |s| || !p(s[e])
    decreases |s| - i
  {
    if i == |s| || !p(s[i]) then i else RunEnd(s, i + 1, p)
  }

  /** A run is determined by its start: any maximal run from `i` ends where RunEnd says. */
  lemma RunEndUnique(s: string, i: nat, p: char -> bool, e: nat)
    requires i <= e <= |s|
    requires forall k :: i <= k < e ==> p(s[k])
    requires e == |s| || !p(s[e])
    ensures RunEnd(s, i, p) == e
  {
  }

  /** Index of the first character of `s` that is in `seps`, or |s| when there is none. */
  function IndexOfAny(s: string, seps: set<char>): (n: nat)
    ensures n <= |s|
    ensures n < |s| ==> s[n] in seps
    ensures forall k :: 0 <= k < n ==> s[k] !in seps
  {
    if s == [] || s[0] in seps then 0 else 1 + IndexOfAny(s[1..], seps)
  }

  lemma IndexOfAnyUnique(s: string, seps: set<char>, n: nat)
    requires n <= |s|
    requires n < |s| ==> s[n] in seps
    requires forall k :: 0 <= k < n ==> s[k] !in seps
    ensures IndexOfAny(s, seps) == n
  {
  }

  /** Dropping characters before the first separator moves the separator back by as many. */
  lemma {:induction false} IndexOfAnyDrop(s: string, seps: set<char>, k: nat)
    requires k <= IndexOfAny(s, seps)
    ensures IndexOfAny(s[k..], seps) == IndexOfAny(s, seps) - k
  {
    var n := IndexOfAny(s, seps);
    assert forall i :: 0 <= i < |s| - k ==> s[k..][i] == s[k + i];
    IndexOfAnyUnique(s[k..], seps, n - k);
  }

  // ------------------------------------------------------------ split / join

  /**
   * `s.split(c)` for the one-character separator `c` when `seps == {c}`; with a
   * larger set, a split at every character of the set.
   */
  function Split(s: string, seps: set<char>): (parts: seq<string>)
    ensures |parts| >= 1
    ensures forall i, k :: 0 <= i < |parts| && 0 <= k < |parts[i]| ==> parts[i][k] !in seps
    decreases |s|
  {
    var n := IndexOfAny(s, seps);
    if n == |s| then [s] else [s[..n]] + Split(s[n + 1..], seps)
  }

  /** `parts.join(sep)`. */
  function Join(parts: seq<string>, sep: string): string {
    if |parts| == 0 then ""
    else if |parts| == 1 then parts[0]
    else parts[0] + sep + Join(parts[1..], sep)
  }

  /** Splitting on a character and joining with it gives the string back. */
  lemma {:induction false} JoinSplit(s: string, c: char)
    ensures Join(Split(s, {c}), [c]) == s
    decreases |s|
  {
    var n := IndexOfAny(s, {c});
    if n < |s| {
      var rest := Split(s[n + 1..], {c});
      assert Split(s, {c}) == [s[..n]] + rest;
      assert ([s[..n]] + rest)[1..] == rest;
      JoinSplit(s[n + 1..], c);
      assert s == s[..n] + [c] + s[n + 1..];
    }
  }

  /** A text without the separator splits into itself alone. */
  lemma {:induction false} SplitWhole(s: string, c: char)
    requires c !in s
    ensures Split(s, {c}) == [s]
  {
    IndexOfAnyUnique(s, {c}, |s|);
  }

  /** The first separator ends the first part. */
  lemma {:induction false} SplitFirst(p: string, c: char, rest: string)
    requires c !in p
    ensures Split(p + [c] + rest, {c}) == [p] + Split(rest, {c})
  {
    var s := p + [c] + rest;
    assert forall k :: 0 <= k < |p| ==> s[k] == p[k];
    IndexOfAnyUnique(s, {c}, |p|);
    assert s[..|p|] == p;
    assert s[|p| + 1..] == rest;
  }

  /** Joining separator-free parts and splitting again gives the parts back. */
  lemma {:induction false} SplitJoin(parts: seq<string>, c: char)
    requires |parts| >= 1
    requires forall i :: 0 <= i < |parts| ==> c !in parts[i]
    ensures Split(Join(parts, [c]), {c}) == parts
  {
    if |parts| == 1 {
      SplitWhole(parts[0], c);
    } else {
      var rest := Join(parts[1..], [c]);
      assert Join(parts, [c]) == parts[0] + [c] + rest;
      SplitFirst(parts[0], c, rest);
      SplitJoin(parts[1..], c);
      assert parts == [parts[0]] + parts[1..];
    }
  }

  /** Joining all but the last part, then the separator, then the last part. */
  lemma {:induction false} JoinSnoc(parts: seq<string>, sep: string)
    requires |parts| >= 2
    ensures Join(parts, sep) == Join(parts[..|parts| - 1], sep) + sep + parts[|parts| - 1]
  {
    if |parts| > 2 {
      JoinSnoc(parts[1..], sep);
      assert parts[1..][..|parts| - 2] == parts[..|parts| - 1][1..];
    }
  }

  /** The lines of a leading run of split parts, joined again, are the start of the string. */
  lemma {:induction false} JoinSplitPrefix(s: string, c: char, m: nat)
    requires m <= |Split(s, {c})|
    ensures IsPrefix(Join(Split(s, {c})[..m], [c]), s)
    decreases |s|
  {
    var parts := Split(s, {c});
    if m == 1 {
      assert parts[..1] == [parts[0]];
    } else if m >= 2 {
      var n := IndexOfAny(s, {c});
      var rest := Split(s[n + 1..], {c});
      assert parts[..m] == [s[..n]] + rest[..m - 1];
      JoinSplitPrefix(s[n + 1..], c, m - 1);
      JoinCons(s[..n], rest[..m - 1], [c]);
      PrefixCons(s, n, Join(rest[..m - 1], [c]));
    }
  }

  lemma JoinCons(p: string, rest: seq<string>, sep: string)
    requires |rest| >= 1
    ensures Join([p] + rest, sep) == p + sep + Join(rest, sep)
  {
    assert ([p] + rest)[1..] == rest;
  }

  lemma PrefixCons(s: string, n: nat, tail: string)
    requires n < |s| && IsPrefix(tail, s[n + 1..])
    ensures IsPrefix(s[..n] + [s[n]] + tail, s)
  {
    assert s[..n + 1 + |tail|] == s[..n] + [s[n]] + s[n + 1..][..|tail|];
  }

  // -------------------------------------------------------------------- trim

  /** `s.trimStart()`: drops the leading space. */
  function TrimStart(s: string): (t: string)
    ensures |t| <= |s| && t == s[|s| - |t|..]
    ensures forall k :: 0 <= k < |s| - |t| ==> IsJsSpace(s[k])
    ensures t == [] || !IsJsSpace(t[0])
  {
    s[RunEnd(s, 0, IsJsSpace)..]
  }

  /** `s.trimEnd()`: drops the trailing space. */
  function TrimEnd(s: string): (t: string)
    ensures |t| <= |s| && t == s[..|t|]
    ensures forall k :: |t| <= k < |s| ==> IsJsSpace(s[k])
    ensures t == [] || !IsJsSpace(t[|t| - 1])
  {
    if s != [] && IsJsSpace(s[|s| - 1]) then TrimEnd(s[..|s| - 1]) else s
  }

  /** `t` sits at `a` in `s`, with only space before and after it. */
  predicate SpaceAround(s: string, a: nat, t: string) {
    && a + |t| <= |s| && t == s[a..a + |t|]
    && (forall k :: 0 <= k < a ==> IsJsSpace(s[k]))
    && (forall k :: a + |t| <= k < |s| ==> IsJsSpace(s[k]))
  }

  /** `s.trim()`: the text with its leading and trailing space removed, and nothing else. */
  function Trim(s: string): (t: string)
    ensures t == [] || (!IsJsSpace(t[0]) && !IsJsSpace(t[|t| - 1]))
    ensures exists a: nat :: SpaceAround(s, a, t)
    ensures (forall k :: 0 <= k < |s| ==> !IsJsSpace(s[k])) ==> t == s
  {
    var front := TrimStart(s);
    var a := |s| - |front|;
    var t := TrimEnd(front);
    assert SpaceAround(s, a, t);
    TrimEnd(front)
  }

  // ---------------------------------------------------------------- numbers

  function DigitValue(c: char): nat
    requires IsDigit(c)
  {
    (c as int) - ('0' as int)
  }

  function DigitChar(d: nat): (c: char)
    requires d < 10
    ensures IsDigit(c) && DigitValue(c) == d
  {
    (('0' as int) + d) as char
  }

  /** The value of a run of decimal digits, most significant first. */
  function DigitsValue(ds: string): nat
    requires AllDigits(ds)
  {
    if ds == [] then 0 else DigitsValue(ds[..|ds| - 1]) * 10 + DigitValue(ds[|ds| - 1])
  }

  /** The number at the head of `t`: an optional sign, then decimal digits. */
  function ParseNumber(t: string): Option<int> {
    var j := if t != [] && (t[0] == '-' || t[0] == '+') then 1 else 0;
    var e := RunEnd(t, j, IsDigit);
    if e == j then None
    else
      var v: int := DigitsValue(t[j..e]);
      Some(if j == 1 && t[0] == '-' then -v else v)
  }

  /** `parseInt(s, 10)`, with None standing for NaN. */
  function ParseInt(s: string): Option<int> {
    ParseNumber(TrimStart(s))
  }

  /** The digits of a natural number, without leading zeros. */
  function NatDigits(n: nat): (ds: string)
    ensures |ds| >= 1 && AllDigits(ds)
    ensures DigitsValue(ds) == n
  {
    if n < 10 then [DigitChar(n)]
    else
      var ds := NatDigits(n / 10) + [DigitChar(n % 10)];
      assert ds[..|ds| - 1] == NatDigits(n / 10);
      ds
  }

  /** `String(n)` for an integer `n`. */
  function Decimal(n: int): string {
    if n < 0 then "-" + NatDigits(-n) else NatDigits(n)
  }

  /** A text that does not start with space is its own `trimStart`. */
  lemma {:induction false} TrimStartUnchanged(t: string)
    requires t != [] && !IsJsSpace(t[0])
    ensures TrimStart(t) == t
  {
    RunEndUnique(t, 0, IsJsSpace, 0);
  }

  /** An optional minus, a run of digits and then a non-digit read as the signed value of the digits. */
  lemma {:induction false} ParseNumberDigits(sign: string, ds: string, rest: string)
    requires sign == "" || sign == "-"
    requires |ds| >= 1 && AllDigits(ds)
    requires rest == [] || !IsDigit(rest[0])
    ensures ParseNumber(sign + ds + rest) == Some(if sign == "-" then -(DigitsValue(ds) as int) else DigitsValue(ds))
  {
    var t := sign + ds + rest;
    var j := |sign|;
    var e := j + |ds|;
    forall k | j <= k < e ensures IsDigit(t[k]) {
      assert t[k] == ds[k - j];
    }
    assert e < |t| ==> t[e] == rest[0];
    RunEndUnique(t, j, IsDigit, e);
    assert t[j..e] == ds;
    if sign == "-" {
      assert t[0] == '-';
    } else {
      assert t[0] == ds[0];
    }
  }

  /** `parseInt` of an optional minus, digits and then a non-digit is the signed value of the digits. */
  lemma {:induction false} ParseIntDigits(sign: string, ds: string, rest: string)
    requires sign == "" || sign == "-"
    requires |ds| >= 1 && AllDigits(ds)
    requires rest == [] || !IsDigit(rest[0])
    ensures ParseInt(sign + ds + rest) == Some(if sign == "-" then -(DigitsValue(ds) as int) else DigitsValue(ds))
  {
    var t := sign + ds + rest;
    if sign == "-" {
      assert t[0] == '-';
    } else {
      assert t[0] == ds[0] && IsDigit(ds[0]);
    }
    TrimStartUnchanged(t);
    ParseNumberDigits(sign, ds, rest);
  }

  /** Reading back a rendered integer gives it again, whatever non-digit text follows. */
  lemma {:induction false} ParseIntDecimal(n: int, rest: string)
    requires rest == [] || !IsDigit(rest[0])
    ensures ParseInt(Decimal(n) + rest) == Some(n)
  {
    if n < 0 {
      ParseIntDigits("-", NatDigits(-n), rest);
    } else {
      assert Decimal(n) + rest == "" + NatDigits(n) + rest;
      ParseIntDigits("", NatDigits(n), rest);
    }
  }

  /** Leading space does not change what parseInt reads. */
  lemma {:induction false} ParseIntSkipsSpace(sp: string, s: string)
    requires forall k :: 0 <= k < |sp| ==> IsJsSpace(sp[k])
    ensures ParseInt(sp + s) == ParseInt(s)
  {
    var i := RunEnd(s, 0, IsJsSpace);
    var t := sp + s;
    assert forall k :: 0 <= k < |sp| + i ==> IsJsSpace(t[k]) by {
      forall k | 0 <= k < |sp| + i ensures IsJsSpace(t[k]) {
        if k >= |sp| { assert t[k] == s[k - |sp|]; }
      }
    }
    assert |sp| + i < |t| ==> t[|sp| + i] == s[i];
    RunEndUnique(t, 0, IsJsSpace, |sp| + i);
    assert TrimStart(t) == TrimStart(s);
  }

  // ------------------------------------------------------------------ slice

  /** `s.slice(0, end)`: negative ends count from the back. */
  function Slice<T>(s: seq<T>, end: int): (r: seq<T>)
    ensures IsPrefix(r, s)
    ensures |r| == if end >= 0 then (if end < |s| then end else |s|)
                   else (if |s| + end > 0 then |s| + end else 0)
  {
    var n := if end >= 0 then (if end < |s| then end else |s|)
             else (if |s| + end > 0 then |s| + end else 0);
    s[..n]
  }
}
