/** Specifications of the ZNC `CString` helpers the filter module relies on:
    case folding and wildcard comparison (`WildCmp`, `AsLower`), the space
    tokenizer (`Token`), the decimal conversions (`CString(unsigned long)`
    and `ToULong`, which is C's `strtoul` in base 10) and `Join` / `Split`.
    Their implementations live in the host library; these definitions state
    the behaviour the filter module depends on. */
module ZncString {

  datatype Option<T> = None | Some(value: T)

  /** `unsigned long` on the 64-bit hosts ZNC runs on. */
  const ULongBase: nat := 0x1_0000_0000_0000_0000
  const ULongMax: nat := ULongBase - 1
  type ULong = x: nat | x <= ULongMax

  /** `f` applied to every element, in order. */
  function Map<A, B>(f: A -> B, xs: seq<A>): (ys: seq<B>)
    ensures |ys| == |xs|
    ensures forall i :: 0 <= i < |xs| ==> ys[i] == f(xs[i])
  {
    seq(|xs|, i requires 0 <= i < |xs| => f(xs[i]))
  }

  lemma MapGrows<A, B>(f: A -> B, xs: seq<A>, k: nat)
    requires k < |xs|
    ensures Map(f, xs[..k + 1]) == Map(f, xs[..k]) + [f(xs[k])]
  {
    assert Map(f, xs[..k + 1])[..k] == Map(f, xs[..k]);
  }

  lemma AppendOne<T>(a: seq<T>, b: seq<T>, x: T)
    ensures (a + b) + [x] == a + (b + [x])
  {
  }

  // ---------------------------------------------------------------------
  // Case folding and wildcard comparison

  /** `tolower` in the C locale: only 'A'..'Z' change. */
  function LowerChar(c: char): char {
    if 'A' <= c <= 'Z' then (c as int + 32) as char else c
  }

  function Lower(s: string): (r: string)
    ensures |r| == |s|
    ensures forall i :: 0 <= i < |r| ==> !('A' <= r[i] <= 'Z')
  {
    seq(|s|, i requires 0 <= i < |s| => LowerChar(s[i]))
  }

  /** Anchored glob: `*` matches any run of characters (possibly empty),
      `?` exactly one character, every other character itself. */
  predicate Glob(p: string, s: string)
    decreases |p| + |s|
  {
    if p == [] then s == []
    else if p[0] == '*' then Glob(p[1..], s) || (s != [] && Glob(p, s[1..]))
    else s != [] && (p[0] == '?' || p[0] == s[0]) && Glob(p[1..], s[1..])
  }

  /** `subject.WildCmp(pattern, CaseInsensitive)`: both sides are folded
      to lower case before the glob comparison. */
  predicate WildCmp(pattern: string, subject: string) {
    Glob(Lower(pattern), Lower(subject))
  }

  predicate IsLiteral(p: string) {
    '*' !in p && '?' !in p
  }

  lemma {:induction false} StarMatchesAll(s: string)
    ensures Glob("*", s)
  {
    if s != [] {
      StarMatchesAll(s[1..]);
    }
  }

  /** The pattern `*` matches every subject, the empty one included. */
  lemma WildCmpStarMatchesAll(s: string)
    ensures WildCmp("*", s)
  {
    assert Lower("*") == "*";
    StarMatchesAll(Lower(s));
  }

  /** Without wildcards a pattern matches exactly the subject equal to it. */
  lemma {:induction false} LiteralGlob(p: string, s: string)
    requires IsLiteral(p)
    ensures Glob(p, s) <==> p == s
  {
    if p != [] && s != [] {
      assert p[0] in p;
      LiteralGlob(p[1..], s[1..]);
      assert p == [p[0]] + p[1..] && s == [s[0]] + s[1..];
    }
  }

  /** A leading `?` consumes exactly one character of the subject. */
  lemma {:induction false} QuestionConsumesOne(p: string, s: string)
    ensures Glob(['?'] + p, s) <==> s != [] && Glob(p, s[1..])
  {
    assert (['?'] + p)[1..] == p;
  }

  /** Without `*` a pattern matches only subjects of its own length: every
      other pattern character, `?` included, consumes exactly one character. */
  lemma {:induction false} StarFreeLength(p: string, s: string)
    requires '*' !in p && Glob(p, s)
    ensures |s| == |p|
  {
    if p != [] {
      assert p[0] in p;
      assert forall c :: c in p[1..] ==> c in p;
      StarFreeLength(p[1..], s[1..]);
    }
  }

  /** A pattern starting with `*` matches every subject ending in the rest
      of the pattern. */
  lemma {:induction false} StarThenSuffix(p: string, u: string, s: string)
    requires Glob(p, s)
    ensures Glob(['*'] + p, u + s)
    decreases |u|
  {
    var q := ['*'] + p;
    assert q[0] == '*' && q[1..] == p;
    if u == [] {
      assert u + s == s;
    } else {
      StarThenSuffix(p, u[1..], s);
      assert (u + s)[1..] == u[1..] + s;
    }
  }

  lemma {:induction false} LowerIdempotent(s: string)
    ensures Lower(Lower(s)) == Lower(s)
  {
    forall i | 0 <= i < |s|
      ensures Lower(Lower(s))[i] == Lower(s)[i]
    {
      var c := s[i];
      assert Lower(s)[i] == LowerChar(c);
    }
  }

  /** The comparison ignores the case of the subject. */
  lemma WildCmpIgnoresCase(pattern: string, subject: string)
    ensures WildCmp(pattern, subject) <==> WildCmp(pattern, Lower(subject))
  {
    LowerIdempotent(subject);
  }

  // ---------------------------------------------------------------------
  // Space tokenizer: `Token(n)` and `Token(n, true)` with separator " "
  // and empty tokens not allowed, so runs of spaces act as one separator
  // and leading spaces are skipped.

  /** The suffix of `s` after its leading spaces. */
  function SkipSpaces(s: string): (r: string)
    ensures |r| <= |s|
    ensures r == [] || r[0] != ' '
  {
    if s != [] && s[0] == ' ' then SkipSpaces(s[1..]) else s
  }

  /** The suffix of `s` after its leading non-space characters. */
  function SkipWord(s: string): (r: string)
    ensures |r| <= |s|
    ensures r == [] || r[0] == ' '
  {
    if s != [] && s[0] != ' ' then SkipWord(s[1..]) else s
  }

  /** The longest prefix of `s` without a space. */
  function Word(s: string): (r: string)
    ensures |r| <= |s|
    ensures ' ' !in r
    ensures |r| < |s| ==> s[|r|] == ' '
  {
    if s != [] && s[0] != ' ' then [s[0]] + Word(s[1..]) else []
  }

  /** The suffix of `s` that starts at its token number `n` (0-based);
      empty when `s` has fewer tokens. */
  function TokenStart(s: string, n: nat): (r: string)
    ensures r == [] || r[0] != ' '
    decreases n
  {
    if n == 0 then SkipSpaces(s) else TokenStart(SkipWord(SkipSpaces(s)), n - 1)
  }

  /** `s.Token(n, rest)`: token `n`, or with `rest` everything from token
      `n` to the end of the string. */
  function Token(s: string, n: nat, rest: bool): (r: string)
    ensures !rest ==> ' ' !in r
    ensures rest ==> r == [] || r[0] != ' '
  {
    var t := TokenStart(s, n);
    if rest then t else Word(t)
  }

  lemma {:induction false} TokenStartOfOneLine(s: string, n: nat)
    requires '\n' !in s
    ensures '\n' !in TokenStart(s, n)
    decreases n
  {
    if n == 0 {
      SkipSpacesOfOneLine(s);
    } else {
      SkipSpacesOfOneLine(s);
      SkipWordOfOneLine(SkipSpaces(s));
      TokenStartOfOneLine(SkipWord(SkipSpaces(s)), n - 1);
    }
  }

  lemma {:induction false} SkipSpacesOfOneLine(s: string)
    requires '\n' !in s
    ensures '\n' !in SkipSpaces(s)
  {
    if s != [] && s[0] == ' ' {
      assert '\n' !in s[1..];
      SkipSpacesOfOneLine(s[1..]);
    }
  }

  lemma {:induction false} SkipWordOfOneLine(s: string)
    requires '\n' !in s
    ensures '\n' !in SkipWord(s)
  {
    if s != [] && s[0] != ' ' {
      assert '\n' !in s[1..];
      SkipWordOfOneLine(s[1..]);
    }
  }

  lemma {:induction false} WordOfOneLine(s: string)
    requires '\n' !in s
    ensures '\n' !in Word(s)
  {
    if s != [] && s[0] != ' ' {
      assert '\n' !in s[1..];
      WordOfOneLine(s[1..]);
    }
  }

  /** A token of a single line is a single line. */
  lemma TokenOfOneLine(s: string, n: nat, rest: bool)
    requires '\n' !in s
    ensures '\n' !in Token(s, n, rest)
  {
    TokenStartOfOneLine(s, n);
    WordOfOneLine(TokenStart(s, n));
  }

  lemma SkipSpacesOfWordFirst(w: string, rest: string)
    requires w != [] && w[0] != ' '
    ensures SkipSpaces(w + rest) == w + rest
  {
  }

  lemma {:induction false} SkipWordOfWord(w: string, rest: string)
    requires ' ' !in w
    requires rest == [] || rest[0] == ' '
    ensures SkipWord(w + rest) == rest
    ensures Word(w + rest) == w
  {
    if w != [] {
      assert w[0] in w;
      assert (w + rest)[1..] == w[1..] + rest;
      SkipWordOfWord(w[1..], rest);
      assert [w[0]] + w[1..] == w;
    }
  }

  /** A lone word is its own token 0. */
  lemma SoleTokenOfWord(w: string)
    requires w != [] && ' ' !in w
    ensures Token(w, 0, false) == w
  {
    assert w[0] in w;
    assert w + [] == w;
    SkipSpacesOfWordFirst(w, []);
    SkipWordOfWord(w, []);
  }

  lemma {:induction false} TokenStartOfEmpty(n: nat)
    ensures TokenStart([], n) == []
  {
    if n > 0 {
      TokenStartOfEmpty(n - 1);
    }
  }

  /** A lone word has no token after token 0. */
  lemma NoTokenAfterWord(w: string, n: nat, rest: bool)
    requires w != [] && ' ' !in w
    ensures Token(w, n + 1, rest) == []
  {
    assert w[0] in w;
    assert w + [] == w;
    SkipSpacesOfWordFirst(w, []);
    SkipWordOfWord(w, []);
    TokenStartOfEmpty(n);
  }

  /** Lower-casing leaves a string without capitals alone. */
  lemma LowerOfNoCapitals(s: string)
    requires forall i :: 0 <= i < |s| ==> !('A' <= s[i] <= 'Z')
    ensures Lower(s) == s
  {
  }

  lemma TokenStartOfSpace(r: string, n: nat)
    ensures TokenStart([' '] + r, n) == TokenStart(r, n)
  {
    assert ([' '] + r)[1..] == r;
    assert SkipSpaces([' '] + r) == SkipSpaces(r);
  }

  /** Dropping a leading word and its separator shifts the token numbers
      down by one. */
  lemma TokenStartAfterWord(w: string, rest: string, n: nat)
    requires w != [] && ' ' !in w
    ensures TokenStart(w + ([' '] + rest), n + 1) == TokenStart(rest, n)
  {
    assert w[0] in w;
    SkipSpacesOfWordFirst(w, [' '] + rest);
    SkipWordOfWord(w, [' '] + rest);
    TokenStartOfSpace(rest, n);
  }

  /** The first token of a line that starts with a word is that word. */
  lemma FirstTokenOfWord(w: string, rest: string)
    requires w != [] && ' ' !in w
    ensures Token(w + ([' '] + rest), 0, false) == w
  {
    assert w[0] in w;
    SkipSpacesOfWordFirst(w, [' '] + rest);
    SkipWordOfWord(w, [' '] + rest);
  }

  lemma TokenAfterWord(w: string, rest: string, n: nat, all: bool)
    requires w != [] && ' ' !in w
    ensures Token(w + ([' '] + rest), n + 1, all) == Token(rest, n, all)
  {
    TokenStartAfterWord(w, rest, n);
  }

  /** The rest of a string from its token 0 is all of it when it does not
      start with a space. */
  lemma WholeRestOfUnspaced(s: string)
    requires s == [] || s[0] != ' '
    ensures Token(s, 0, true) == s
  {
  }

  // ---------------------------------------------------------------------
  // Decimal conversions

  predicate IsDigit(c: char) {
    '0' <= c <= '9'
  }

  predicate AllDigits(s: string) {
    forall i :: 0 <= i < |s| ==> IsDigit(s[i])
  }

  /** C's `isspace` in the C locale: space, \t, \n, \v, \f and \r. */
  predicate IsCSpace(c: char) {
    c == ' ' || '\t' <= c <= '\r'
  }

  function DigitValue(c: char): nat
    requires IsDigit(c)
  {
    c as int - '0' as int
  }

  function DigitChar(d: nat): char
    requires d < 10
  {
    ('0' as int + d) as char
  }

  /** The value of a string of decimal digits, most significant first. */
  function DigitsValue(d: string): nat
    requires AllDigits(d)
  {
    if d == [] then 0 else DigitsValue(d[..|d| - 1]) * 10 + DigitValue(d[|d| - 1])
  }

  /** `CString(n)` for an unsigned number: its decimal digits, no sign,
      no leading zeros. */
  function Decimal(n: nat): (r: string)
    ensures r != [] && AllDigits(r)
    ensures |r| > 1 ==> r[0] != '0'
  {
    if n < 10 then [DigitChar(n)] else Decimal(n / 10) + [DigitChar(n % 10)]
  }

  lemma {:induction false} DecimalValue(n: nat)
    ensures DigitsValue(Decimal(n)) == n
  {
    if n >= 10 {
      var d := Decimal(n);
      assert d[..|d| - 1] == Decimal(n / 10);
      DecimalValue(n / 10);
    }
  }

  /** The longest prefix of `s` made of decimal digits. */
  function DigitPrefix(s: string): (r: string)
    ensures |r| <= |s| && r == s[..|r|] && AllDigits(r)
    ensures |r| < |s| ==> !IsDigit(s[|r|])
    ensures r == [] <==> s == [] || !IsDigit(s[0])
    ensures AllDigits(s) ==> r == s
  {
    if s != [] && IsDigit(s[0]) then [s[0]] + DigitPrefix(s[1..]) else []
  }

  function SkipCSpace(s: string): (r: string)
    ensures |r| <= |s| && r == s[|s| - |r|..]
  {
    if s != [] && IsCSpace(s[0]) then SkipCSpace(s[1..]) else s
  }

  /** What follows an optional leading `+` or `-`. */
  function Unsigned(t: string): (r: string)
    ensures |r| <= |t| && r == t[|t| - |r|..]
  {
    if t != [] && (t[0] == '+' || t[0] == '-') then t[1..] else t
  }

  /** `s.ToULong()`, that is `strtoul(s, nullptr, 10)`: leading white space
      is skipped, an optional sign is read, then the longest run of digits;
      a value above ULONG_MAX saturates, and a minus sign negates modulo
      2^64. Anything that is not a number gives 0. */
  function ToULong(s: string): (r: ULong)
    ensures (forall i :: 0 <= i < |s| ==> !IsDigit(s[i])) ==> r == 0
    ensures var u := Unsigned(SkipCSpace(s)); (u == [] || !IsDigit(u[0])) ==> r == 0
  {
    var t := SkipCSpace(s);
    var u := Unsigned(t);
    assert u != [] ==> u[0] == s[|s| - |u|];
    var v := DigitsValue(DigitPrefix(u));
    if v > ULongMax then ULongMax
    else if t != [] && t[0] == '-' then (ULongBase - v) % ULongBase
    else v
  }

  /** Reading back a printed `unsigned long` gives the same number. */
  lemma ToULongOfDecimal(n: ULong)
    ensures ToULong(Decimal(n)) == n
  {
    DecimalValue(n);
    ToULongOfDigits(Decimal(n));
  }

  lemma ToULongOfDigits(d: string)
    requires d != [] && AllDigits(d) && DigitsValue(d) <= ULongMax
    ensures ToULong(d) == DigitsValue(d)
  {
    assert SkipCSpace(d) == d by {
      assert IsDigit(d[0]);
    }
    assert Unsigned(d) == d by {
      assert IsDigit(d[0]);
    }
    assert DigitPrefix(d) == d;
  }

  // ---------------------------------------------------------------------
  // Join and Split

  /** `sep.Join(parts)`: the parts with `sep` between neighbours. */
  function Join(sep: string, parts: seq<string>): string {
    if parts == [] then []
    else if |parts| == 1 then parts[0]
    else parts[0] + sep + Join(sep, parts[1..])
  }

  /** The index of the first newline in `s`, or `|s|` if there is none. */
  function FindNewline(s: string): (k: nat)
    ensures k <= |s| && '\n' !in s[..k]
    ensures k < |s| ==> s[k] == '\n'
  {
    if s == [] || s[0] == '\n' then 0
    else
      var k := FindNewline(s[1..]);
      assert s[..k + 1] == [s[0]] + s[1..][..k];
      k + 1
  }

  /** The pieces of `s` between newlines, empty pieces included. */
  function Pieces(s: string): (r: seq<string>)
    ensures r != [] && NoNewline(r)
    decreases |s|
  {
    var k := FindNewline(s);
    if k == |s| then assert s[..k] == s; [s] else [s[..k]] + Pieces(s[k + 1..])
  }

  /** `s.Split("\n", lines)` with ZNC's defaults: nothing for an empty
      string, every piece between newlines otherwise except a trailing
      empty one. */
  function SplitLines(s: string): (r: seq<string>)
    ensures NoNewline(r)
    ensures s == [] <==> r == []
  {
    if s == [] then []
    else
      var p := Pieces(s);
      if p[|p| - 1] == [] then p[..|p| - 1] else p
  }

  predicate NoNewline(lines: seq<string>) {
    forall i :: 0 <= i < |lines| ==> '\n' !in lines[i]
  }

  lemma {:induction false} PiecesOfJoin(lines: seq<string>)
    requires lines != [] && NoNewline(lines)
    ensures Pieces(Join("\n", lines)) == lines
  {
    if |lines| == 1 {
      assert FindNewline(lines[0]) == |lines[0]|;
    } else {
      var x := lines[0];
      var rest := Join("\n", lines[1..]);
      var s := Join("\n", lines);
      assert s == x + ("\n" + rest);
      assert s[..|x|] == x && s[|x|] == '\n' && s[|x| + 1..] == rest;
      assert FindNewline(s) == |x|;
      PiecesOfJoin(lines[1..]);
    }
  }

  /** Splitting the newline-join of lines without newlines gives the lines
      back, as long as the last one is not empty. */
  lemma SplitOfJoin(lines: seq<string>)
    requires NoNewline(lines)
    requires lines == [] || lines[|lines| - 1] != []
    ensures SplitLines(Join("\n", lines)) == lines
  {
    if lines != [] {
      PiecesOfJoin(lines);
      JoinNotEmpty(lines);
    }
  }

  lemma {:induction false} JoinNotEmpty(lines: seq<string>)
    requires lines != [] && lines[|lines| - 1] != []
    ensures Join("\n", lines) != []
  {
    if |lines| > 1 {
      JoinNotEmpty(lines[1..]);
    }
  }
}
