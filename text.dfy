/**
 * Character classes and string helpers shared by the Python scripts and the
 * React components: the two languages' notions of whitespace, strip/trim,
 * ASCII lower-casing, `sep.join(parts)`, `str.split()` and the `{n:06d}`
 * zero-padded decimal format.
 */
module Text {

  /** Python's `str.isspace()`, which is also what `\s` matches in a `str` regex. */
  predicate IsPyWhitespace(c: char) {
    || ('\t' <= c <= '\r')
    || ('\U{1C}' <= c <= '\U{1F}')
    || c == ' ' || c == '\U{85}' || c == '\U{A0}' || c == '\U{1680}'
    || ('\U{2000}' <= c <= '\U{200A}')
    || c == '\U{2028}' || c == '\U{2029}' || c == '\U{202F}' || c == '\U{205F}' || c == '\U{3000}'
  }

  /** ECMAScript WhiteSpace and LineTerminator: what `String.prototype.trim` removes. */
  predicate IsJsWhitespace(c: char) {
    || ('\t' <= c <= '\r')
    || c == ' ' || c == '\U{A0}' || c == '\U{1680}'
    || ('\U{2000}' <= c <= '\U{200A}')
    || c == '\U{2028}' || c == '\U{2029}' || c == '\U{202F}' || c == '\U{205F}' || c == '\U{3000}'
    || c == '\U{FEFF}'
  }

  predicate AllIn(s: string, p: char -> bool) {
    forall k :: 0 <= k < |s| ==> p(s[k])
  }

  predicate NoneIn(s: string, p: char -> bool) {
    forall k :: 0 <= k < |s| ==> !p(s[k])
  }

  predicate IsAsciiDigit(c: char) { '0' <= c <= '9' }
  predicate IsAsciiUpper(c: char) { 'A' <= c <= 'Z' }
  predicate IsAsciiLowerAlnum(c: char) { 'a' <= c <= 'z' || IsAsciiDigit(c) }

  // ---------------------------------------------------------------------------
  // strip / trim

  /** Drops the longest prefix made of `ws` characters. */
  function TrimStart(s: string, ws: char -> bool): (r: string)
    ensures |r| <= |s|
    ensures r == [] || !ws(r[0])
    decreases |s|
  {
    if s != [] && ws(s[0]) then TrimStart(s[1..], ws) else s
  }

  /** Drops the longest suffix made of `ws` characters. */
  function TrimEnd(s: string, ws: char -> bool): (r: string)
    ensures |r| <= |s|
    ensures r == [] || !ws(r[|r| - 1])
    ensures r != [] ==> r[0] == s[0]
    decreases |s|
  {
    if s != [] && ws(s[|s| - 1]) then TrimEnd(s[..|s| - 1], ws) else s
  }

  /** What TrimStart drops is a whitespace prefix: `s` is that prefix followed by the result. */
  lemma {:induction false} TrimStartSplit(s: string, ws: char -> bool)
    ensures s == s[..|s| - |TrimStart(s, ws)|] + TrimStart(s, ws)
    ensures AllIn(s[..|s| - |TrimStart(s, ws)|], ws)
    decreases |s|
  {
    if s != [] && ws(s[0]) {
      TrimStartSplit(s[1..], ws);
      var n := |s| - |TrimStart(s, ws)|;
      assert s[..n] == [s[0]] + s[1..][..n - 1];
    }
  }

  /** What TrimEnd drops is a whitespace suffix: `s` is the result followed by that suffix. */
  lemma {:induction false} TrimEndSplit(s: string, ws: char -> bool)
    ensures s == TrimEnd(s, ws) + s[|TrimEnd(s, ws)|..]
    ensures AllIn(s[|TrimEnd(s, ws)|..], ws)
    decreases |s|
  {
    if s != [] && ws(s[|s| - 1]) {
      var s' := s[..|s| - 1];
      TrimEndSplit(s', ws);
      var n := |TrimEnd(s, ws)|;
      assert s[n..] == s'[n..] + [s[|s| - 1]];
    }
  }

  /** Removes leading and trailing `ws` characters (Python `strip()`, JS `trim()`). */
  function Strip(s: string, ws: char -> bool): (r: string)
    ensures |r| <= |s|
    ensures r == [] || (!ws(r[0]) && !ws(r[|r| - 1]))
  {
    TrimEnd(TrimStart(s, ws), ws)
  }

  /** The stripped string is the middle of `s` between a whitespace prefix and a whitespace suffix. */
  lemma StripSplit(s: string, ws: char -> bool) returns (i: nat)
    ensures i + |Strip(s, ws)| <= |s|
    ensures s == s[..i] + Strip(s, ws) + s[i + |Strip(s, ws)|..]
    ensures AllIn(s[..i], ws) && AllIn(s[i + |Strip(s, ws)|..], ws)
  {
    var t := TrimStart(s, ws);
    var r := TrimEnd(t, ws);
    TrimStartSplit(s, ws);
    TrimEndSplit(t, ws);
    i := |s| - |t|;
    assert s[i..] == t;
    assert s[i + |r|..] == t[|r|..];
  }

  function PyStrip(s: string): string { Strip(s, IsPyWhitespace) }
  function JsTrim(s: string): string { Strip(s, IsJsWhitespace) }

  /** A string with no whitespace at either end is its own strip. */
  lemma StripUnpadded(s: string, ws: char -> bool)
    requires s == [] || (!ws(s[0]) && !ws(s[|s| - 1]))
    ensures Strip(s, ws) == s
  {
    assert TrimStart(s, ws) == s;
    assert TrimEnd(s, ws) == s;
  }

  /** Strip gives the empty string exactly when every character is whitespace. */
  lemma StripEmptyIff(s: string, ws: char -> bool)
    ensures Strip(s, ws) == [] <==> AllIn(s, ws)
  {
    var r := Strip(s, ws);
    var i := StripSplit(s, ws);
    if r == [] {
      forall k | 0 <= k < |s| ensures ws(s[k]) {
        if k < i { assert s[..i][k] == s[k]; } else { assert s[i..][k - i] == s[k]; }
      }
    } else {
      assert s[i] == r[0];
    }
  }

  /** Characters of a stripped string all occur in the original. */
  lemma StripKeepsOnly(s: string, ws: char -> bool, p: char -> bool)
    requires AllIn(s, p)
    ensures AllIn(Strip(s, ws), p)
  {
    var r := Strip(s, ws);
    var i := StripSplit(s, ws);
    forall k | 0 <= k < |r| ensures p(r[k]) { assert r[k] == s[i + k]; }
  }

  lemma {:induction false} TrimStartPadding(p: string, s: string, ws: char -> bool)
    requires AllIn(p, ws)
    ensures TrimStart(p + s, ws) == TrimStart(s, ws)
    decreases |p|
  {
    if p != [] {
      assert (p + s)[1..] == p[1..] + s;
      TrimStartPadding(p[1..], s, ws);
    } else {
      assert p + s == s;
    }
  }

  lemma {:induction false} TrimEndPadding(s: string, q: string, ws: char -> bool)
    requires AllIn(q, ws)
    ensures TrimEnd(s + q, ws) == TrimEnd(s, ws)
    decreases |q|
  {
    if q != [] {
      assert (s + q)[..|s + q| - 1] == s + q[..|q| - 1];
      TrimEndPadding(s, q[..|q| - 1], ws);
    } else {
      assert s + q == s;
    }
  }

  lemma {:induction false} TrimStartAppend(s: string, q: string, ws: char -> bool)
    requires AllIn(q, ws)
    ensures TrimStart(s, ws) != [] ==> TrimStart(s + q, ws) == TrimStart(s, ws) + q
    ensures TrimStart(s, ws) == [] ==> TrimStart(s + q, ws) == []
    decreases |s|
  {
    if s == [] {
      assert s + q == q + [];
      TrimStartPadding(q, [], ws);
    } else if ws(s[0]) {
      assert (s + q)[1..] == s[1..] + q;
      TrimStartAppend(s[1..], q, ws);
    } else {
      assert (s + q)[0] == s[0];
    }
  }

  /** Whitespace padding on either side does not change the stripped value. */
  lemma StripPadding(p: string, s: string, q: string, ws: char -> bool)
    requires AllIn(p, ws) && AllIn(q, ws)
    ensures Strip(p + s + q, ws) == Strip(s, ws)
  {
    assert p + s + q == p + (s + q);
    TrimStartPadding(p, s + q, ws);
    TrimStartAppend(s, q, ws);
    if TrimStart(s, ws) != [] {
      TrimEndPadding(TrimStart(s, ws), q, ws);
    }
  }

  /** Stripping twice is stripping once. */
  lemma StripIdempotent(s: string, ws: char -> bool)
    ensures Strip(Strip(s, ws), ws) == Strip(s, ws)
  {
    var r := Strip(s, ws);
    assert TrimStart(r, ws) == r;
    assert TrimEnd(r, ws) == r;
  }

  // ---------------------------------------------------------------------------
  // lower-casing (ASCII letters only)

  function LowerChar(c: char): (d: char)
    ensures !IsAsciiUpper(d)
    ensures !IsAsciiUpper(c) ==> d == c
    ensures IsAsciiUpper(c) ==> 'a' <= d <= 'z' && d as int == c as int + 32
  {
    if IsAsciiUpper(c) then (c as int + 32) as char else c
  }

  function Lower(s: string): (r: string)
    ensures |r| == |s|
    ensures forall k :: 0 <= k < |s| ==> r[k] == LowerChar(s[k])
  {
    seq(|s|, k requires 0 <= k < |s| => LowerChar(s[k]))
  }

  /** Lower-casing is idempotent, and leaves a string without upper-case letters alone. */
  lemma LowerIdempotent(s: string)
    ensures Lower(Lower(s)) == Lower(s)
  {
  }

  lemma LowerOfLowercase(s: string)
    requires NoneIn(s, IsAsciiUpper)
    ensures Lower(s) == s
  {
  }

  /** Lower-casing commutes with Python's strip, since no letter is whitespace. */
  lemma {:induction false} LowerTrimStart(s: string)
    ensures Lower(TrimStart(s, IsPyWhitespace)) == TrimStart(Lower(s), IsPyWhitespace)
    decreases |s|
  {
    if s != [] {
      assert IsPyWhitespace(Lower(s)[0]) == IsPyWhitespace(s[0]);
      assert Lower(s)[1..] == Lower(s[1..]);
      LowerTrimStart(s[1..]);
    }
  }

  lemma {:induction false} LowerTrimEnd(s: string)
    ensures Lower(TrimEnd(s, IsPyWhitespace)) == TrimEnd(Lower(s), IsPyWhitespace)
    decreases |s|
  {
    if s != [] {
      assert IsPyWhitespace(Lower(s)[|s| - 1]) == IsPyWhitespace(s[|s| - 1]);
      assert Lower(s)[..|s| - 1] == Lower(s[..|s| - 1]);
      LowerTrimEnd(s[..|s| - 1]);
    }
  }

  lemma LowerStrip(s: string)
    ensures Lower(PyStrip(s)) == PyStrip(Lower(s))
  {
    LowerTrimStart(s);
    LowerTrimEnd(TrimStart(s, IsPyWhitespace));
  }

  // ---------------------------------------------------------------------------
  // sep.join(parts)

  function Join(sep: string, parts: seq<string>): (r: string)
    ensures parts == [] ==> r == []
    ensures |parts| == 1 ==> r == parts[0]
  {
    if parts == [] then []
    else if |parts| == 1 then parts[0]
    else parts[0] + sep + Join(sep, parts[1..])
  }

  /** Joining a list with one more element appends the separator and that element. */
  lemma {:induction false} JoinSnoc(sep: string, parts: seq<string>, x: string)
    requires parts != []
    ensures Join(sep, parts + [x]) == Join(sep, parts) + sep + x
    decreases |parts|
  {
    if |parts| == 1 {
      assert parts + [x] == [parts[0], x];
      assert (parts + [x])[1..] == [x];
    } else {
      assert (parts + [x])[1..] == parts[1..] + [x];
      JoinSnoc(sep, parts[1..], x);
    }
  }

  // ---------------------------------------------------------------------------
  // str.split() with no arguments

  /** The longest prefix of `s` free of Python whitespace. */
  function TakeWord(s: string): (w: string)
    ensures |w| <= |s| && w == s[..|w|]
    ensures NoneIn(w, IsPyWhitespace)
    ensures |w| == |s| || IsPyWhitespace(s[|w|])
    decreases |s|
  {
    if s == [] || IsPyWhitespace(s[0]) then [] else [s[0]] + TakeWord(s[1..])
  }

  /** A token of `str.split()`: non-empty and free of whitespace. */
  predicate IsWord(w: string) { w != [] && NoneIn(w, IsPyWhitespace) }

  /** Python `s.split()`: the maximal runs of non-whitespace characters, in order. */
  function Tokens(s: string): (r: seq<string>)
    ensures forall k :: 0 <= k < |r| ==> IsWord(r[k])
    decreases |s|
  {
    var t := TrimStart(s, IsPyWhitespace);
    if t == [] then []
    else
      var w := TakeWord(t);
      assert IsWord(w);
      var rest := Tokens(t[|w|..]);
      assert forall k :: 0 <= k < |rest| ==> IsWord(rest[k]);
      [w] + rest
  }

  /** Every character satisfies `p` or is Python whitespace. */
  predicate AllInOrBlank(s: string, p: char -> bool) {
    forall k :: 0 <= k < |s| ==> p(s[k]) || IsPyWhitespace(s[k])
  }

  lemma AllInOrBlankSuffix(s: string, p: char -> bool, i: nat)
    requires AllInOrBlank(s, p) && i <= |s|
    ensures AllInOrBlank(s[i..], p)
  {
    forall k | 0 <= k < |s| - i ensures p(s[i..][k]) || IsPyWhitespace(s[i..][k]) {
      assert s[i..][k] == s[i + k];
    }
  }

  /** A string whose characters all satisfy `p` splits into tokens that do too. */
  lemma {:induction false} TokensKeepOnly(s: string, p: char -> bool)
    requires AllInOrBlank(s, p)
    ensures forall i :: 0 <= i < |Tokens(s)| ==> AllIn(Tokens(s)[i], p)
    decreases |s|
  {
    var t := TrimStart(s, IsPyWhitespace);
    if t != [] {
      TrimStartSplit(s, IsPyWhitespace);
      assert t == s[|s| - |t|..];
      AllInOrBlankSuffix(s, p, |s| - |t|);
      var w := TakeWord(t);
      WordKeepsOnly(t, p);
      AllInOrBlankSuffix(t, p, |w|);
      var rest := t[|w|..];
      TokensKeepOnly(rest, p);
      var r := Tokens(s);
      assert r == [w] + Tokens(rest);
      forall i | 0 <= i < |r| ensures AllIn(r[i], p) {
        if i > 0 { assert r[i] == Tokens(rest)[i - 1]; }
      }
    }
  }

  lemma WordKeepsOnly(t: string, p: char -> bool)
    requires AllInOrBlank(t, p)
    ensures AllIn(TakeWord(t), p)
  {
    var w := TakeWord(t);
    forall k | 0 <= k < |w| ensures p(w[k]) {
      assert w[k] == t[k];
      assert !IsPyWhitespace(w[k]);
    }
  }

  lemma TokensOfWordThenSpace(w: string, rest: string)
    requires IsWord(w)
    ensures Tokens(w + " " + rest) == [w] + Tokens(rest)
  {
    var s := w + " " + rest;
    assert TrimStart(s, IsPyWhitespace) == s;
    TakeWordOf(w, " " + rest);
    assert s == w + (" " + rest);
    assert s[|w|..] == " " + rest;
    assert TrimStart(" " + rest, IsPyWhitespace) == TrimStart(rest, IsPyWhitespace) by {
      assert (" " + rest)[1..] == rest;
    }
  }

  lemma TokensOfWord(w: string)
    requires IsWord(w)
    ensures Tokens(w) == [w]
  {
    assert TrimStart(w, IsPyWhitespace) == w;
    TakeWordOf(w, []);
    assert w + [] == w;
  }

  lemma {:induction false} TakeWordOf(w: string, rest: string)
    requires NoneIn(w, IsPyWhitespace)
    requires rest == [] || IsPyWhitespace(rest[0])
    ensures TakeWord(w + rest) == w
    decreases |w|
  {
    if w != [] {
      assert (w + rest)[1..] == w[1..] + rest;
      TakeWordOf(w[1..], rest);
    } else {
      assert w + rest == rest;
    }
  }

  /** Round trip: splitting words joined by single spaces gives the words back. */
  lemma {:induction false} TokensOfJoin(words: seq<string>)
    requires forall i :: 0 <= i < |words| ==> IsWord(words[i])
    ensures Tokens(Join(" ", words)) == words
    decreases |words|
  {
    if words == [] {
    } else if |words| == 1 {
      TokensOfWord(words[0]);
    } else {
      TokensOfJoin(words[1..]);
      TokensOfWordThenSpace(words[0], Join(" ", words[1..]));
    }
  }

  // ---------------------------------------------------------------------------
  // decimal formatting: f"{n:06d}"

  function DigitChar(d: nat): (c: char)
    requires d < 10
    ensures IsAsciiDigit(c)
  {
    ('0' as int + d) as char
  }

  /** The decimal representation of `n`, without leading zeros ("0" for zero). */
  function Decimal(n: nat): (r: string)
    ensures r != [] && AllIn(r, IsAsciiDigit)
    decreases n
  {
    if n < 10 then [DigitChar(n)] else Decimal(n / 10) + [DigitChar(n % 10)]
  }

  function Zeros(k: nat): (r: string)
    ensures |r| == k && forall i :: 0 <= i < k ==> r[i] == '0'
  {
    seq(k, i => '0')
  }

  /** Python `f"{n:0{width}d}"` for a non-negative `n`. */
  function ZeroPad(n: nat, width: nat): (r: string)
    ensures |r| >= width && AllIn(r, IsAsciiDigit)
  {
    var d := Decimal(n);
    if |d| < width then Zeros(width - |d|) + d else d
  }

  /** The value of a string of decimal digits. */
  function DecimalValue(s: string): nat
    requires AllIn(s, IsAsciiDigit)
  {
    if s == [] then 0 else 10 * DecimalValue(s[..|s| - 1]) + (s[|s| - 1] as int - '0' as int)
  }

  lemma {:induction false} DecimalRoundTrip(n: nat)
    ensures DecimalValue(Decimal(n)) == n
    decreases n
  {
    if n >= 10 {
      DecimalRoundTrip(n / 10);
      var d := Decimal(n);
      assert d[..|d| - 1] == Decimal(n / 10);
    }
  }

  lemma {:induction false} LeadingZerosIgnored(k: nat, s: string)
    requires AllIn(s, IsAsciiDigit)
    ensures AllIn(Zeros(k) + s, IsAsciiDigit)
    ensures DecimalValue(Zeros(k) + s) == DecimalValue(s)
    decreases |s|
  {
    var z := Zeros(k) + s;
    if s == [] {
      assert z == Zeros(k);
      ZerosValue(k);
    } else {
      assert z[..|z| - 1] == Zeros(k) + s[..|s| - 1];
      LeadingZerosIgnored(k, s[..|s| - 1]);
    }
  }

  lemma {:induction false} ZerosValue(k: nat)
    ensures DecimalValue(Zeros(k)) == 0
    decreases k
  {
    if k > 0 {
      assert Zeros(k)[..k - 1] == Zeros(k - 1);
      ZerosValue(k - 1);
    }
  }

  /** Reading back a zero-padded number gives the number: the format is injective. */
  lemma ZeroPadRoundTrip(n: nat, width: nat)
    ensures DecimalValue(ZeroPad(n, width)) == n
  {
    DecimalRoundTrip(n);
    var d := Decimal(n);
    if |d| < width { LeadingZerosIgnored(width - |d|, d); }
  }

  lemma ZeroPadInjective(m: nat, n: nat, width: nat)
    requires ZeroPad(m, width) == ZeroPad(n, width)
    ensures m == n
  {
    ZeroPadRoundTrip(m, width);
    ZeroPadRoundTrip(n, width);
  }
}
