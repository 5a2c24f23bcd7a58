/**
 * The text features shared by the serving backend and the training script:
 * the `clean_text` pipeline (lower-case, drop `<...>` tags, blank out
 * everything but `[a-z0-9]` and whitespace, split, drop stopwords, stem,
 * join) and the five link counts of `extract_link_features`. The regular
 * expressions are written out as scans over the characters of the text.
 */
module TextFeatures {
  import opened Text
  import opened Maybe

  // ---------------------------------------------------------------------------
  // re.sub(r'<[^>]+>', '', text)

  /** The index of the first `c` in `s`, if there is one. */
  function IndexOf(s: string, c: char): (r: Option<nat>)
    ensures r.Some? ==> r.value < |s| && s[r.value] == c && c !in s[..r.value]
    ensures r.None? ==> c !in s
  {
    if s == [] then None
    else if s[0] == c then Some(0)
    else
      match IndexOf(s[1..], c)
      case None => None
      case Some(k) =>
        assert s[..k + 1] == [s[0]] + s[1..][..k];
        Some(k + 1)
  }

  /**
   * The length of the tag `<...>` that starts `s`, or 0 when the pattern does
   * not match there: a `<`, at least one character other than `>`, then the
   * first `>` after it.
   */
  function TagLength(s: string): (n: nat)
    ensures n > 0 ==> 3 <= n <= |s| && s[0] == '<' && s[n - 1] == '>' && '>' !in s[1..n - 1]
    ensures n == 0 && s != [] && s[0] == '<' ==> '>' !in s[1..] || s[1] == '>'
  {
    if s == [] || s[0] != '<' then 0
    else
      match IndexOf(s[1..], '>')
      case None => 0
      case Some(k) =>
        assert s[1..][..k] == s[1..k + 1];
        if k == 0 then 0 else k + 2
  }

  /** Python `re.sub(r'<[^>]+>', '', s)`: every leftmost tag match removed, scanning left to right. */
  function StripTags(s: string): (r: string)
    ensures |r| <= |s|
    ensures '<' !in s ==> r == s
    decreases |s|
  {
    if s == [] then []
    else
      var n := TagLength(s);
      if n > 0 then StripTags(s[n..]) else [s[0]] + StripTags(s[1..])
  }

  /** A tag with a non-empty inside and no `>` in it disappears, and scanning resumes right after it. */
  lemma StripTagsDropsTag(inside: string, rest: string)
    requires inside != [] && '>' !in inside
    ensures StripTags("<" + inside + ">" + rest) == StripTags(rest)
  {
    var s := "<" + inside + ">" + rest;
    assert s[1..][..|inside|] == inside;
    assert s[1..][|inside|] == '>';
    assert IndexOf(s[1..], '>') == Some(|inside|);
    assert s[|inside| + 2..] == rest;
  }

  /** A `<` that no tag can start from (no `>` anywhere after it) is kept. */
  lemma StripTagsKeepsOpenBracket(rest: string)
    requires '>' !in rest
    ensures StripTags("<" + rest) == "<" + StripTags(rest)
  {
    var s := "<" + rest;
    assert s[1..] == rest;
  }

  // ---------------------------------------------------------------------------
  // re.sub(r'[^a-z0-9\s]', ' ', text)

  predicate IsKept(c: char) { IsAsciiLowerAlnum(c) || IsPyWhitespace(c) }

  /** Every character outside `[a-z0-9]` and whitespace becomes a space. */
  function BlankOthers(s: string): (r: string)
    ensures |r| == |s|
    ensures AllInOrBlank(r, IsAsciiLowerAlnum)
    ensures forall k :: 0 <= k < |s| ==> (r[k] == s[k] <==> IsKept(s[k]) || s[k] == ' ')
    ensures forall k :: 0 <= k < |s| ==> IsKept(s[k]) ==> r[k] == s[k]
    ensures forall k :: 0 <= k < |s| ==> !IsKept(s[k]) ==> r[k] == ' '
  {
    seq(|s|, k requires 0 <= k < |s| => if IsKept(s[k]) then s[k] else ' ')
  }

  lemma BlankOthersIdempotent(s: string)
    ensures BlankOthers(BlankOthers(s)) == BlankOthers(s)
  {
  }

  // ---------------------------------------------------------------------------
  // the token pipeline

  /** The tokens `clean_text` has before stopword removal and stemming. */
  function Words(text: string): seq<string> {
    Tokens(BlankOthers(StripTags(Lower(text))))
  }

  /** Every token before stemming is a non-empty string over `[a-z0-9]`. */
  lemma WordsAlphabet(text: string)
    ensures forall k :: 0 <= k < |Words(text)| ==> Words(text)[k] != [] && AllIn(Words(text)[k], IsAsciiLowerAlnum)
  {
    TokensKeepOnly(BlankOthers(StripTags(Lower(text))), IsAsciiLowerAlnum);
  }

  /** The comprehension `[w for w in tokens if w not in STOPWORDS]`. */
  function DropStopwords(tokens: seq<string>, stop: set<string>): (r: seq<string>)
    ensures |r| <= |tokens|
    ensures forall k :: 0 <= k < |r| ==> r[k] in tokens && r[k] !in stop
  {
    if tokens == [] then []
    else (if tokens[0] in stop then [] else [tokens[0]]) + DropStopwords(tokens[1..], stop)
  }

  /** A token survives exactly when it is not a stopword. */
  lemma {:induction false} DropStopwordsKeeps(tokens: seq<string>, stop: set<string>, w: string)
    ensures w in DropStopwords(tokens, stop) <==> w in tokens && w !in stop
  {
    if tokens != [] {
      DropStopwordsKeeps(tokens[1..], stop, w);
      assert tokens == [tokens[0]] + tokens[1..];
    }
  }

  /** Filtering keeps the order of the tokens: it distributes over concatenation. */
  lemma {:induction false} DropStopwordsAppend(a: seq<string>, b: seq<string>, stop: set<string>)
    ensures DropStopwords(a + b, stop) == DropStopwords(a, stop) + DropStopwords(b, stop)
  {
    if a != [] {
      assert (a + b)[0] == a[0];
      assert (a + b)[1..] == a[1..] + b;
      DropStopwordsAppend(a[1..], b, stop);
      var head := if a[0] in stop then [] else [a[0]];
      assert DropStopwords(a + b, stop) == head + DropStopwords(a[1..] + b, stop);
      assert DropStopwords(a, stop) == head + DropStopwords(a[1..], stop);
      var x, y := DropStopwords(a[1..], stop), DropStopwords(b, stop);
      assert head + (x + y) == (head + x) + y;
    } else {
      assert a + b == b;
    }
  }

  /** The comprehension `[PS.stem(w) for w in tokens]`. */
  function StemAll(tokens: seq<string>, stem: string -> string): (r: seq<string>)
    ensures |r| == |tokens|
    ensures forall k :: 0 <= k < |tokens| ==> r[k] == stem(tokens[k])
  {
    seq(|tokens|, k requires 0 <= k < |tokens| => stem(tokens[k]))
  }

  /**
   * `clean_text`: lower-case, drop tags, blank out punctuation, split, drop
   * the stopwords, stem what is left and join with single spaces. The
   * stopword list and the Porter stemmer are parameters.
   */
  function CleanText(text: string, stop: set<string>, stem: string -> string): (r: string)
    ensures DropStopwords(Words(text), stop) == [] ==> r == []
    ensures var kept := DropStopwords(Words(text), stop); |kept| == 1 ==> r == stem(kept[0])
  {
    Join(" ", StemAll(DropStopwords(Words(text), stop), stem))
  }

  /**
   * When the stemmer maps words to words, splitting the cleaned text again
   * gives back exactly the stems of the non-stopword tokens, in order.
   */
  lemma CleanTextTokens(text: string, stop: set<string>, stem: string -> string)
    requires forall w :: IsWord(w) ==> IsWord(stem(w))
    ensures Tokens(CleanText(text, stop, stem)) == StemAll(DropStopwords(Words(text), stop), stem)
  {
    var kept := DropStopwords(Words(text), stop);
    var stems := StemAll(kept, stem);
    forall k | 0 <= k < |stems| ensures IsWord(stems[k]) {
      assert kept[k] in Words(text);
    }
    TokensOfJoin(stems);
  }

  // ---------------------------------------------------------------------------
  // re.findall(r'https?://\S+', text)

  /** The length of the `https://` or `http://` scheme that starts `s`, or 0. */
  function SchemeLength(s: string): (n: nat)
    ensures n == 0 || n == 7 || n == 8
    ensures n > 0 ==> n <= |s| && s[0] == 'h' && NoneIn(s[..n], IsPyWhitespace)
    ensures n == 8 ==> s[..8] == "https://"
    ensures n == 7 ==> s[..7] == "http://"
    ensures n == 0 <==> !((|s| >= 7 && s[..7] == "http://") || (|s| >= 8 && s[..8] == "https://"))
  {
    if |s| >= 8 && s[..8] == "https://" then 8
    else if |s| >= 7 && s[..7] == "http://" then 7
    else 0
  }

  /** The URL pattern matches at `i`: a scheme followed by at least one non-whitespace character. */
  predicate UrlStartsAt(s: string, i: nat) {
    i < |s| && var n := SchemeLength(s[i..]); n > 0 && i + n < |s| && !IsPyWhitespace(s[i + n])
  }

  /** The URL matched at `i`: the greedy `\S+` runs to the next whitespace. */
  function UrlAt(s: string, i: nat): (u: string)
    requires UrlStartsAt(s, i)
    ensures SchemeLength(s[i..]) < |u| && i + |u| <= |s|
  {
    var u := TakeWord(s[i..]);
    var n := SchemeLength(s[i..]);
    assert s[i..][n] == s[i + n];
    assert forall k :: 0 <= k < n ==> s[i..][..n][k] == s[i..][k];
    u
  }

  /** Where `findall` finds a URL, scanning from `i`: after a match the scan resumes at its end. */
  function UrlStarts(s: string, i: nat): (ps: seq<nat>)
    requires i <= |s|
    ensures forall k :: 0 <= k < |ps| ==> i <= ps[k] && UrlStartsAt(s, ps[k])
    ensures forall k :: 0 <= k < |ps| - 1 ==> ps[k] + |UrlAt(s, ps[k])| <= ps[k + 1]
    decreases |s| - i
  {
    if i == |s| then []
    else if UrlStartsAt(s, i) then [i] + UrlStarts(s, i + |UrlAt(s, i)|)
    else UrlStarts(s, i + 1)
  }

  /** `re.findall(r'https?://\S+', text)`. */
  function FindUrls(s: string): (urls: seq<string>)
    ensures |urls| == |UrlStarts(s, 0)|
    ensures forall k :: 0 <= k < |urls| ==> 0 < SchemeLength(urls[k]) < |urls[k]| && NoneIn(urls[k], IsPyWhitespace)
  {
    var ps := UrlStarts(s, 0);
    assert forall k :: 0 <= k < |ps| ==> 0 < SchemeLength(UrlAt(s, ps[k])) < |UrlAt(s, ps[k])| && NoneIn(UrlAt(s, ps[k]), IsPyWhitespace) by {
      forall k | 0 <= k < |ps|
        ensures 0 < SchemeLength(UrlAt(s, ps[k])) < |UrlAt(s, ps[k])| && NoneIn(UrlAt(s, ps[k]), IsPyWhitespace)
      {
        UrlAtShape(s, ps[k]);
      }
    }
    seq(|ps|, k requires 0 <= k < |ps| => UrlAt(s, ps[k]))
  }

  /**
   * Each extracted URL begins with `http://` or `https://`, holds at least
   * one more character, has no whitespace, sits in the text at its match
   * position and ends at whitespace or at the end of the text.
   */
  lemma UrlShape(s: string, k: nat)
    requires k < |FindUrls(s)|
    ensures var u, p := FindUrls(s)[k], UrlStarts(s, 0)[k];
      && 0 < SchemeLength(u) < |u|
      && NoneIn(u, IsPyWhitespace)
      && p + |u| <= |s| && s[p..p + |u|] == u
      && (p + |u| == |s| || IsPyWhitespace(s[p + |u|]))
  {
    var p := UrlStarts(s, 0)[k];
    assert FindUrls(s)[k] == UrlAt(s, p);
    UrlAtShape(s, p);
  }

  /** The match at one position, as `UrlShape` states it for every match. */
  lemma UrlAtShape(s: string, p: nat)
    requires UrlStartsAt(s, p)
    ensures var u := UrlAt(s, p);
      && 0 < SchemeLength(u) < |u|
      && NoneIn(u, IsPyWhitespace)
      && p + |u| <= |s| && s[p..p + |u|] == u
      && (p + |u| == |s| || IsPyWhitespace(s[p + |u|]))
  {
    var u := UrlAt(s, p);
    var t := s[p..];
    assert u == TakeWord(t) && u == t[..|u|];
    SchemeOfPrefix(t, u);
    assert s[p..p + |u|] == t[..|u|];
    assert p + |u| < |s| ==> s[p + |u|] == t[|u|];
  }

  /** A prefix longer than the scheme of `t` has the same scheme. */
  lemma SchemeOfPrefix(t: string, u: string)
    requires |u| <= |t| && u == t[..|u|] && SchemeLength(t) < |u|
    ensures SchemeLength(u) == SchemeLength(t)
  {
    if |u| >= 7 { assert u[..7] == t[..7]; }
    if |u| >= 8 { assert u[..8] == t[..8]; }
  }

  /** A URL starting at the scan position is the next one found, and the scan resumes after it. */
  lemma UrlFoundHere(s: string, i: nat)
    requires i <= |s| && UrlStartsAt(s, i)
    ensures UrlStarts(s, i) == [i] + UrlStarts(s, i + |UrlAt(s, i)|)
  {
  }

  /** Positions where no URL starts are skipped: the scan from `i` equals the scan from `j`. */
  lemma {:induction false} UrlScanSkips(s: string, i: nat, j: nat)
    requires i <= j <= |s|
    requires forall p :: i <= p < j ==> !UrlStartsAt(s, p)
    ensures UrlStarts(s, i) == UrlStarts(s, j)
    decreases j - i
  {
    if i < j {
      UrlScanSkips(s, i + 1, j);
    }
  }

  /** The first URL start at or after the scan position is found, and the scan resumes after it. */
  lemma FirstUrlFound(s: string, i: nat, p: nat)
    requires i <= p < |s| && UrlStartsAt(s, p)
    requires forall q :: i <= q < p ==> !UrlStartsAt(s, q)
    ensures UrlStarts(s, i) == [p] + UrlStarts(s, p + |UrlAt(s, p)|)
  {
    UrlScanSkips(s, i, p);
    UrlFoundHere(s, p);
  }

  /** Any text in which some URL starts yields at least one URL. */
  lemma {:induction false} UrlPresentFound(s: string, i: nat, p: nat)
    requires i <= p < |s| && UrlStartsAt(s, p)
    ensures UrlStarts(s, i) != []
    decreases |s| - i
  {
    if !UrlStartsAt(s, i) {
      UrlPresentFound(s, i + 1, p);
    }
  }

  /** The scan finds no URL in a text without the letter `h`. */
  lemma {:induction false} NoUrlsWithoutH(s: string, i: nat)
    requires i <= |s| && 'h' !in s
    ensures UrlStarts(s, i) == []
    decreases |s| - i
  {
    if i < |s| {
      assert s[i..][0] == s[i];
      NoUrlsWithoutH(s, i + 1);
    }
  }

  // ---------------------------------------------------------------------------
  // the three per-URL tests

  /** The length of the run of ASCII digits that starts `s`. */
  function DigitRun(s: string): (n: nat)
    ensures n <= |s| && AllIn(s[..n], IsAsciiDigit)
    ensures n == |s| || !IsAsciiDigit(s[n])
  {
    if s == [] || !IsAsciiDigit(s[0]) then 0
    else
      var n := 1 + DigitRun(s[1..]);
      assert s[..n] == [s[0]] + s[1..][..n - 1];
      n
  }

  /** `s` begins with `groups` runs of digits separated by dots (`\d+\.\d+...`). */
  predicate DottedDigits(s: string, groups: nat)
    requires groups > 0
    decreases groups
  {
    var d := DigitRun(s);
    d > 0 && (groups == 1 || (d < |s| && s[d] == '.' && DottedDigits(s[d + 1..], groups - 1)))
  }

  /** `re.match(r'https?://\d+\.\d+\.\d+\.\d+', u)`: the scheme is followed by a dotted quad. */
  predicate IsIpUrl(u: string)
    ensures IsIpUrl(u) ==> 0 < SchemeLength(u) < |u| && IsAsciiDigit(u[SchemeLength(u)])
  {
    var n := SchemeLength(u);
    n > 0 && DottedDigits(u[n..], 4)
  }

  predicate EndsWith(s: string, suffix: string) {
    |suffix| <= |s| && s[|s| - |suffix|..] == suffix
  }

  /** `u.endswith(('.ru', '.cn', '.tk', '.biz', '.info'))`. */
  predicate HasSuspiciousTld(u: string) {
    EndsWith(u, ".ru") || EndsWith(u, ".cn") || EndsWith(u, ".tk") || EndsWith(u, ".biz") || EndsWith(u, ".info")
  }

  /** Python `part in s` for strings: `part` occurs at some position of `s`. */
  predicate Contains(s: string, part: string)
    decreases |s|
  {
    |part| <= |s| && (s[..|part|] == part || Contains(s[1..], part))
  }

  lemma {:induction false} ContainsAt(s: string, part: string, i: nat)
    requires i + |part| <= |s| && s[i..i + |part|] == part
    ensures Contains(s, part)
    decreases i
  {
    if i > 0 {
      assert s[1..][i - 1..i - 1 + |part|] == s[i..i + |part|];
      ContainsAt(s[1..], part, i - 1);
    }
  }

  /** When `part in s` holds, it occurs at some position of `s`. */
  lemma {:induction false} ContainsFound(s: string, part: string) returns (i: nat)
    requires Contains(s, part)
    ensures i + |part| <= |s| && s[i..i + |part|] == part
    decreases |s|
  {
    if s[..|part|] == part {
      i := 0;
    } else {
      var j := ContainsFound(s[1..], part);
      assert s[1..][j..j + |part|] == s[j + 1..j + 1 + |part|];
      i := j + 1;
    }
  }

  /** `any(s in u for s in ['bit.ly', 'tinyurl', 'goo.gl'])`. */
  predicate IsShortener(u: string) {
    Contains(u, "bit.ly") || Contains(u, "tinyurl") || Contains(u, "goo.gl")
  }

  /** `sum(test(u) for u in urls)`: how many URLs pass the test. */
  function CountWhere(urls: seq<string>, test: string -> bool): (n: nat)
    ensures n <= |urls|
    ensures n == 0 <==> forall k :: 0 <= k < |urls| ==> !test(urls[k])
  {
    if urls == [] then 0
    else
      var rest := CountWhere(urls[1..], test);
      assert forall k :: 1 <= k < |urls| ==> urls[k] == urls[1..][k - 1];
      (if test(urls[0]) then 1 else 0) + rest
  }

  /** One URL counts once when it passes the test. */
  lemma CountWhereOne(u: string, test: string -> bool)
    ensures CountWhere([u], test) == if test(u) then 1 else 0
  {
    assert [u][1..] == [];
  }

  /** Counting distributes over concatenation: each URL is counted on its own. */
  lemma {:induction false} CountWhereAppend(a: seq<string>, b: seq<string>, test: string -> bool)
    ensures CountWhere(a + b, test) == CountWhere(a, test) + CountWhere(b, test)
    decreases |a|
  {
    if a == [] {
      assert a + b == b;
    } else {
      assert (a + b)[0] == a[0];
      assert (a + b)[1..] == a[1..] + b;
      CountWhereAppend(a[1..], b, test);
    }
  }

  // ---------------------------------------------------------------------------
  // len(re.findall(r'(verify|urgent).*https?://', text))

  /** `verify` or `urgent` starts at `i`. */
  predicate KeywordAt(s: string, i: nat) {
    i + 6 <= |s| && (s[i..i + 6] == "verify" || s[i..i + 6] == "urgent")
  }

  predicate SchemeAt(s: string, q: nat) { q <= |s| && SchemeLength(s[q..]) > 0 }

  /** The end of the line holding position `j`: the next `\n`, or the end of the text. */
  function LineEnd(s: string, j: nat): (e: nat)
    requires j <= |s|
    ensures j <= e <= |s| && (e == |s| || s[e] == '\n')
    ensures forall k :: j <= k < e ==> s[k] != '\n'
    decreases |s| - j
  {
    if j == |s| || s[j] == '\n' then j else LineEnd(s, j + 1)
  }

  /** The last scheme starting in `[lo, hi)`: where the greedy `.*` backs off to. */
  function LastScheme(s: string, lo: nat, hi: nat): (q: Option<nat>)
    ensures q.Some? ==> lo <= q.value < hi && SchemeAt(s, q.value)
    ensures q.Some? ==> forall k :: q.value < k < hi ==> !SchemeAt(s, k)
    ensures q.None? ==> forall k :: lo <= k < hi ==> !SchemeAt(s, k)
    decreases hi
  {
    if hi <= lo then None
    else if SchemeAt(s, hi - 1) then Some(hi - 1)
    else LastScheme(s, lo, hi - 1)
  }

  /**
   * A match that starts at `i`: `verify` or `urgent` there, then the last
   * scheme on the rest of that line; the match ends after that scheme.
   */
  function MatchAt(s: string, i: nat): (q: Option<nat>)
    requires i <= |s|
    ensures q.Some? ==> KeywordAt(s, i)
    ensures q.Some? ==> i + 6 <= q.value && SchemeAt(s, q.value)
    ensures q.Some? ==> q.value < LineEnd(s, i + 6) && forall k :: q.value < k < LineEnd(s, i + 6) ==> !SchemeAt(s, k)
    ensures q.None? ==> !KeywordAt(s, i) || forall k :: i + 6 <= k < LineEnd(s, i + 6) ==> !SchemeAt(s, k)
  {
    if KeywordAt(s, i) then LastScheme(s, i + 6, LineEnd(s, i + 6)) else None
  }

  /** The number of matches `findall` reports when scanning from `i`. */
  function VerifyUrgentFrom(s: string, i: nat): nat
    requires i <= |s|
    decreases |s| - i
  {
    if i == |s| then 0
    else
      match MatchAt(s, i)
      case Some(q) => 1 + VerifyUrgentFrom(s, q + SchemeLength(s[q..]))
      case None => VerifyUrgentFrom(s, i + 1)
  }

  /** How many positions from `i` on start a scheme. */
  function SchemesFrom(s: string, i: nat): nat
    requires i <= |s|
    decreases |s| - i
  {
    if i == |s| then 0 else (if SchemeAt(s, i) then 1 else 0) + SchemesFrom(s, i + 1)
  }

  lemma {:induction false} SchemesFromMonotone(s: string, i: nat, j: nat)
    requires i <= j <= |s|
    ensures SchemesFrom(s, j) <= SchemesFrom(s, i)
    decreases j - i
  {
    if i < j { SchemesFromMonotone(s, i + 1, j); }
  }

  lemma SchemesFromStep(s: string, q: nat)
    requires SchemeAt(s, q) && q < |s|
    ensures SchemesFrom(s, q) == 1 + SchemesFrom(s, q + 1)
  {
  }

  /** One step of the scan from `i`: where it resumes, and the scheme a match there consumes. */
  lemma VerifyUrgentStep(s: string, i: nat) returns (next: nat, q: Option<nat>)
    requires i < |s|
    ensures i < next <= |s|
    ensures q.None? ==> VerifyUrgentFrom(s, i) == VerifyUrgentFrom(s, next)
    ensures q.Some? ==> VerifyUrgentFrom(s, i) == 1 + VerifyUrgentFrom(s, next)
    ensures q.Some? ==> i <= q.value < next && SchemeAt(s, q.value)
  {
    q := MatchAt(s, i);
    next := if q.Some? then q.value + SchemeLength(s[q.value..]) else i + 1;
  }

  /** Every match opens with a keyword, so a positive count needs a `verify` or `urgent` at or after `i`. */
  lemma {:induction false} UrgentNeedsKeyword(s: string, i: nat) returns (k: nat)
    requires i <= |s| && VerifyUrgentFrom(s, i) > 0
    ensures i <= k < |s| && KeywordAt(s, k)
    decreases |s| - i
  {
    if MatchAt(s, i).Some? {
      k := i;
    } else {
      k := UrgentNeedsKeyword(s, i + 1);
    }
  }

  /** A scheme at `q` between `i` and `next` is counted from `i` but not from `next`. */
  lemma SchemesAcross(s: string, i: nat, q: nat, next: nat)
    requires i <= q < next <= |s| && SchemeAt(s, q)
    ensures 1 + SchemesFrom(s, next) <= SchemesFrom(s, i)
  {
    SchemesFromMonotone(s, q + 1, next);
    SchemesFromStep(s, q);
    SchemesFromMonotone(s, i, q);
  }

  /** Every match consumes a scheme of its own, so there are never more matches than schemes. */
  lemma {:induction false} VerifyUrgentBound(s: string, i: nat)
    requires i <= |s|
    ensures VerifyUrgentFrom(s, i) <= SchemesFrom(s, i)
    decreases |s| - i
  {
    if i < |s| {
      var next, q := VerifyUrgentStep(s, i);
      VerifyUrgentBound(s, next);
      if q.Some? {
        SchemesAcross(s, i, q.value, next);
      } else {
        SchemesFromMonotone(s, i, next);
      }
    }
  }

  // ---------------------------------------------------------------------------
  // extract_link_features

  /** The feature vector, in the order of the source's returned list. */
  function ExtractLinkFeatures(text: string): (r: seq<nat>)
    ensures |r| == 5
    ensures r[0] == |FindUrls(text)|
    ensures r[1] <= r[0] && r[2] <= r[0] && r[3] <= r[0]
    ensures r[1] == CountWhere(FindUrls(text), IsIpUrl)
    ensures r[2] == CountWhere(FindUrls(text), HasSuspiciousTld)
    ensures r[3] == CountWhere(FindUrls(text), IsShortener)
    ensures r[4] == VerifyUrgentFrom(text, 0)
    ensures r[4] <= SchemesFrom(text, 0)
  {
    var urls := FindUrls(text);
    VerifyUrgentBound(text, 0);
    var ip: nat, tld: nat, short: nat := CountWhere(urls, IsIpUrl), CountWhere(urls, HasSuspiciousTld), CountWhere(urls, IsShortener);
    var urgent: nat := VerifyUrgentFrom(text, 0);
    var count: nat := |urls|;
    [count, ip, tld, short, urgent]
  }

  /** A text in which a URL starts has a positive URL count. */
  lemma UrlCountPositive(text: string, p: nat)
    requires p < |text| && UrlStartsAt(text, p)
    ensures ExtractLinkFeatures(text)[0] > 0
  {
    UrlPresentFound(text, 0, p);
  }
}
