/**
 * The CSV-to-folder conversion of dataset.py: label normalisation, text
 * cleanup, file-name sanitisation, and the per-row loop of `main` that
 * filters rows, names each output file (message ID or a per-label counter)
 * and lays out its header lines and body.
 *
 * Reading the CSV and writing files are left out: the loop takes the rows
 * and returns the files it would write, in order.
 */
module Dataset {
  import opened Text
  import opened Maybe

  /** A dataframe cell: NaN, or a value whose `str()` is `text`. */
  datatype Cell = Missing | Given(text: string)

  datatype Label = Spam | Ham

  function LabelName(l: Label): string {
    match l
    case Spam => "spam"
    case Ham => "ham"
  }

  // ---------------------------------------------------------------------------
  // normalize_label

  const SpamSpellings: set<string> := {"spam", "1", "true", "yes"}
  const HamSpellings: set<string> := {"ham", "0", "false", "no", "not spam", "legit"}

  /** The result is only ever "spam", "ham" or None (the `Label` type has no other value). */
  function NormalizeLabel(val: Cell): (r: Option<Label>)
    ensures val.Missing? ==> r == None
  {
    match val
    case Missing => None
    case Given(text) =>
      var s := Lower(PyStrip(text));
      if s in SpamSpellings then Some(Spam)
      else if s in HamSpellings then Some(Ham)
      else None
  }

  /** Surrounding whitespace does not matter. */
  lemma NormalizeLabelIgnoresPadding(p: string, s: string, q: string)
    requires AllIn(p, IsPyWhitespace) && AllIn(q, IsPyWhitespace)
    ensures NormalizeLabel(Given(p + s + q)) == NormalizeLabel(Given(s))
  {
    StripPadding(p, s, q, IsPyWhitespace);
  }

  /** Letter case does not matter: spellings equal up to case normalise alike. */
  lemma NormalizeLabelIgnoresCase(a: string, b: string)
    requires Lower(a) == Lower(b)
    ensures NormalizeLabel(Given(a)) == NormalizeLabel(Given(b))
  {
    LowerStrip(a);
    LowerStrip(b);
  }

  /** The normalised names map back to themselves. */
  lemma NormalizeLabelIdempotent(l: Label)
    ensures NormalizeLabel(Given(LabelName(l))) == Some(l)
  {
    var s := LabelName(l);
    StripUnpadded(s, IsPyWhitespace);
    LowerOfLowercase(s);
  }

  /**
   * On a lower-case spelling without surrounding whitespace: spam exactly for
   * the four spam spellings, ham exactly for the six ham spellings, None otherwise.
   */
  lemma NormalizeLabelTable(s: string)
    requires NoneIn(s, IsAsciiUpper)
    requires s == [] || (!IsPyWhitespace(s[0]) && !IsPyWhitespace(s[|s| - 1]))
    ensures NormalizeLabel(Given(s)) == Some(Spam) <==> s in SpamSpellings
    ensures NormalizeLabel(Given(s)) == Some(Ham) <==> s in HamSpellings
    ensures NormalizeLabel(Given(s)) == None <==> s !in SpamSpellings && s !in HamSpellings
  {
    StripUnpadded(s, IsPyWhitespace);
    LowerOfLowercase(s);
    assert SpamSpellings !! HamSpellings;
  }

  // ---------------------------------------------------------------------------
  // clean_text

  /** `str.replace("\r\n", "\n")`, scanning left to right. */
  function ReplaceCrLf(s: string): (r: string)
    ensures |r| <= |s|
    ensures '\r' !in s ==> r == s
    decreases |s|
  {
    if |s| >= 2 && s[0] == '\r' && s[1] == '\n' then "\n" + ReplaceCrLf(s[2..])
    else if s == [] then []
    else
      assert '\r' !in s ==> '\r' !in s[1..] by {
        assert forall k :: 0 <= k < |s| - 1 ==> s[1..][k] == s[k + 1];
      }
      [s[0]] + ReplaceCrLf(s[1..])
  }

  /** A CRLF pair at the front becomes one newline. */
  lemma ReplaceCrLfPair(s: string)
    ensures ReplaceCrLf("\r\n" + s) == "\n" + ReplaceCrLf(s)
  {
    assert ("\r\n" + s)[2..] == s;
  }

  /** A first character that does not open a CRLF pair is copied unchanged. */
  lemma ReplaceCrLfHead(c: char, s: string)
    requires !(c == '\r' && s != [] && s[0] == '\n')
    ensures ReplaceCrLf([c] + s) == [c] + ReplaceCrLf(s)
  {
    assert ([c] + s)[1..] == s;
  }

  /** `str.replace("\r", "\n")`. */
  function ReplaceCr(s: string): (r: string)
    ensures |r| == |s|
    ensures forall k :: 0 <= k < |s| ==> r[k] == if s[k] == '\r' then '\n' else s[k]
  {
    seq(|s|, k requires 0 <= k < |s| => if s[k] == '\r' then '\n' else s[k])
  }

  /** The characters of `s` that `drop` does not hold for, in order. */
  function Without(s: string, drop: char -> bool): (r: string)
    ensures NoneIn(r, drop)
    ensures |r| <= |s|
  {
    if s == [] then [] else (if drop(s[0]) then [] else [s[0]]) + Without(s[1..], drop)
  }

  lemma {:induction false} WithoutAppend(a: string, b: string, drop: char -> bool)
    ensures Without(a + b, drop) == Without(a, drop) + Without(b, drop)
    decreases |a|
  {
    if a != [] {
      assert (a + b)[1..] == a[1..] + b;
      WithoutAppend(a[1..], b, drop);
    } else {
      assert a + b == b;
    }
  }

  lemma {:induction false} WithoutAll(s: string, drop: char -> bool)
    requires AllIn(s, drop)
    ensures Without(s, drop) == []
    decreases |s|
  {
    if s != [] { WithoutAll(s[1..], drop); }
  }

  /** `[^\S\n]`: whitespace other than a newline. */
  predicate IsBlank(c: char) { IsPyWhitespace(c) && c != '\n' }

  /** `re.sub(r"[^\S\n]+", " ", s)`: each maximal run of blanks becomes one space. */
  function CollapseBlanks(s: string): (r: string)
    ensures forall k :: 0 <= k < |r| && IsBlank(r[k]) ==> r[k] == ' '
    ensures forall k :: 0 <= k < |r| - 1 ==> !(IsBlank(r[k]) && IsBlank(r[k + 1]))
    ensures s != [] && !IsBlank(s[0]) ==> r != [] && r[0] == s[0]
    decreases |s|
  {
    if s == [] then []
    else if IsBlank(s[0]) then
      var t := TrimStart(s, IsBlank);
      " " + CollapseBlanks(t)
    else [s[0]] + CollapseBlanks(s[1..])
  }

  /** A maximal run of blanks before a non-blank character, or before the end, becomes exactly one space. */
  lemma BlankRunCollapses(run: string, s: string)
    requires run != [] && AllIn(run, IsBlank)
    requires s == [] || !IsBlank(s[0])
    ensures CollapseBlanks(run + s) == " " + CollapseBlanks(s)
  {
    assert (run + s)[0] == run[0];
    TrimStartPadding(run, s, IsBlank);
  }

  /** A non-blank character is copied, and the collapse goes on after it. */
  lemma CollapseKeepsHead(c: char, s: string)
    requires !IsBlank(c)
    ensures CollapseBlanks([c] + s) == [c] + CollapseBlanks(s)
  {
    assert ([c] + s)[1..] == s;
  }

  /** Collapsing keeps every non-blank character, newlines included, in order. */
  lemma {:induction false} CollapseKeepsNonBlank(s: string)
    ensures Without(CollapseBlanks(s), IsBlank) == Without(s, IsBlank)
    decreases |s|
  {
    if s != [] {
      if IsBlank(s[0]) {
        var t := TrimStart(s, IsBlank);
        CollapseKeepsNonBlank(t);
        WithoutAppend(" ", CollapseBlanks(t), IsBlank);
        var pre := s[..|s| - |t|];
        TrimStartSplit(s, IsBlank);
        WithoutAll(pre, IsBlank);
        WithoutAppend(pre, t, IsBlank);
      } else {
        CollapseKeepsNonBlank(s[1..]);
        WithoutAppend([s[0]], CollapseBlanks(s[1..]), IsBlank);
      }
    }
  }

  predicate IsZeroWidth(c: char) { c == '\U{200B}' || c == '\U{200C}' || c == '\U{200D}' }

  /** `re.sub(r"\u200b|\u200c|\u200d", "", s)`: drops the three zero-width characters. */
  function RemoveZeroWidth(s: string): (r: string)
    ensures NoneIn(r, IsZeroWidth)
    ensures forall c :: c in r ==> c in s
    ensures r == Without(s, IsZeroWidth)
  {
    if s == [] then []
    else if IsZeroWidth(s[0]) then RemoveZeroWidth(s[1..])
    else [s[0]] + RemoveZeroWidth(s[1..])
  }

  /** What may appear in a cleaned text: no zero-width character, and no whitespace but space and newline. */
  predicate IsCleanChar(c: char) {
    !IsZeroWidth(c) && (IsPyWhitespace(c) ==> c == ' ' || c == '\n')
  }

  function CleanText(val: Cell): (r: string)
    ensures AllIn(r, IsCleanChar)
    ensures r == [] || (!IsPyWhitespace(r[0]) && !IsPyWhitespace(r[|r| - 1]))
  {
    match val
    case Missing => []
    case Given(text) =>
      var t := ReplaceCr(ReplaceCrLf(text));
      var u := RemoveZeroWidth(CollapseBlanks(t));
      CleanCharsBeforeStrip(t);
      StripKeepsOnly(u, IsPyWhitespace, IsCleanChar);
      PyStrip(u)
  }

  lemma CleanCharsBeforeStrip(t: string)
    requires forall k :: 0 <= k < |t| ==> t[k] != '\r'
    ensures AllIn(RemoveZeroWidth(CollapseBlanks(t)), IsCleanChar)
  {
    var c := CollapseBlanks(t);
    var u := RemoveZeroWidth(c);
    forall k | 0 <= k < |u| ensures IsCleanChar(u[k]) {
      assert u[k] in u;
      var j :| 0 <= j < |c| && c[j] == u[k];
      assert IsBlank(c[j]) ==> c[j] == ' ';
    }
  }

  /** The characters cleanup must keep: everything but whitespace and zero-width characters. */
  predicate IsVisible(c: char) { !IsPyWhitespace(c) && !IsZeroWidth(c) }

  function Visible(s: string): string {
    if s == [] then [] else (if IsVisible(s[0]) then [s[0]] else []) + Visible(s[1..])
  }

  lemma {:induction false} VisibleAppend(a: string, b: string)
    ensures Visible(a + b) == Visible(a) + Visible(b)
    decreases |a|
  {
    if a != [] {
      assert (a + b)[1..] == a[1..] + b;
      VisibleAppend(a[1..], b);
    } else {
      assert a + b == b;
    }
  }

  lemma {:induction false} VisibleOfInvisible(s: string)
    requires NoneIn(s, IsVisible)
    ensures Visible(s) == []
    decreases |s|
  {
    if s != [] { VisibleOfInvisible(s[1..]); }
  }

  lemma {:induction false} VisibleReplaceCrLf(s: string)
    ensures Visible(ReplaceCrLf(s)) == Visible(s)
    decreases |s|
  {
    if |s| >= 2 && s[0] == '\r' && s[1] == '\n' {
      VisibleReplaceCrLf(s[2..]);
      VisibleAppend("\n", ReplaceCrLf(s[2..]));
      assert s == [s[0]] + ([s[1]] + s[2..]);
      VisibleAppend([s[0]], [s[1]] + s[2..]);
      VisibleAppend([s[1]], s[2..]);
    } else if s != [] {
      VisibleReplaceCrLf(s[1..]);
      VisibleAppend([s[0]], ReplaceCrLf(s[1..]));
    }
  }

  lemma {:induction false} VisibleReplaceCr(s: string)
    ensures Visible(ReplaceCr(s)) == Visible(s)
    decreases |s|
  {
    if s != [] {
      assert ReplaceCr(s)[1..] == ReplaceCr(s[1..]);
      VisibleReplaceCr(s[1..]);
    }
  }

  lemma {:induction false} VisibleCollapseBlanks(s: string)
    ensures Visible(CollapseBlanks(s)) == Visible(s)
    decreases |s|
  {
    if s != [] {
      if IsBlank(s[0]) {
        var t := TrimStart(s, IsBlank);
        VisibleCollapseBlanks(t);
        VisibleAppend(" ", CollapseBlanks(t));
        var pre := s[..|s| - |t|];
        TrimStartSplit(s, IsBlank);
        forall k | 0 <= k < |pre| ensures !IsVisible(pre[k]) { assert IsBlank(pre[k]); }
        VisibleOfInvisible(pre);
        VisibleAppend(pre, t);
      } else {
        VisibleCollapseBlanks(s[1..]);
        VisibleAppend([s[0]], CollapseBlanks(s[1..]));
      }
    }
  }

  lemma {:induction false} VisibleRemoveZeroWidth(s: string)
    ensures Visible(RemoveZeroWidth(s)) == Visible(s)
    decreases |s|
  {
    if s != [] {
      VisibleRemoveZeroWidth(s[1..]);
      if !IsZeroWidth(s[0]) { VisibleAppend([s[0]], RemoveZeroWidth(s[1..])); }
    }
  }

  lemma VisibleTrimStart(s: string)
    ensures Visible(TrimStart(s, IsPyWhitespace)) == Visible(s)
  {
    var t := TrimStart(s, IsPyWhitespace);
    var pre := s[..|s| - |t|];
    TrimStartSplit(s, IsPyWhitespace);
    VisibleAppend(pre, t);
    forall k | 0 <= k < |pre| ensures !IsVisible(pre[k]) { assert IsPyWhitespace(pre[k]); }
    VisibleOfInvisible(pre);
  }

  lemma VisibleTrimEnd(t: string)
    ensures Visible(TrimEnd(t, IsPyWhitespace)) == Visible(t)
  {
    var r := TrimEnd(t, IsPyWhitespace);
    var post := t[|r|..];
    TrimEndSplit(t, IsPyWhitespace);
    VisibleAppend(r, post);
    forall k | 0 <= k < |post| ensures !IsVisible(post[k]) { assert IsPyWhitespace(post[k]); }
    VisibleOfInvisible(post);
  }

  lemma VisibleStrip(s: string)
    ensures Visible(PyStrip(s)) == Visible(s)
  {
    VisibleTrimStart(s);
    VisibleTrimEnd(TrimStart(s, IsPyWhitespace));
  }

  /** Cleanup only touches whitespace and zero-width characters: every other character survives, in order. */
  lemma CleanTextKeepsVisible(text: string)
    ensures Visible(CleanText(Given(text))) == Visible(text)
  {
    var t := ReplaceCr(ReplaceCrLf(text));
    VisibleReplaceCrLf(text);
    VisibleReplaceCr(ReplaceCrLf(text));
    VisibleCollapseBlanks(t);
    VisibleRemoveZeroWidth(CollapseBlanks(t));
    VisibleStrip(RemoveZeroWidth(CollapseBlanks(t)));
  }

  // ---------------------------------------------------------------------------
  // sanitize_filename

  predicate IsSafeFileChar(c: char) {
    ('A' <= c <= 'Z') || ('a' <= c <= 'z') || ('0' <= c <= '9') || c == '_' || c == '.' || c == '-'
  }

  /** `re.sub(r"[^A-Za-z0-9_.-]", "_", name)`. */
  function SanitizeFilename(name: string): (r: string)
    ensures |r| == |name|
    ensures AllIn(r, IsSafeFileChar)
    ensures forall k :: 0 <= k < |name| ==> (r[k] == name[k] <==> IsSafeFileChar(name[k]) || name[k] == '_')
    ensures forall k :: 0 <= k < |name| ==> !IsSafeFileChar(name[k]) ==> r[k] == '_'
  {
    seq(|name|, k requires 0 <= k < |name| => if IsSafeFileChar(name[k]) then name[k] else '_')
  }

  /** Sanitising a sanitised name changes nothing. */
  lemma SanitizeFilenameIdempotent(name: string)
    ensures SanitizeFilename(SanitizeFilename(name)) == SanitizeFilename(name)
  {
  }

  /** A name made of safe characters is left alone. */
  lemma SanitizeFilenameKeepsSafe(name: string)
    requires AllIn(name, IsSafeFileChar)
    ensures SanitizeFilename(name) == name
  {
  }

  // ---------------------------------------------------------------------------
  // main: per-row preparation, filter, names and contents

  /** The optional columns present in the CSV. */
  datatype Columns = Columns(hasId: bool, hasDate: bool)

  datatype RawRow = RawRow(tag: Cell, subject: Cell, body: Cell, msgId: Cell, date: Cell)

  /** A row after the `__label__`, `__subject__`, `__body__`, `__msgid__` and `__date__` columns are computed. */
  datatype Row = Row(tag: Option<Label>, subject: string, body: string, msgId: string, date: string)

  /** `astype(str)`: pandas renders a missing value as "nan", so the later `fillna("")` never applies. */
  function AsStr(c: Cell): string {
    match c
    case Missing => "nan"
    case Given(text) => text
  }

  /** The derived columns as the script computes them, with `astype(str)` ahead of `fillna("")`. */
  function PrepareRowAsWritten(raw: RawRow, cols: Columns): (row: Row)
    ensures cols.hasId && raw.msgId.Missing? ==> row.msgId == "nan"
    ensures cols.hasDate && raw.date.Missing? ==> row.date == "nan"
  {
    StripUnpadded("nan", IsPyWhitespace);
    Row(NormalizeLabel(raw.tag), CleanText(raw.subject), CleanText(raw.body),
        if cols.hasId then PyStrip(AsStr(raw.msgId)) else "",
        if cols.hasDate then PyStrip(AsStr(raw.date)) else "")
  }

  /** A missing cell filled with "" before the string conversion, as `fillna("")` is evidently meant to do. */
  function FillStr(c: Cell): (r: string)
    ensures c.Missing? ==> r == []
    ensures c.Given? ==> r == c.text
  {
    match c
    case Missing => []
    case Given(text) => text
  }

  /**
   * The derived columns with missing IDs and dates filled with the empty
   * string: a row without an ID falls back to the counter and its Date line
   * is empty. Rows whose ID and date cells are present are prepared exactly
   * as the script does.
   */
  function PrepareRow(raw: RawRow, cols: Columns): (row: Row)
    ensures raw.msgId.Missing? ==> !UsesId(row, cols)
    ensures raw.date.Missing? ==> row.date == []
    ensures raw.msgId.Given? && raw.date.Given? ==> row == PrepareRowAsWritten(raw, cols)
  {
    StripEmptyIff([], IsPyWhitespace);
    Row(NormalizeLabel(raw.tag), CleanText(raw.subject), CleanText(raw.body),
        if cols.hasId then PyStrip(FillStr(raw.msgId)) else "",
        if cols.hasDate then PyStrip(FillStr(raw.date)) else "")
  }

  /** The two filters: a spam/ham label, and a non-empty cleaned subject or body. */
  predicate Keep(row: Row) {
    row.tag.Some? && (|row.subject| > 0 || |row.body| > 0)
  }

  /** The derived columns of every input row, before the filters. */
  function PreparedRows(raws: seq<RawRow>, cols: Columns): (rows: seq<Row>)
    ensures |rows| == |raws|
  {
    if raws == [] then [] else [PrepareRow(raws[0], cols)] + PreparedRows(raws[1..], cols)
  }

  lemma {:induction false} PreparedRowsAt(raws: seq<RawRow>, cols: Columns, i: nat)
    requires i < |raws|
    ensures PreparedRows(raws, cols)[i] == PrepareRow(raws[i], cols)
    decreases i
  {
    if i > 0 {
      assert raws[1..][i - 1] == raws[i];
      PreparedRowsAt(raws[1..], cols, i - 1);
    }
  }

  function KeptRows(raws: seq<RawRow>, cols: Columns): (rows: seq<Row>)
    ensures forall j :: 0 <= j < |rows| ==> Keep(rows[j])
    ensures forall j :: 0 <= j < |rows| ==> rows[j] in PreparedRows(raws, cols)
    ensures |rows| <= |raws|
  {
    if raws == [] then []
    else
      var row := PrepareRow(raws[0], cols);
      var head := if Keep(row) then [row] else [];
      var rest := KeptRows(raws[1..], cols);
      assert PreparedRows(raws, cols) == [row] + PreparedRows(raws[1..], cols);
      assert forall j :: 0 <= j < |head + rest| ==> (head + rest)[j] in head || (head + rest)[j] in rest;
      head + rest
  }

  /** Each kept row is the prepared form of some input row. */
  lemma KeptRowsFromInput(raws: seq<RawRow>, cols: Columns, j: nat) returns (i: nat)
    requires j < |KeptRows(raws, cols)|
    ensures i < |raws| && KeptRows(raws, cols)[j] == PrepareRow(raws[i], cols)
  {
    var rows := PreparedRows(raws, cols);
    i :| 0 <= i < |rows| && rows[i] == KeptRows(raws, cols)[j];
    PreparedRowsAt(raws, cols, i);
  }

  /** One input row gives its prepared row when it passes both filters, and nothing otherwise. */
  lemma KeptRowsOne(raw: RawRow, cols: Columns)
    ensures KeptRows([raw], cols) == if Keep(PrepareRow(raw, cols)) then [PrepareRow(raw, cols)] else []
  {
    assert [raw][1..] == [];
  }

  /** One step of the filter over `a + b`: the first row of `a`, when it passes, then the rest. */
  lemma KeptRowsStep(a: seq<RawRow>, b: seq<RawRow>, cols: Columns)
    requires a != []
    ensures KeptRows(a + b, cols) == KeptRows([a[0]], cols) + KeptRows(a[1..] + b, cols)
  {
    assert (a + b)[0] == a[0];
    assert (a + b)[1..] == a[1..] + b;
    KeptRowsOne(a[0], cols);
  }

  lemma KeptRowsSplit(a: seq<RawRow>, cols: Columns)
    requires a != []
    ensures KeptRows(a, cols) == KeptRows([a[0]], cols) + KeptRows(a[1..], cols)
  {
    KeptRowsOne(a[0], cols);
  }

  lemma ConcatAssoc<T>(x: seq<T>, y: seq<T>, z: seq<T>)
    ensures (x + y) + z == x + (y + z)
  {
  }

  /** The filter works row by row, so the kept rows stay in input order. */
  lemma {:induction false} KeptRowsAppend(a: seq<RawRow>, b: seq<RawRow>, cols: Columns)
    ensures KeptRows(a + b, cols) == KeptRows(a, cols) + KeptRows(b, cols)
    decreases |a|
  {
    if a == [] {
      assert a + b == b;
    } else {
      KeptRowsStep(a, b, cols);
      KeptRowsSplit(a, cols);
      KeptRowsAppend(a[1..], b, cols);
      ConcatAssoc(KeptRows([a[0]], cols), KeptRows(a[1..], cols), KeptRows(b, cols));
    }
  }

  /** Every row that passes both filters is kept. */
  lemma {:induction false} KeptRowsKeeps(raws: seq<RawRow>, cols: Columns, i: nat)
    requires i < |raws| && Keep(PrepareRow(raws[i], cols))
    ensures PrepareRow(raws[i], cols) in KeptRows(raws, cols)
    decreases i
  {
    var row := PrepareRow(raws[0], cols);
    var head := if Keep(row) then [row] else [];
    assert KeptRows(raws, cols) == head + KeptRows(raws[1..], cols);
    if i == 0 {
      assert KeptRows(raws, cols)[0] == row;
    } else {
      assert raws[1..][i - 1] == raws[i];
      KeptRowsKeeps(raws[1..], cols, i - 1);
    }
  }

  /** A row is named after its message ID when the column exists and the ID is non-empty. */
  predicate UsesId(row: Row, cols: Columns) { cols.hasId && row.msgId != [] }

  predicate IsFallback(row: Row, l: Label, cols: Columns) {
    row.tag == Some(l) && !UsesId(row, cols)
  }

  /** How many rows of `rows` with label `l` take a counter-based name. */
  function FallbackCount(rows: seq<Row>, l: Label, cols: Columns): nat {
    if rows == [] then 0
    else FallbackCount(rows[..|rows| - 1], l, cols) + if IsFallback(rows[|rows| - 1], l, cols) then 1 else 0
  }

  function IdName(l: Label, msgId: string): string {
    SanitizeFilename(LabelName(l) + "_" + msgId + ".txt")
  }

  /** An ID made of safe characters names its file verbatim: `<label>_<id>.txt`. */
  lemma IdNameOfSafeId(l: Label, msgId: string)
    requires AllIn(msgId, IsSafeFileChar)
    ensures IdName(l, msgId) == LabelName(l) + "_" + msgId + ".txt"
  {
    var name := LabelName(l) + "_" + msgId + ".txt";
    forall k | 0 <= k < |name| ensures IsSafeFileChar(name[k]) {
      if k < |LabelName(l)| + 1 {
        assert name[k] == (LabelName(l) + "_")[k];
      } else if k < |LabelName(l)| + 1 + |msgId| {
        assert name[k] == msgId[k - |LabelName(l)| - 1];
      } else {
        assert name[k] == ".txt"[k - |LabelName(l)| - 1 - |msgId|];
      }
    }
    SanitizeFilenameKeepsSafe(name);
  }

  function CounterName(l: Label, n: nat): string {
    LabelName(l) + "_" + ZeroPad(n, 6) + ".txt"
  }

  /** The header lines of one row joined by newlines: subject, label, then the optional date and ID. */
  function Header(row: Row, l: Label, cols: Columns): string {
    var base := ("Subject: " + row.subject) + "\n" + ("Label: " + LabelName(l));
    var withDate := if cols.hasDate then base + "\n" + ("Date: " + row.date) else base;
    if cols.hasId then withDate + "\n" + ("Message-ID: " + row.msgId) else withDate
  }

  /** The text written for one row: the header lines, an empty line, then the body. */
  function Layout(row: Row, l: Label, cols: Columns): string {
    Header(row, l, cols) + "\n\n" + row.body
  }

  datatype OutputFile = OutputFile(folder: Label, name: string, content: string)

  /** The file name of kept row `j`: its sanitised ID, or the running counter of its label. */
  function NameFor(rows: seq<Row>, j: nat, cols: Columns): string
    requires j < |rows| && rows[j].tag.Some?
  {
    var l := rows[j].tag.value;
    if UsesId(rows[j], cols) then IdName(l, rows[j].msgId) else CounterName(l, FallbackCount(rows[..j + 1], l, cols))
  }

  function FileFor(rows: seq<Row>, j: nat, cols: Columns): OutputFile
    requires j < |rows| && rows[j].tag.Some?
  {
    OutputFile(rows[j].tag.value, NameFor(rows, j, cols), Layout(rows[j], rows[j].tag.value, cols))
  }

  /** The files written for the first `n` kept rows, in row order. */
  function FilesUpTo(rows: seq<Row>, n: nat, cols: Columns): (r: seq<OutputFile>)
    requires n <= |rows| && forall j :: 0 <= j < |rows| ==> rows[j].tag.Some?
    ensures |r| == n
  {
    if n == 0 then [] else FilesUpTo(rows, n - 1, cols) + [FileFor(rows, n - 1, cols)]
  }

  /** The `j`-th file written is the one for the `j`-th kept row. */
  lemma {:induction false} FilesUpToAt(rows: seq<Row>, n: nat, cols: Columns, j: nat)
    requires n <= |rows| && forall k :: 0 <= k < |rows| ==> rows[k].tag.Some?
    requires j < n
    ensures FilesUpTo(rows, n, cols)[j] == FileFor(rows, j, cols)
  {
    if j < n - 1 {
      FilesUpToAt(rows, n - 1, cols, j);
    }
  }

  /** Every file the conversion writes, one per kept row. */
  function ExpectedFiles(raws: seq<RawRow>, cols: Columns): seq<OutputFile> {
    var rows := KeptRows(raws, cols);
    FilesUpTo(rows, |rows|, cols)
  }

  /** Builds the `lines` list by appends and joins it with newlines. */
  method ComposeContent(row: Row, l: Label, cols: Columns) returns (content: string)
    ensures content == Layout(row, l, cols)
  {
    var lines: seq<string> := [];
    lines := lines + ["Subject: " + row.subject];
    JoinSnoc("\n", lines, "Label: " + LabelName(l));
    lines := lines + ["Label: " + LabelName(l)];
    ghost var header := ("Subject: " + row.subject) + "\n" + ("Label: " + LabelName(l));
    assert Join("\n", lines) == header;
    if cols.hasDate {
      JoinSnoc("\n", lines, "Date: " + row.date);
      lines := lines + ["Date: " + row.date];
      header := header + "\n" + ("Date: " + row.date);
    }
    if cols.hasId {
      JoinSnoc("\n", lines, "Message-ID: " + row.msgId);
      lines := lines + ["Message-ID: " + row.msgId];
      header := header + "\n" + ("Message-ID: " + row.msgId);
    }
    assert header == Header(row, l, cols);
    JoinSnoc("\n", lines, "");
    lines := lines + [""];
    JoinSnoc("\n", lines, row.body);
    lines := lines + [row.body];
    content := Join("\n", lines);
    assert header + "\n" + "" == header + "\n";
    assert content == header + "\n" + "\n" + row.body;
    assert header + "\n" + "\n" == header + "\n\n";
  }

  /**
   * The naming rule for one row of label `lab`: a row with an ID is named after it and leaves the
   * counters alone; any other row bumps its label's counter and is named after the new value.
   */
  predicate NamedAs(row: Row, lab: Label, cols: Columns, before: map<Label, nat>, after: map<Label, nat>, fname: string)
    requires lab in before
  {
    && (UsesId(row, cols) ==> fname == IdName(lab, row.msgId) && after == before)
    && (!UsesId(row, cols) ==> after == before[lab := before[lab] + 1] && fname == CounterName(lab, after[lab]))
  }

  /** The naming branch of the row loop. */
  method NameRow(row: Row, lab: Label, cols: Columns, counters: map<Label, nat>) returns (fname: string, next: map<Label, nat>)
    requires Ham in counters && Spam in counters
    ensures lab in counters && NamedAs(row, lab, cols, counters, next, fname)
  {
    next := counters;
    if cols.hasId && row.msgId != [] {
      fname := SanitizeFilename(LabelName(lab) + "_" + row.msgId + ".txt");
    } else {
      assert lab == Ham || lab == Spam;
      next := next[lab := next[lab] + 1];
      fname := LabelName(lab) + "_" + ZeroPad(next[lab], 6) + ".txt";
    }
  }

  /** One turn of the row loop: name the kept row `i`, bump its counter if needed, and lay out its text. */
  method RowFile(rows: seq<Row>, i: nat, cols: Columns, counters: map<Label, nat>) returns (file: OutputFile, next: map<Label, nat>)
    requires i < |rows| && rows[i].tag.Some?
    requires Ham in counters && counters[Ham] == FallbackCount(rows[..i], Ham, cols)
    requires Spam in counters && counters[Spam] == FallbackCount(rows[..i], Spam, cols)
    ensures file == FileFor(rows, i, cols)
    ensures Ham in next && next[Ham] == FallbackCount(rows[..i + 1], Ham, cols)
    ensures Spam in next && next[Spam] == FallbackCount(rows[..i + 1], Spam, cols)
  {
    var row := rows[i];
    var lab := row.tag.value;
    var fname;
    fname, next := NameRow(row, lab, cols, counters);
    NamingStep(rows, i, cols, counters, next, fname);
    var content := ComposeContent(row, lab, cols);
    file := OutputFile(lab, fname, content);
  }

  /** The row loop of `main`, with its `counters` dictionary. */
  method Convert(raws: seq<RawRow>, cols: Columns) returns (files: seq<OutputFile>)
    ensures files == ExpectedFiles(raws, cols)
  {
    var rows := KeptRows(raws, cols);
    files := WriteRows(rows, cols);
  }

  /** The `for` loop of `main` over the kept rows, with the two counters starting at zero. */
  method WriteRows(rows: seq<Row>, cols: Columns) returns (files: seq<OutputFile>)
    requires forall j :: 0 <= j < |rows| ==> rows[j].tag.Some?
    ensures files == FilesUpTo(rows, |rows|, cols)
  {
    var counters: map<Label, nat> := map[Ham := 0, Spam := 0];
    files := [];
    for i := 0 to |rows|
      invariant files == FilesUpTo(rows, i, cols)
      invariant Ham in counters && counters[Ham] == FallbackCount(rows[..i], Ham, cols)
      invariant Spam in counters && counters[Spam] == FallbackCount(rows[..i], Spam, cols)
    {
      var file;
      file, counters := RowFile(rows, i, cols, counters);
      files := files + [file];
    }
  }


  /** The `j`-th file written belongs to the `j`-th kept row: its label's folder, its name and its layout. */
  lemma ExpectedFileAt(raws: seq<RawRow>, cols: Columns, j: nat)
    requires j < |KeptRows(raws, cols)|
    ensures var rows, files := KeptRows(raws, cols), ExpectedFiles(raws, cols);
      && |files| == |rows|
      && files[j] == OutputFile(rows[j].tag.value, NameFor(rows, j, cols), Layout(rows[j], rows[j].tag.value, cols))
  {
    var rows := KeptRows(raws, cols);
    FilesUpToAt(rows, |rows|, cols, j);
  }

  /** Two counter-named files of one label go to the same folder under different names: neither overwrites the other. */
  lemma CounterFilesDistinct(raws: seq<RawRow>, cols: Columns, i: nat, j: nat)
    requires i < j < |KeptRows(raws, cols)|
    requires var rows := KeptRows(raws, cols);
      rows[i].tag == rows[j].tag && !UsesId(rows[i], cols) && !UsesId(rows[j], cols)
    ensures var files := ExpectedFiles(raws, cols);
      files[i].folder == files[j].folder && files[i].name != files[j].name
  {
    ExpectedFileAt(raws, cols, i);
    ExpectedFileAt(raws, cols, j);
    CounterNamesDistinct(KeptRows(raws, cols), cols, i, j);
  }

  /** The header opens with the subject line and the label line, whatever optional lines follow. */
  lemma HeaderOpens(row: Row, l: Label, cols: Columns)
    ensures var h, first := Header(row, l, cols), "Subject: " + row.subject + "\n" + "Label: " + LabelName(l);
      |first| <= |h| && h[..|first|] == first
  {
    var first := "Subject: " + row.subject + "\n" + "Label: " + LabelName(l);
    var withDate := if cols.hasDate then first + "\n" + ("Date: " + row.date) else first;
    assert withDate[..|first|] == first;
    assert Header(row, l, cols)[..|withDate|] == withDate;
  }

  /** A file starts with its subject and label lines, and after the header and one empty line holds the body unchanged. */
  lemma LayoutBody(row: Row, l: Label, cols: Columns)
    ensures var h, c := Header(row, l, cols), Layout(row, l, cols);
      var first := "Subject: " + row.subject + "\n" + "Label: " + LabelName(l);
      && |first| <= |h| && c[..|first|] == first
      && c[..|h|] == h && c[|h|..|h| + 2] == "\n\n" && c[|h| + 2..] == row.body
  {
    var h, c := Header(row, l, cols), Layout(row, l, cols);
    HeaderOpens(row, l, cols);
    var first := "Subject: " + row.subject + "\n" + "Label: " + LabelName(l);
    assert c == h + "\n\n" + row.body;
    assert c[..|h|] == h;
    assert c[..|first|] == h[..|first|];
  }

  // ---------------------------------------------------------------------------
  // properties of the naming scheme

  /** One turn of the row loop keeps both counters equal to the number of counter-named rows so far. */
  lemma NamingStep(rows: seq<Row>, i: nat, cols: Columns, before: map<Label, nat>, after: map<Label, nat>, fname: string)
    requires i < |rows| && rows[i].tag.Some?
    requires Ham in before && before[Ham] == FallbackCount(rows[..i], Ham, cols)
    requires Spam in before && before[Spam] == FallbackCount(rows[..i], Spam, cols)
    requires rows[i].tag.value in before && NamedAs(rows[i], rows[i].tag.value, cols, before, after, fname)
    ensures Ham in after && after[Ham] == FallbackCount(rows[..i + 1], Ham, cols)
    ensures Spam in after && after[Spam] == FallbackCount(rows[..i + 1], Spam, cols)
    ensures fname == NameFor(rows, i, cols)
  {
    FallbackCountStep(rows, Ham, cols, i);
    FallbackCountStep(rows, Spam, cols, i);
  }

  lemma {:induction false} FallbackCountPrefix(rows: seq<Row>, l: Label, cols: Columns, i: nat, j: nat)
    requires i <= j <= |rows|
    ensures FallbackCount(rows[..i], l, cols) <= FallbackCount(rows[..j], l, cols)
    ensures i < j && IsFallback(rows[j - 1], l, cols) ==> FallbackCount(rows[..i], l, cols) < FallbackCount(rows[..j], l, cols)
    decreases j - i
  {
    if i < j {
      assert rows[..j][..j - 1] == rows[..j - 1];
      FallbackCountPrefix(rows, l, cols, i, j - 1);
    }
  }

  /** Counter names of one label never repeat: the counter grows with every counter-named row of that label. */
  lemma CounterNamesDistinct(rows: seq<Row>, cols: Columns, i: nat, j: nat)
    requires i < j < |rows| && rows[i].tag.Some? && rows[i].tag == rows[j].tag
    requires !UsesId(rows[i], cols) && !UsesId(rows[j], cols)
    ensures NameFor(rows, i, cols) != NameFor(rows, j, cols)
  {
    var l := rows[i].tag.value;
    FallbackCountPrefix(rows, l, cols, i + 1, j + 1);
    var m := FallbackCount(rows[..i + 1], l, cols);
    var n := FallbackCount(rows[..j + 1], l, cols);
    if CounterName(l, m) == CounterName(l, n) { CounterNameInjective(l, m, n); }
  }

  lemma CounterNameInjective(l: Label, m: nat, n: nat)
    requires CounterName(l, m) == CounterName(l, n)
    ensures m == n
  {
    var p := LabelName(l) + "_";
    var a, b := ZeroPad(m, 6), ZeroPad(n, 6);
    assert CounterName(l, m) == p + (a + ".txt");
    assert CounterName(l, n) == p + (b + ".txt");
    assert a + ".txt" == (p + (a + ".txt"))[|p|..];
    assert b + ".txt" == (p + (b + ".txt"))[|p|..];
    SuffixCancel(a, b, ".txt");
    ZeroPadInjective(m, n, 6);
  }

  lemma SuffixCancel(a: string, b: string, t: string)
    requires a + t == b + t
    ensures a == b
  {
    assert |a| == |b|;
    assert a == (a + t)[..|a|] && b == (b + t)[..|b|];
  }

  /** The counter is bumped only for counter-named rows, and separately for each label. */
  lemma FallbackCountStep(rows: seq<Row>, l: Label, cols: Columns, i: nat)
    requires i < |rows|
    ensures FallbackCount(rows[..i + 1], l, cols)
            == FallbackCount(rows[..i], l, cols) + (if rows[i].tag == Some(l) && !UsesId(rows[i], cols) then 1 else 0)
  {
    assert rows[..i + 1][..i] == rows[..i];
  }

  /** As written, a row whose Message ID cell is empty is named `<label>_nan.txt`, so two such rows of one label collide. */
  lemma MissingIdsCollide(rows: seq<Row>, cols: Columns, i: nat, j: nat, a: RawRow, b: RawRow)
    requires i < |rows| && j < |rows| && i != j && rows[i] == PrepareRowAsWritten(a, cols) && rows[j] == PrepareRowAsWritten(b, cols)
    requires cols.hasId && a.msgId == Missing && b.msgId == Missing
    requires rows[i].tag.Some? && rows[i].tag == rows[j].tag
    ensures NameFor(rows, i, cols) == NameFor(rows, j, cols) == IdName(rows[i].tag.value, "nan")
  {
    StripUnpadded("nan", IsPyWhitespace);
  }

  /** With the fill applied first, two rows of one label without an ID take distinct counter names. */
  lemma MissingIdsDistinct(rows: seq<Row>, cols: Columns, i: nat, j: nat, a: RawRow, b: RawRow)
    requires i < j < |rows| && rows[i] == PrepareRow(a, cols) && rows[j] == PrepareRow(b, cols)
    requires a.msgId == Missing && b.msgId == Missing
    requires rows[i].tag.Some? && rows[i].tag == rows[j].tag
    ensures NameFor(rows, i, cols) != NameFor(rows, j, cols)
  {
    CounterNamesDistinct(rows, cols, i, j);
  }
}
