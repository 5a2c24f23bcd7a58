/**
 * The parts of the Enron training script that are not numerics inside
 * scikit-learn: reading one email into "subject, newline, body", loading the
 * two labelled folders into three parallel lists, naming the feature
 * columns, and picking the 15 heaviest weights on each side.
 */
module Training {
  import opened Text
  import opened Maybe
  import TextFeatures

  // ---------------------------------------------------------------------------
  // parse_email

  /** One part of a message as `msg.walk()` yields it: its content type and decoded content. */
  datatype Part = Part(ctype: string, content: string)

  /**
   * A parsed message: a multipart message with its parts in walk order (the
   * containers included), or a single-part one.
   */
  datatype Message =
    | Multipart(subject: Option<string>, parts: seq<Part>)
    | Single(subject: Option<string>, ctype: string, content: string)

  /** `msg['subject'] or ''`. */
  function SubjectText(subject: Option<string>): (r: string)
    ensures subject.None? ==> r == []
    ensures subject.Some? ==> r == subject.value
  {
    match subject
    case None => []
    case Some(s) => s
  }

  /** One turn of the part loop: plain text is appended, HTML only while the body is still empty. */
  function AddPart(body: string, part: Part, htmlText: string -> string): string {
    if part.ctype == "text/plain" then body + part.content
    else if part.ctype == "text/html" && body == [] then body + htmlText(part.content)
    else body
  }

  /** The body once the loop has seen `parts`. */
  function BodyOf(parts: seq<Part>, htmlText: string -> string): string
    decreases |parts|
  {
    if parts == [] then [] else AddPart(BodyOf(parts[..|parts| - 1], htmlText), parts[|parts| - 1], htmlText)
  }

  /** The text `parse_email` returns for a message; `htmlText` stands for BeautifulSoup's `get_text`. */
  function ParsedText(msg: Message, htmlText: string -> string): string {
    var body :=
      match msg
      case Multipart(_, parts) => BodyOf(parts, htmlText)
      case Single(_, ctype, content) => if ctype == "text/html" then htmlText(content) else content;
    SubjectText(msg.subject) + "\n" + body
  }

  method ParseEmail(msg: Message, htmlText: string -> string) returns (text: string)
    ensures text == ParsedText(msg, htmlText)
  {
    var subject := if msg.subject.Some? then msg.subject.value else "";
    var body := "";
    if msg.Multipart? {
      for i := 0 to |msg.parts|
        invariant body == BodyOf(msg.parts[..i], htmlText)
      {
        assert msg.parts[..i + 1][..i] == msg.parts[..i];
        var part := msg.parts[i];
        if part.ctype == "text/plain" {
          body := body + part.content;
        } else if part.ctype == "text/html" && body == [] {
          body := body + htmlText(part.content);
        }
      }
      assert msg.parts[..|msg.parts|] == msg.parts;
    } else if msg.ctype == "text/html" {
      body := htmlText(msg.content);
    } else {
      body := msg.content;
    }
    text := subject + "\n" + body;
  }

  /** The text/plain contents of `parts`, concatenated in walk order. */
  function PlainText(parts: seq<Part>): string
    decreases |parts|
  {
    if parts == [] then []
    else
      var last := parts[|parts| - 1];
      PlainText(parts[..|parts| - 1]) + (if last.ctype == "text/plain" then last.content else [])
  }

  /** Without HTML parts the body is the plain-text parts appended in walk order. */
  lemma {:induction false} BodyWithoutHtml(parts: seq<Part>, htmlText: string -> string)
    requires forall k :: 0 <= k < |parts| ==> parts[k].ctype != "text/html"
    ensures BodyOf(parts, htmlText) == PlainText(parts)
    decreases |parts|
  {
    if parts != [] {
      BodyWithoutHtml(parts[..|parts| - 1], htmlText);
    }
  }

  /** Once the body is non-empty, HTML parts add nothing: only plain-text parts are still appended. */
  lemma {:induction false} HtmlIgnoredOnceBodyNonEmpty(a: seq<Part>, b: seq<Part>, htmlText: string -> string)
    requires BodyOf(a, htmlText) != []
    ensures BodyOf(a + b, htmlText) == BodyOf(a, htmlText) + PlainText(b)
    decreases |b|
  {
    if b == [] {
      assert a + b == a;
    } else {
      var init, last := b[..|b| - 1], b[|b| - 1];
      assert (a + b)[..|a + b| - 1] == a + init;
      assert (a + b)[|a + b| - 1] == last;
      HtmlIgnoredOnceBodyNonEmpty(a, init, htmlText);
      var prev := BodyOf(a + init, htmlText);
      assert prev != [];
      assert BodyOf(a + b, htmlText) == AddPart(prev, last, htmlText);
      assert PlainText(b) == PlainText(init) + (if last.ctype == "text/plain" then last.content else []);
    }
  }

  /** While the body is empty, the first HTML part supplies it. */
  lemma HtmlFillsEmptyBody(a: seq<Part>, content: string, htmlText: string -> string)
    requires BodyOf(a, htmlText) == []
    ensures BodyOf(a + [Part("text/html", content)], htmlText) == htmlText(content)
  {
    assert (a + [Part("text/html", content)])[..|a|] == a;
  }

  // ---------------------------------------------------------------------------
  // load_dataset

  /** A `.txt` file of a folder: a message, or a file whose parsing raises. */
  datatype EmailFile = Readable(msg: Message) | Unreadable

  /** The parsed texts of the files that parse, in folder order. */
  function Raws(files: seq<EmailFile>, htmlText: string -> string): seq<string>
    decreases |files|
  {
    if files == [] then []
    else
      var last := files[|files| - 1];
      Raws(files[..|files| - 1], htmlText) + (if last.Readable? then [ParsedText(last.msg, htmlText)] else [])
  }

  function CountReadable(files: seq<EmailFile>): nat
    decreases |files|
  {
    if files == [] then 0 else CountReadable(files[..|files| - 1]) + (if files[|files| - 1].Readable? then 1 else 0)
  }

  /** Exactly the readable files contribute; a file whose parsing raises adds nothing. */
  lemma {:induction false} RawsCount(files: seq<EmailFile>, htmlText: string -> string)
    ensures |Raws(files, htmlText)| == CountReadable(files)
    decreases |files|
  {
    if files != [] { RawsCount(files[..|files| - 1], htmlText); }
  }

  /** `f` applied to every parsed text, in order. */
  function MapAll<T>(raws: seq<string>, f: string -> T): (r: seq<T>)
    ensures |r| == |raws|
    decreases |raws|
  {
    if raws == [] then [] else MapAll(raws[..|raws| - 1], f) + [f(raws[|raws| - 1])]
  }

  lemma {:induction false} MapAllAt<T>(raws: seq<string>, f: string -> T, k: nat)
    requires k < |raws|
    ensures MapAll(raws, f)[k] == f(raws[k])
    decreases |raws|
  {
    if k < |raws| - 1 {
      MapAllAt(raws[..|raws| - 1], f, k);
    }
  }

  /** Entry `k` of the mapped ham list followed by the mapped spam list belongs to the `k`-th text of both. */
  lemma MapAllConcatAt<T>(h: seq<string>, s: seq<string>, f: string -> T, k: nat)
    requires k < |h| + |s|
    ensures |MapAll(h, f) + MapAll(s, f)| == |h + s|
    ensures (MapAll(h, f) + MapAll(s, f))[k] == f((h + s)[k])
  {
    if k < |h| {
      MapAllAt(h, f, k);
      assert (h + s)[k] == h[k];
    } else {
      MapAllAt(s, f, k - |h|);
      assert (h + s)[k] == s[k - |h|];
    }
  }

  lemma MapAllSnoc<T>(raws: seq<string>, raw: string, f: string -> T)
    ensures MapAll(raws + [raw], f) == MapAll(raws, f) + [f(raw)]
  {
    assert (raws + [raw])[..|raws|] == raws;
  }

  /** `clean_text` of every parsed text. */
  function CleanAll(raws: seq<string>, stop: set<string>, stem: string -> string): seq<string> {
    MapAll(raws, x => TextFeatures.CleanText(x, stop, stem))
  }

  /** `extract_link_features` of every parsed text. */
  function LinksAll(raws: seq<string>): seq<seq<nat>> {
    MapAll(raws, TextFeatures.ExtractLinkFeatures)
  }

  function Repeat(n: nat, lab: nat): (r: seq<nat>)
    ensures |r| == n && forall k :: 0 <= k < n ==> r[k] == lab
  {
    seq(n, _ => lab)
  }

  /** One more file of a folder adds its parsed text, or nothing when it does not parse. */
  lemma RawsStep(files: seq<EmailFile>, j: nat, htmlText: string -> string)
    requires j < |files|
    ensures files[j].Unreadable? ==> Raws(files[..j + 1], htmlText) == Raws(files[..j], htmlText)
    ensures files[j].Readable? ==>
              Raws(files[..j + 1], htmlText) == Raws(files[..j], htmlText) + [ParsedText(files[j].msg, htmlText)]
  {
    assert files[..j + 1][..j] == files[..j];
  }

  lemma RepeatSnoc(n: nat, lab: nat)
    ensures Repeat(n + 1, lab) == Repeat(n, lab) + [lab]
  {
  }

  /** The body of the inner loop: parse one file and append its three entries when it parses. */
  method LoadFile(files: seq<EmailFile>, j: nat, lab: nat, stop: set<string>, stem: string -> string,
                  htmlText: string -> string, texts: seq<string>, linkFeats: seq<seq<nat>>, labels: seq<nat>)
    returns (texts': seq<string>, linkFeats': seq<seq<nat>>, labels': seq<nat>)
    requires j < |files|
    requires var raws := Raws(files[..j], htmlText);
      texts == CleanAll(raws, stop, stem) && linkFeats == LinksAll(raws) && labels == Repeat(|raws|, lab)
    ensures var raws := Raws(files[..j + 1], htmlText);
      texts' == CleanAll(raws, stop, stem) && linkFeats' == LinksAll(raws) && labels' == Repeat(|raws|, lab)
  {
    RawsStep(files, j, htmlText);
    texts', linkFeats', labels' := texts, linkFeats, labels;
    if files[j].Readable? {
      var rawEmail := ParseEmail(files[j].msg, htmlText);
      var cleaned := TextFeatures.CleanText(rawEmail, stop, stem);
      var features := TextFeatures.ExtractLinkFeatures(rawEmail);
      ghost var raws := Raws(files[..j], htmlText);
      MapAllSnoc(raws, rawEmail, x => TextFeatures.CleanText(x, stop, stem));
      MapAllSnoc(raws, rawEmail, TextFeatures.ExtractLinkFeatures);
      RepeatSnoc(|raws|, lab);
      texts' := texts + [cleaned];
      linkFeats' := linkFeats + [features];
      labels' := labels + [lab];
    }
  }

  /** The inner loop of `load_dataset` over the files of one folder. */
  method LoadFolder(files: seq<EmailFile>, lab: nat, stop: set<string>, stem: string -> string,
                    htmlText: string -> string)
    returns (texts: seq<string>, linkFeats: seq<seq<nat>>, labels: seq<nat>)
    ensures var raws := Raws(files, htmlText);
      && texts == CleanAll(raws, stop, stem) && linkFeats == LinksAll(raws) && labels == Repeat(|raws|, lab)
  {
    texts, linkFeats, labels := [], [], [];
    for j := 0 to |files|
      invariant texts == CleanAll(Raws(files[..j], htmlText), stop, stem)
      invariant linkFeats == LinksAll(Raws(files[..j], htmlText))
      invariant labels == Repeat(|Raws(files[..j], htmlText)|, lab)
    {
      texts, linkFeats, labels := LoadFile(files, j, lab, stop, stem, htmlText, texts, linkFeats, labels);
    }
    assert files[..|files|] == files;
  }

  /** The three lists after the first `n` folders, folder `k` carrying label `k`. */
  function TextsUpTo(folders: seq<seq<EmailFile>>, n: nat, stop: set<string>, stem: string -> string,
                     htmlText: string -> string): seq<string>
    requires n <= |folders|
  {
    if n == 0 then [] else TextsUpTo(folders, n - 1, stop, stem, htmlText) + CleanAll(Raws(folders[n - 1], htmlText), stop, stem)
  }

  function LinksUpTo(folders: seq<seq<EmailFile>>, n: nat, htmlText: string -> string): seq<seq<nat>>
    requires n <= |folders|
  {
    if n == 0 then [] else LinksUpTo(folders, n - 1, htmlText) + LinksAll(Raws(folders[n - 1], htmlText))
  }

  function LabelsUpTo(folders: seq<seq<EmailFile>>, n: nat, htmlText: string -> string): seq<nat>
    requires n <= |folders|
  {
    if n == 0 then [] else LabelsUpTo(folders, n - 1, htmlText) + Repeat(|Raws(folders[n - 1], htmlText)|, n - 1)
  }

  /**
   * `load_dataset`: the ham folder with label 0, then the spam folder with
   * label 1; every file that parses adds its cleaned text, its link features
   * and its label.
   */
  method LoadDataset(ham: seq<EmailFile>, spam: seq<EmailFile>, stop: set<string>, stem: string -> string,
                     htmlText: string -> string)
    returns (texts: seq<string>, linkFeats: seq<seq<nat>>, labels: seq<nat>)
    ensures var h, s := Raws(ham, htmlText), Raws(spam, htmlText);
      && texts == CleanAll(h, stop, stem) + CleanAll(s, stop, stem)
      && linkFeats == LinksAll(h) + LinksAll(s)
      && labels == Repeat(|h|, 0) + Repeat(|s|, 1)
  {
    texts, linkFeats, labels := [], [], [];
    var folders := [ham, spam];
    for lab := 0 to 2
      invariant texts == TextsUpTo(folders, lab, stop, stem, htmlText)
      invariant linkFeats == LinksUpTo(folders, lab, htmlText)
      invariant labels == LabelsUpTo(folders, lab, htmlText)
    {
      var t, f, l := LoadFolder(folders[lab], lab, stop, stem, htmlText);
      texts, linkFeats, labels := texts + t, linkFeats + f, labels + l;
    }
    assert TextsUpTo(folders, 1, stop, stem, htmlText) == CleanAll(Raws(ham, htmlText), stop, stem);
    assert LinksUpTo(folders, 1, htmlText) == LinksAll(Raws(ham, htmlText));
    assert LabelsUpTo(folders, 1, htmlText) == Repeat(|Raws(ham, htmlText)|, 0);
  }

  /**
   * The lists stay aligned: entry `k` of the texts and of the link features
   * comes from the `k`-th parsed email, ham folder first.
   */
  lemma DatasetAligned(h: seq<string>, s: seq<string>, stop: set<string>, stem: string -> string, k: nat)
    requires k < |h| + |s|
    ensures |CleanAll(h, stop, stem) + CleanAll(s, stop, stem)| == |h + s|
    ensures |LinksAll(h) + LinksAll(s)| == |h + s|
    ensures (CleanAll(h, stop, stem) + CleanAll(s, stop, stem))[k] == TextFeatures.CleanText((h + s)[k], stop, stem)
    ensures (LinksAll(h) + LinksAll(s))[k] == TextFeatures.ExtractLinkFeatures((h + s)[k])
  {
    MapAllConcatAt(h, s, x => TextFeatures.CleanText(x, stop, stem), k);
    MapAllConcatAt(h, s, TextFeatures.ExtractLinkFeatures, k);
  }

  /** Label 0 marks exactly the emails read from the ham folder that parse. */
  lemma HamLabelledZero(ham: seq<EmailFile>, spam: seq<EmailFile>, htmlText: string -> string, k: nat)
    requires k < |Raws(ham, htmlText)| + |Raws(spam, htmlText)|
    ensures var labels := Repeat(|Raws(ham, htmlText)|, 0) + Repeat(|Raws(spam, htmlText)|, 1);
      |labels| == |Raws(ham, htmlText) + Raws(spam, htmlText)| && (labels[k] == 0 <==> k < CountReadable(ham))
  {
    RawsCount(ham, htmlText);
  }

  // ---------------------------------------------------------------------------
  // the feature columns

  const LinkFeatureNames: seq<string> := ["url_count", "ip_url_count", "suspicious_tld", "shortener", "verify_urgent"]

  /** `vectorizer.get_feature_names_out().tolist() + [the five link names]`. */
  function FeatureNames(vocab: seq<string>): (names: seq<string>)
    ensures |names| == |vocab| + 5
  {
    vocab + LinkFeatureNames
  }

  /** One row of `hstack([X_text, X_links])`: the TF-IDF columns, then the link counts. */
  function StackRow(tfidf: seq<real>, links: seq<nat>): (row: seq<real>)
    ensures |row| == |tfidf| + |links|
  {
    tfidf + seq(|links|, k requires 0 <= k < |links| => links[k] as real)
  }

  /**
   * The names line up with the stacked columns: column `j` of a row is the
   * TF-IDF weight of vocabulary term `j`, or the link count that
   * `extract_link_features` puts at position `j - |vocab|`, under that name.
   */
  lemma NamesMatchColumns(vocab: seq<string>, tfidf: seq<real>, text: string, j: nat)
    requires |tfidf| == |vocab| && j < |vocab| + 5
    ensures var row, names := StackRow(tfidf, TextFeatures.ExtractLinkFeatures(text)), FeatureNames(vocab);
      && |row| == |names|
      && (j < |vocab| ==> names[j] == vocab[j] && row[j] == tfidf[j])
      && (j >= |vocab| ==> names[j] == LinkFeatureNames[j - |vocab|]
                           && row[j] == TextFeatures.ExtractLinkFeatures(text)[j - |vocab|] as real)
      && (j == |vocab| ==> names[j] == "url_count" && row[j] == |TextFeatures.FindUrls(text)| as real)
  {
    var links := TextFeatures.ExtractLinkFeatures(text);
    var row := StackRow(tfidf, links);
    if j >= |vocab| {
      assert row[j] == links[j - |vocab|] as real;
    }
  }

  // ---------------------------------------------------------------------------
  // np.argsort and the top weights

  function Range(n: nat): (r: seq<nat>)
    ensures |r| == n && forall k :: 0 <= k < n ==> r[k] == k
  {
    seq(n, k requires 0 <= k < n => k)
  }

  predicate InRange(idx: seq<nat>, n: nat) { forall k :: 0 <= k < |idx| ==> idx[k] < n }

  /** The weights at the indices do not decrease. */
  predicate SortedBy(w: seq<real>, idx: seq<nat>)
    requires InRange(idx, |w|)
  {
    forall a, b :: 0 <= a < b < |idx| ==> w[idx[a]] <= w[idx[b]]
  }

  /** `idx` is an order `np.argsort(w)` may return: every index once, weights ascending. */
  predicate IsArgSort(w: seq<real>, idx: seq<nat>) {
    InRange(idx, |w|) && multiset(idx) == multiset(Range(|w|)) && SortedBy(w, idx)
  }

  /** Places index `i` after every index whose weight is at most `w[i]`. */
  function Insert(w: seq<real>, idx: seq<nat>, i: nat): (r: seq<nat>)
    requires InRange(idx, |w|) && i < |w|
    ensures |r| == |idx| + 1 && InRange(r, |w|)
  {
    if idx == [] then [i]
    else if w[i] < w[idx[0]] then [i] + idx
    else [idx[0]] + Insert(w, idx[1..], i)
  }

  lemma {:induction false} InsertMultiset(w: seq<real>, idx: seq<nat>, i: nat)
    requires InRange(idx, |w|) && i < |w|
    ensures multiset(Insert(w, idx, i)) == multiset(idx) + multiset{i}
  {
    if idx != [] && w[idx[0]] <= w[i] {
      InsertMultiset(w, idx[1..], i);
      assert idx == [idx[0]] + idx[1..];
    }
  }

  predicate AllAtLeast(w: seq<real>, idx: seq<nat>, v: real)
    requires InRange(idx, |w|)
  {
    forall k :: 0 <= k < |idx| ==> v <= w[idx[k]]
  }

  lemma {:induction false} InsertAtLeast(w: seq<real>, idx: seq<nat>, i: nat, v: real)
    requires InRange(idx, |w|) && i < |w| && AllAtLeast(w, idx, v) && v <= w[i]
    ensures AllAtLeast(w, Insert(w, idx, i), v)
  {
    if idx != [] && w[idx[0]] <= w[i] {
      InsertAtLeast(w, idx[1..], i, v);
    }
  }

  lemma {:induction false} InsertSorted(w: seq<real>, idx: seq<nat>, i: nat)
    requires InRange(idx, |w|) && i < |w| && SortedBy(w, idx)
    ensures SortedBy(w, Insert(w, idx, i))
  {
    if idx != [] && w[idx[0]] <= w[i] {
      InsertSorted(w, idx[1..], i);
      InsertAtLeast(w, idx[1..], i, w[idx[0]]);
    }
  }

  /** A stable argsort of the first `n` weights by insertion. */
  function ArgSortUpTo(w: seq<real>, n: nat): (idx: seq<nat>)
    requires n <= |w|
    ensures InRange(idx, |w|) && |idx| == n
  {
    if n == 0 then [] else Insert(w, ArgSortUpTo(w, n - 1), n - 1)
  }

  lemma RangeSnoc(n: nat)
    ensures Range(n + 1) == Range(n) + [n]
  {
  }

  /** The insertion order holds each of the first `n` indices once. */
  lemma {:induction false} ArgSortUpToPermutes(w: seq<real>, n: nat)
    requires n <= |w|
    ensures multiset(ArgSortUpTo(w, n)) == multiset(Range(n))
  {
    if n > 0 {
      ArgSortUpToPermutes(w, n - 1);
      InsertMultiset(w, ArgSortUpTo(w, n - 1), n - 1);
      RangeSnoc(n - 1);
    }
  }

  /** The insertion order has non-decreasing weights. */
  lemma {:induction false} ArgSortUpToSorted(w: seq<real>, n: nat)
    requires n <= |w|
    ensures SortedBy(w, ArgSortUpTo(w, n))
  {
    if n > 0 {
      ArgSortUpToSorted(w, n - 1);
      InsertSorted(w, ArgSortUpTo(w, n - 1), n - 1);
    }
  }

  /** Every weight vector has an argsort order. */
  lemma ArgSortExists(w: seq<real>)
    ensures IsArgSort(w, ArgSortUpTo(w, |w|))
  {
    ArgSortUpToPermutes(w, |w|);
    ArgSortUpToSorted(w, |w|);
  }

  function Min(a: nat, b: nat): nat { if a <= b then a else b }

  function Reverse(s: seq<nat>): (r: seq<nat>)
    ensures |r| == |s| && forall k :: 0 <= k < |s| ==> r[k] == s[|s| - 1 - k]
  {
    seq(|s|, k requires 0 <= k < |s| => s[|s| - 1 - k])
  }

  /** `np.argsort(coefs)[-15:][::-1]`. */
  function TopSpam(idx: seq<nat>): (r: seq<nat>)
    ensures |r| == Min(15, |idx|)
    ensures forall k :: 0 <= k < |r| ==> r[k] == idx[|idx| - 1 - k]
  {
    Reverse(idx[|idx| - Min(15, |idx|)..])
  }

  /** `np.argsort(coefs)[:15]`. */
  function TopHam(idx: seq<nat>): (r: seq<nat>)
    ensures |r| == Min(15, |idx|)
    ensures forall k :: 0 <= k < |r| ==> r[k] == idx[k]
  {
    idx[..Min(15, |idx|)]
  }

  /** An argsort order holds every index, and so has as many entries as there are weights. */
  lemma InArgSort(w: seq<real>, idx: seq<nat>, j: nat) returns (p: nat)
    requires IsArgSort(w, idx) && j < |w|
    ensures |idx| == |w| && p < |idx| && idx[p] == j
  {
    assert |multiset(idx)| == |multiset(Range(|w|))|;
    assert Range(|w|)[j] == j;
    assert j in multiset(idx);
    p :| 0 <= p < |idx| && idx[p] == j;
  }

  lemma TopSizes(w: seq<real>, idx: seq<nat>)
    requires IsArgSort(w, idx)
    ensures |idx| == |w|
    ensures |TopSpam(idx)| == Min(15, |w|) && InRange(TopSpam(idx), |w|)
    ensures |TopHam(idx)| == Min(15, |w|) && InRange(TopHam(idx), |w|)
  {
    assert |multiset(idx)| == |multiset(Range(|w|))|;
  }

  /**
   * `top_spam` holds min(15, n) indices with non-increasing weights, and no
   * index left out weighs more than any index chosen.
   */
  lemma TopSpamLargest(w: seq<real>, idx: seq<nat>)
    requires IsArgSort(w, idx)
    ensures var top := TopSpam(idx);
      && |top| == Min(15, |w|) && InRange(top, |w|)
      && (forall a, b :: 0 <= a < b < |top| ==> w[top[a]] >= w[top[b]])
      && (forall j, t :: 0 <= j < |w| && j !in top && 0 <= t < |top| ==> w[j] <= w[top[t]])
  {
    TopSizes(w, idx);
    var top := TopSpam(idx);
    var start := |idx| - |top|;
    assert forall p :: start <= p < |idx| ==> top[|idx| - 1 - p] == idx[p];
    forall j, t | 0 <= j < |w| && j !in top && 0 <= t < |top| ensures w[j] <= w[top[t]] {
      var p := InArgSort(w, idx, j);
      assert top[t] == idx[|idx| - 1 - t];
    }
  }

  /**
   * `top_ham` holds min(15, n) indices with non-decreasing weights, and no
   * index left out weighs less than any index chosen.
   */
  lemma TopHamSmallest(w: seq<real>, idx: seq<nat>)
    requires IsArgSort(w, idx)
    ensures var top := TopHam(idx);
      && |top| == Min(15, |w|) && InRange(top, |w|)
      && (forall a, b :: 0 <= a < b < |top| ==> w[top[a]] <= w[top[b]])
      && (forall j, t :: 0 <= j < |w| && j !in top && 0 <= t < |top| ==> w[top[t]] <= w[j])
  {
    TopSizes(w, idx);
    var top := TopHam(idx);
    assert forall p :: 0 <= p < |top| ==> top[p] == idx[p];
    forall j, t | 0 <= j < |w| && j !in top && 0 <= t < |top| ensures w[top[t]] <= w[j] {
      var p := InArgSort(w, idx, j);
    }
  }

  // ---------------------------------------------------------------------------
  // feature_importance

  datatype Entry = Entry(feature: string, weight: real, kind: string)

  /** The entries one loop appends for the chosen indices, in order. */
  function Entries(names: seq<string>, w: seq<real>, chosen: seq<nat>, kind: string): (r: seq<Entry>)
    requires |names| == |w| && InRange(chosen, |w|)
    ensures |r| == |chosen|
    ensures forall k :: 0 <= k < |r| ==> r[k] == Entry(names[chosen[k]], w[chosen[k]], kind)
    decreases |chosen|
  {
    if chosen == [] then []
    else
      var last := chosen[|chosen| - 1];
      Entries(names, w, chosen[..|chosen| - 1], kind) + [Entry(names[last], w[last], kind)]
  }

  /** One of the two loops: appends an entry for each chosen index, in order. */
  method AppendEntries(names: seq<string>, w: seq<real>, chosen: seq<nat>, kind: string, entries: seq<Entry>)
    returns (entries': seq<Entry>)
    requires |names| == |w| && InRange(chosen, |w|)
    ensures entries' == entries + Entries(names, w, chosen, kind)
  {
    entries' := entries;
    for k := 0 to |chosen|
      invariant entries' == entries + Entries(names, w, chosen[..k], kind)
    {
      assert chosen[..k + 1][..k] == chosen[..k];
      entries' := entries' + [Entry(names[chosen[k]], w[chosen[k]], kind)];
    }
    assert chosen[..|chosen|] == chosen;
  }

  /**
   * The `feature_importance` list: nothing without `coef_`; otherwise the
   * spam-side entries, heaviest first, then the ham-side entries, lightest
   * first. `order` is the order `np.argsort(coefs)` returns.
   */
  method FeatureImportance(names: seq<string>, coef: Option<seq<real>>, order: seq<nat>) returns (entries: seq<Entry>)
    requires coef.Some? ==> |names| == |coef.value| && IsArgSort(coef.value, order)
    ensures coef.None? ==> entries == []
    ensures coef.Some? ==> |entries| == 2 * Min(15, |names|)
    ensures coef.Some? ==> entries == Entries(names, coef.value, TopSpam(order), "spam")
                                     + Entries(names, coef.value, TopHam(order), "ham")
    ensures forall a, b :: 0 <= a < b < |entries| && entries[b].kind == "spam" ==> entries[a].kind == "spam"
  {
    entries := [];
    if coef.Some? {
      var coefs := coef.value;
      TopSizes(coefs, order);
      entries := AppendEntries(names, coefs, TopSpam(order), "spam", entries);
      entries := AppendEntries(names, coefs, TopHam(order), "ham", entries);
    }
  }
}
