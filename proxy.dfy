/** The intercepting proxy of view/proxyserver.py: the server initialises
    the WARC once, and for every intercepted response the reader addon saves
    the page or the resource under a derived name and hands the flow to the
    WARC writer, while the writer addon appends it to the raw flow dump.
    The proxy library, the WARC writer and the file system are outside the
    model: the writer and the files are a `Disk` that records every call. */
module Proxy {
  import opened Common

  /** One intercepted exchange, as the addons read it: the request URL, the
      request's pretty host, the response's `content-type` header if any,
      and the response body. */
  datatype Flow = Flow(url: string, prettyHost: string, contentType: Option<string>, content: Bytes)

  // ---------------------------------------------------------------------
  // The extension rule: re.search(r'\b(?!text\/)(\w+)\/(\w+)', content_type)

  /** `\w`: ASCII letters, digits and the underscore. */
  predicate IsWordChar(c: char) {
    'a' <= c <= 'z' || 'A' <= c <= 'Z' || '0' <= c <= '9' || c == '_'
  }

  function LowerChar(c: char): char {
    if 'A' <= c <= 'Z' then (c as int + 32) as char else c
  }

  /** `str.lower()` on ASCII letters. */
  function Lower(s: string): (r: string)
    ensures |r| == |s|
    ensures forall i :: 0 <= i < |r| ==> !('A' <= r[i] <= 'Z')
    ensures forall i :: 0 <= i < |s| && !('A' <= s[i] <= 'Z') ==> r[i] == s[i]
    ensures forall i :: 0 <= i < |s| && 'A' <= s[i] <= 'Z' ==> r[i] as int == s[i] as int - 'A' as int + 'a' as int
  {
    seq(|s|, i requires 0 <= i < |s| => LowerChar(s[i]))
  }

  /** The end of the run of word characters that starts at `i`: what a
      greedy `(\w+)` starting there consumes. */
  function WordEnd(s: string, i: nat): (e: nat)
    requires i <= |s|
    ensures i <= e <= |s|
    ensures forall k :: i <= k < e ==> IsWordChar(s[k])
    ensures e == |s| || !IsWordChar(s[e])
    decreases |s| - i
  {
    if i < |s| && IsWordChar(s[i]) then WordEnd(s, i + 1) else i
  }

  /** A run of word characters ending before a non-word character (or the
      end) is the run `WordEnd` finds. */
  lemma WordEndIsMaximalRun(s: string, i: nat, j: nat)
    requires i <= j <= |s|
    requires forall k :: i <= k < j ==> IsWordChar(s[k])
    requires j == |s| || !IsWordChar(s[j])
    ensures WordEnd(s, i) == j
    decreases j - i
  {
    if i < j {
      WordEndIsMaximalRun(s, i + 1, j);
    }
  }

  /** The pattern's two words at `p`: `s[p..m]` is a whole word (a word
      boundary before it), `/` follows at `m`, and `s[m+1..e]` is the
      maximal non-empty word after the slash. */
  ghost predicate WordPairAt(s: string, p: int, m: int, e: int) {
    && 0 <= p < m && m + 1 < e <= |s|
    && s[m] == '/'
    && (p == 0 || !IsWordChar(s[p - 1]))
    && (forall k :: p <= k < m ==> IsWordChar(s[k]))
    && (forall k :: m < k < e ==> IsWordChar(s[k]))
    && (e == |s| || !IsWordChar(s[e]))
  }

  /** A pair the pattern accepts: a word pair whose first word is not
      `text`. */
  ghost predicate PairAt(s: string, p: int, m: int, e: int) {
    WordPairAt(s, p, m, e) && s[p..m] != "text"
  }

  /** The match attempt of `re.search` at position `p`, giving group 2. */
  function MatchAt(s: string, p: nat): Option<string>
    requires p <= |s|
  {
    if p < |s| && IsWordChar(s[p]) && (p == 0 || !IsWordChar(s[p - 1])) && !StartsWith(s[p..], "text/") then
      var m := WordEnd(s, p);
      if m < |s| && s[m] == '/' then
        var e := WordEnd(s, m + 1);
        if e > m + 1 then Some(s[m + 1..e]) else None
      else None
    else None
  }

  /** The first successful match attempt at `p` or after. */
  function SearchFrom(s: string, p: nat): Option<string>
    requires p <= |s|
    decreases |s| - p
  {
    if p == |s| then None
    else if MatchAt(s, p).Some? then MatchAt(s, p)
    else SearchFrom(s, p + 1)
  }

  /** The extension given to a saved resource: `.` and group 2 of the first
      match in the lower-cased header, or none. */
  function Extension(contentType: string): Option<string> {
    match SearchFrom(Lower(contentType), 0)
    case Some(w) => Some("." + w)
    case None => None
  }

  /** The negative look-ahead `(?!text\/)` rejects exactly the pairs whose
      first word is `text`. */
  lemma LookaheadRejectsText(s: string, p: nat, m: nat)
    requires p < m < |s| && s[m] == '/'
    requires forall k :: p <= k < m ==> IsWordChar(s[k])
    ensures StartsWith(s[p..], "text/") <==> s[p..m] == "text"
  {
    if StartsWith(s[p..], "text/") {
      assert s[p..][..5] == "text/";
      assert s[p + 4] == '/';
      assert !IsWordChar(s[p + 4]);
      assert m <= p + 4;
      assert !IsWordChar(s[m]);
      forall k | p <= k < p + 4 ensures IsWordChar(s[k]) {
        assert s[k] == "text/"[k - p];
      }
      assert s[p..m] == s[p..][..4];
    }
    if s[p..m] == "text" {
      assert |s[p..m]| == 4;
      assert s[p..][..5] == s[p..p + 5] == s[p..m] + [s[m]];
    }
  }

  /** A successful attempt at `p` found a pair, and group 2 is its second
      word. */
  lemma MatchAtFindsPair(s: string, p: nat)
    requires p <= |s| && MatchAt(s, p).Some?
    ensures PairAt(s, p, WordEnd(s, p), WordEnd(s, WordEnd(s, p) + 1))
    ensures MatchAt(s, p).value == s[WordEnd(s, p) + 1..WordEnd(s, WordEnd(s, p) + 1)]
  {
    LookaheadRejectsText(s, p, WordEnd(s, p));
  }

  /** Every pair at `p` is found by the attempt at `p`. */
  lemma PairIsMatched(s: string, p: nat, m: nat, e: nat)
    requires PairAt(s, p, m, e)
    ensures MatchAt(s, p) == Some(s[m + 1..e])
  {
    WordEndIsMaximalRun(s, p, m);
    WordEndIsMaximalRun(s, m + 1, e);
    LookaheadRejectsText(s, p, m);
  }

  /** A failed attempt at `p` means no pair starts at `p`. */
  lemma NoMatchNoPair(s: string, p: nat)
    requires p < |s| && MatchAt(s, p).None?
    ensures forall m, e :: !PairAt(s, p, m, e)
  {
    forall m, e ensures !PairAt(s, p, m, e) {
      if PairAt(s, p, m, e) {
        PairIsMatched(s, p, m, e);
      }
    }
  }

  /** No accepted pair starts in `[p, q)`. */
  ghost predicate NoPairBetween(s: string, p: int, q: int) {
    forall q', m, e :: p <= q' < q ==> !PairAt(s, q', m, e)
  }

  lemma NoPairBetweenExtends(s: string, p: int, q: int)
    requires forall m, e :: !PairAt(s, p, m, e)
    requires NoPairBetween(s, p + 1, q)
    ensures NoPairBetween(s, p, q)
  {
  }

  /** `w` is the second word of the first accepted pair at or after `p`. */
  ghost predicate FirstPairFrom(s: string, p: int, w: string) {
    exists q, m, e :: p <= q && PairAt(s, q, m, e) && w == s[m + 1..e] && NoPairBetween(s, p, q)
  }

  lemma {:induction false} SearchFromIsFirstPair(s: string, p: nat)
    requires p <= |s|
    ensures SearchFrom(s, p).None? ==> NoPairBetween(s, p, |s|)
    ensures SearchFrom(s, p).Some? ==> FirstPairFrom(s, p, SearchFrom(s, p).value)
    decreases |s| - p
  {
    if p == |s| {
    } else if MatchAt(s, p).Some? {
      MatchAtFindsPair(s, p);
      var m := WordEnd(s, p);
      var e := WordEnd(s, m + 1);
      assert PairAt(s, p, m, e) && NoPairBetween(s, p, p);
    } else {
      SearchFromIsFirstPair(s, p + 1);
      NoMatchNoPair(s, p);
      FirstPairIsLater(s, p);
    }
  }

  /** When no pair starts at `p`, the first pair from `p` is the first one
      from `p + 1`. */
  lemma FirstPairIsLater(s: string, p: nat)
    requires p < |s| && forall m, e :: !PairAt(s, p, m, e)
    ensures NoPairBetween(s, p + 1, |s|) ==> NoPairBetween(s, p, |s|)
    ensures forall w :: FirstPairFrom(s, p + 1, w) ==> FirstPairFrom(s, p, w)
  {
    forall w | FirstPairFrom(s, p + 1, w) ensures FirstPairFrom(s, p, w) {
      var q, m, e :| p + 1 <= q && PairAt(s, q, m, e) && w == s[m + 1..e] && NoPairBetween(s, p + 1, q);
      NoPairBetweenExtends(s, p, q);
    }
  }

  /** The pair at `p` is the leftmost pair the pattern accepts. */
  ghost predicate LeftmostPair(s: string, p: int, m: int, e: int) {
    PairAt(s, p, m, e) && forall q, m', e' :: 0 <= q < p ==> !PairAt(s, q, m', e')
  }

  /** The search returns the second word of the leftmost accepted pair. */
  lemma {:induction false} LeftmostPairIsFound(s: string, p: nat, m: nat, e: nat)
    requires LeftmostPair(s, p, m, e)
    ensures SearchFrom(s, 0) == Some(s[m + 1..e])
  {
    var q := p;
    PairIsMatched(s, p, m, e);
    while q > 0
      invariant 0 <= q <= p
      invariant SearchFrom(s, q) == Some(s[m + 1..e])
    {
      q := q - 1;
      if MatchAt(s, q).Some? {
        MatchAtFindsPair(s, q);
        assert false;
      }
    }
  }

  /** The extension rule in plain terms: there is no extension exactly when
      the lower-cased header holds no `word/word` pair whose first word is a
      whole word other than `text`; otherwise the extension is `.` and the
      second word of the leftmost such pair. */
  lemma ExtensionIsFirstPair(contentType: string)
    ensures Extension(contentType).None? <==> forall p, m, e :: !PairAt(Lower(contentType), p, m, e)
    ensures Extension(contentType).Some? ==>
              exists p, m, e :: PairAt(Lower(contentType), p, m, e)
                                && Extension(contentType).value == "." + Lower(contentType)[m + 1..e]
                                && forall q, m', e' :: 0 <= q < p ==> !PairAt(Lower(contentType), q, m', e')
  {
    var s := Lower(contentType);
    SearchFromIsFirstPair(s, 0);
    if SearchFrom(s, 0).Some? {
      var p, m, e :| 0 <= p && PairAt(s, p, m, e) && SearchFrom(s, 0).value == s[m + 1..e]
                     && NoPairBetween(s, 0, p);
      assert !forall p, m, e :: !PairAt(s, p, m, e);
    } else {
      forall p, m, e ensures !PairAt(s, p, m, e) {
        if p < 0 || |s| <= p {
          assert !WordPairAt(s, p, m, e);
        }
      }
    }
  }

  /** Headers whose every `word/word` pair starts with the word `text`
      (`text/html`, `text/css`, ...) get no extension, hence no hashed
      resource file. */
  lemma TextOnlyHeadersHaveNoExtension(contentType: string)
    requires forall p, m, e :: WordPairAt(Lower(contentType), p, m, e) ==> Lower(contentType)[p..m] == "text"
    ensures Extension(contentType) == None
  {
    ExtensionIsFirstPair(contentType);
  }

  // ---------------------------------------------------------------------
  // What one response produces

  /** One thing `FlowReaderAddon.response` produces: the page saved under
      the host's name, a resource saved under a hashed name (with the branch
      that saved it: image or other), and the hand-off to the WARC writer. */
  datatype Output = HtmlPage(name: string) | Resource(name: string, image: bool) | Archived

  /** `flow.response.headers.get('content-type', '')` */
  function HeaderValue(f: Flow): string {
    f.contentType.GetOr("")
  }

  /** The media type before any parameter: `header.split(';')[0]`. */
  function MediaType(header: string): string {
    Split(header, ';')[0]
  }

  /** The page output: present iff the raw header (case-sensitively) starts
      with `text/html`, and named after the request's host. */
  function PageOutputs(f: Flow): seq<Output> {
    if StartsWith(HeaderValue(f), "text/html") then [HtmlPage(f.prettyHost + ".html")] else []
  }

  /** The resource output: present iff the extension rule finds an
      extension, named by the URL's digest and that extension. */
  function ResourceOutputs(f: Flow, md5: string -> string): seq<Output> {
    match Extension(HeaderValue(f))
    case Some(ext) => [Resource(md5(f.url) + ext, StartsWith(MediaType(HeaderValue(f)), "image/"))]
    case None => []
  }

  /** The decision of `FlowReaderAddon.response`, in order: the page, the
      hashed resource, and the WARC hand-off, which every flow gets. `md5`
      gives the hex digest of a URL. */
  function Outputs(f: Flow, md5: string -> string): seq<Output> {
    PageOutputs(f) + ResourceOutputs(f, md5) + [Archived]
  }

  /** The names of the resource files among some outputs. */
  function ResourceNames(outputs: seq<Output>): seq<string> {
    if outputs == [] then []
    else (if outputs[0].Resource? then [outputs[0].name] else []) + ResourceNames(outputs[1..])
  }

  lemma {:induction false} ResourceNamesAppend(a: seq<Output>, b: seq<Output>)
    ensures ResourceNames(a + b) == ResourceNames(a) + ResourceNames(b)
  {
    if a == [] {
      assert a + b == b;
    } else {
      assert (a + b)[0] == a[0];
      assert (a + b)[1..] == a[1..] + b;
      ResourceNamesAppend(a[1..], b);
    }
  }

  /** Every response is handed to the WARC writer exactly once, after any
      file it causes to be written. */
  lemma ArchivedOnceAndLast(f: Flow, md5: string -> string)
    ensures var o := Outputs(f, md5);
              |o| >= 1 && o[|o| - 1] == Archived
              && forall i :: 0 <= i < |o| - 1 ==> !o[i].Archived?
  {
  }

  /** The page is written iff the raw header starts with `text/html`, and it
      is then named after the host, never after the URL's hash. */
  lemma HtmlNamedByHost(f: Flow, md5: string -> string)
    ensures StartsWith(HeaderValue(f), "text/html") ==> Outputs(f, md5)[0] == HtmlPage(f.prettyHost + ".html")
    ensures forall i :: 0 <= i < |Outputs(f, md5)| && Outputs(f, md5)[i].HtmlPage? ==>
              StartsWith(HeaderValue(f), "text/html") && Outputs(f, md5)[i].name == f.prettyHost + ".html"
  {
  }

  /** A resource is written iff the lower-cased header holds a non-`text`
      pair; its name is the URL's digest, `.` and the second word of the
      leftmost such pair, whichever branch (image or other) writes it. */
  lemma ResourceNamedByDigest(f: Flow, md5: string -> string)
    ensures ResourceNames(Outputs(f, md5)) == [] <==> forall p, m, e :: !PairAt(Lower(HeaderValue(f)), p, m, e)
    ensures forall p, m, e :: LeftmostPair(Lower(HeaderValue(f)), p, m, e) ==>
              ResourceNames(Outputs(f, md5)) == [md5(f.url) + "." + Lower(HeaderValue(f))[m + 1..e]]
  {
    ResourceNamesOfExtension(f, md5);
    ExtensionIsFirstPair(HeaderValue(f));
    forall p, m, e | LeftmostPair(Lower(HeaderValue(f)), p, m, e)
      ensures ResourceNames(Outputs(f, md5)) == [md5(f.url) + "." + Lower(HeaderValue(f))[m + 1..e]]
    {
      LeftmostPairNamesResource(f, md5, p, m, e);
    }
  }

  lemma LeftmostPairNamesResource(f: Flow, md5: string -> string, p: nat, m: nat, e: nat)
    requires LeftmostPair(Lower(HeaderValue(f)), p, m, e)
    ensures ResourceNames(Outputs(f, md5)) == [md5(f.url) + "." + Lower(HeaderValue(f))[m + 1..e]]
  {
    var s := Lower(HeaderValue(f));
    ResourceNamesOfExtension(f, md5);
    LeftmostPairIsFound(s, p, m, e);
    var word := s[m + 1..e];
    assert Extension(HeaderValue(f)) == Some("." + word);
    assert md5(f.url) + ("." + word) == md5(f.url) + "." + word;
  }

  lemma ResourceNamesOfExtension(f: Flow, md5: string -> string)
    ensures ResourceNames(Outputs(f, md5))
            == if Extension(HeaderValue(f)).Some? then [md5(f.url) + Extension(HeaderValue(f)).value] else []
  {
    ResourceNamesOfOutputs(f, md5);
    if Extension(HeaderValue(f)).Some? {
      var r := Resource(md5(f.url) + Extension(HeaderValue(f)).value, StartsWith(MediaType(HeaderValue(f)), "image/"));
      assert ResourceOutputs(f, md5) == [r];
      assert ResourceNames([r]) == [r.name];
    }
  }

  lemma ResourceNamesOfOutputs(f: Flow, md5: string -> string)
    ensures ResourceNames(Outputs(f, md5)) == ResourceNames(ResourceOutputs(f, md5))
  {
    ResourceNamesAppend(PageOutputs(f) + ResourceOutputs(f, md5), [Archived]);
    ResourceNamesAppend(PageOutputs(f), ResourceOutputs(f, md5));
    assert ResourceNames(PageOutputs(f)) == [];
  }

  /** Naming is deterministic: two flows with the same URL and the same
      header get the same resource names, whatever their hosts and bodies. */
  lemma NamingIsDeterministic(f1: Flow, f2: Flow, md5: string -> string)
    requires f1.url == f2.url && f1.contentType == f2.contentType
    ensures ResourceNames(Outputs(f1, md5)) == ResourceNames(Outputs(f2, md5))
  {
    assert ResourceOutputs(f1, md5) == ResourceOutputs(f2, md5);
    ResourceNamesAppend(PageOutputs(f1) + ResourceOutputs(f1, md5), [Archived]);
    ResourceNamesAppend(PageOutputs(f1), ResourceOutputs(f1, md5));
    ResourceNamesAppend(PageOutputs(f2) + ResourceOutputs(f2, md5), [Archived]);
    ResourceNamesAppend(PageOutputs(f2), ResourceOutputs(f2, md5));
    assert ResourceNames(PageOutputs(f1)) == [] == ResourceNames(PageOutputs(f2));
  }

  /** A response without a `content-type` header is read as `''`: nothing is
      written, and it is still archived. */
  lemma MissingHeaderIsOnlyArchived(f: Flow, md5: string -> string)
    requires f.contentType == None
    ensures Outputs(f, md5) == [Archived]
  {
    assert SearchFrom(Lower(""), 0) == None;
  }

  /** An HTML page with an ordinary parameter is saved only under its host's
      name. */
  lemma HtmlPageSavedByHost(f: Flow, md5: string -> string)
    requires f.contentType == Some("text/html; charset=utf-8")
    ensures Outputs(f, md5) == [HtmlPage(f.prettyHost + ".html"), Archived]
  {
    HtmlHeaderHasNoExtension();
  }

  /** A lower-cased header that starts `text/` and has no other `/` holds
      no pair the pattern accepts. */
  lemma TextIsTheOnlyPair(s: string)
    requires |s| >= 5 && s[..5] == "text/"
    requires forall k :: 5 <= k < |s| ==> s[k] != '/'
    ensures forall p, m, e :: !PairAt(s, p, m, e)
  {
    forall p, m, e | WordPairAt(s, p, m, e) ensures p == 0 && m == 4 {
      assert s[m] == '/' && s[..5][4] == '/';
    }
  }

  lemma HtmlHeaderHasNoExtension()
    ensures Extension("text/html; charset=utf-8").None?
  {
    var ct := "text/html; charset=utf-8";
    var s := Lower(ct);
    assert s == ct by {
      assert forall i :: 0 <= i < |ct| ==> !('A' <= ct[i] <= 'Z');
    }
    TextIsTheOnlyPair(s);
    ExtensionIsFirstPair(ct);
  }

  /** An image is saved under the digest of its URL with its subtype as
      extension, by the image branch. */
  lemma ImageSavedByDigest(f: Flow, md5: string -> string)
    requires f.contentType == Some("image/png")
    ensures Outputs(f, md5) == [Resource(md5(f.url) + ".png", true), Archived]
  {
    ImagePngHasNoPage(f);
    ImagePngResource(f, md5);
  }

  lemma ImagePngHasNoPage(f: Flow)
    requires f.contentType == Some("image/png")
    ensures PageOutputs(f) == []
  {
    assert HeaderValue(f)[..9][0] == 'i';
  }

  lemma ImagePngResource(f: Flow, md5: string -> string)
    requires f.contentType == Some("image/png")
    ensures ResourceOutputs(f, md5) == [Resource(md5(f.url) + ".png", true)]
  {
    ImagePngExtension(HeaderValue(f));
    ImagePngIsImage(HeaderValue(f));
  }

  lemma ImagePngIsImage(ct: string)
    requires ct == "image/png"
    ensures StartsWith(MediaType(ct), "image/")
  {
    assert ';' !in ct;
    SplitWithoutSeparator(ct, ';');
  }

  lemma ImagePngExtension(ct: string)
    requires ct == "image/png"
    ensures Extension(ct) == Some(".png")
  {
    var s := Lower(ct);
    assert s == "image/png";
    assert s[0..5] != "text" by {
      assert s[0] != 't';
    }
    assert LeftmostPair(s, 0, 5, 9);
    LeftmostPairIsFound(s, 0, 5, 9);
    assert "." + s[6..9] == ".png";
  }

  /** A `text/html` response whose header also holds a non-`text` pair
      (in a parameter, say) is saved twice: under its host's name and under
      a hashed name, by the non-image branch. */
  lemma HtmlWithPairIsAlsoHashed(f: Flow, md5: string -> string)
    requires StartsWith(HeaderValue(f), "text/html") && Extension(HeaderValue(f)).Some?
    ensures Outputs(f, md5)
            == [HtmlPage(f.prettyHost + ".html"), Resource(md5(f.url) + Extension(HeaderValue(f)).value, false), Archived]
  {
    TextMediaTypeIsNotImage(HeaderValue(f));
  }

  lemma TextMediaTypeIsNotImage(ct: string)
    requires StartsWith(ct, "text/html")
    ensures !StartsWith(MediaType(ct), "image/")
  {
    FirstPieceIsPrefix(ct, ';');
    var m := MediaType(ct);
    if |m| >= 6 {
      assert m[..6][0] == m[0] == ct[..9][0];
    }
  }

  /** Such headers exist: `text/html; q=a/b` gets the extension `.b`. */
  lemma SlashParameterExtension(ct: string)
    requires ct == "text/html; q=a/b"
    ensures StartsWith(ct, "text/html") && Extension(ct) == Some(".b")
  {
    assert ct[..9] == "text/html";
    var s := Lower(ct);
    assert s == "text/html; q=a/b";
    assert s[13..14] != "text";
    forall q, m, e | 0 <= q < 13 ensures !PairAt(s, q, m, e) {
      assert WordPairAt(s, q, m, e) ==> m == 4 || m == 14;
      assert WordPairAt(s, q, m, e) ==> m != 14 by {
        assert !IsWordChar(s[12]);
      }
      assert forall i :: 0 <= i < 4 ==> IsWordChar(s[i]);
      assert WordPairAt(s, q, m, e) ==> q == 0;
    }
    assert LeftmostPair(s, 13, 14, 16);
    LeftmostPairIsFound(s, 13, 14, 16);
    assert "." + s[15..16] == ".b";
  }

  /** The page test is case-sensitive while the extension rule lower-cases:
      an upper-case `Text/HTML` response is archived but not saved. */
  lemma UpperCaseHtmlOnlyArchived(f: Flow, md5: string -> string)
    requires f.contentType == Some("Text/HTML")
    ensures Outputs(f, md5) == [Archived]
  {
    var ct := "Text/HTML";
    var s := Lower(ct);
    assert s == "text/html";
    TextIsTheOnlyPair(s);
    ExtensionIsFirstPair(ct);
  }

  // ---------------------------------------------------------------------
  // Effects on the acquisition directory

  /** One call the proxy code makes to the outside: `os.makedirs`, a file
      written with `open(..., "wb")`, `warcinfo` and `flow_to_warc`. */
  datatype Effect =
    | MadeDirs(path: string)
    | Wrote(path: string, content: Bytes)
    | WarcInfo(path: string)
    | FlowToWarc(flow: Flow, path: string)

  /** The file system under the acquisition directory together with the
      WARC writer: the directories that exist, the content of each written
      file, and every call received, in order. */
  class Disk {
    var dirs: set<string>
    var files: map<string, Bytes>
    var trace: seq<Effect>

    constructor (dirs: set<string>)
      ensures this.dirs == dirs && files == map[] && trace == []
    {
      this.dirs := dirs;
      files := map[];
      trace := [];
    }

    method MakeDirs(path: string)
      modifies this
      ensures dirs == old(dirs) + {path} && files == old(files)
      ensures trace == old(trace) + [MadeDirs(path)]
    {
      dirs := dirs + {path};
      trace := trace + [MadeDirs(path)];
    }

    method WriteFile(path: string, content: Bytes)
      modifies this
      ensures dirs == old(dirs) && files == old(files)[path := content]
      ensures trace == old(trace) + [Wrote(path, content)]
    {
      files := files[path := content];
      trace := trace + [Wrote(path, content)];
    }

    method Warcinfo(path: string)
      modifies this
      ensures dirs == old(dirs) && files == old(files)
      ensures trace == old(trace) + [WarcInfo(path)]
    {
      trace := trace + [WarcInfo(path)];
    }

    method FlowToWarc(flow: Flow, path: string)
      modifies this
      ensures dirs == old(dirs) && files == old(files)
      ensures trace == old(trace) + [Effect.FlowToWarc(flow, path)]
    {
      trace := trace + [Effect.FlowToWarc(flow, path)];
    }
  }

  /** The WARC path of an acquisition: `<acquisition_directory>/acquisition`. */
  function WarcPath(acquisitionDirectory: string): string {
    Join(acquisitionDirectory, "acquisition")
  }

  /** The calls one response causes, given the resource directory `acqDir`. */
  function ResponseEffects(acquisitionDirectory: string, acqDir: string, f: Flow, md5: string -> string): seq<Effect> {
    EffectsOf(acquisitionDirectory, acqDir, f, Outputs(f, md5))
  }

  function EffectsOf(acquisitionDirectory: string, acqDir: string, f: Flow, outputs: seq<Output>): (r: seq<Effect>)
    ensures |r| == |outputs|
  {
    if outputs == [] then []
    else
      [match outputs[0]
       case HtmlPage(name) => Wrote(acqDir + "/" + name, f.content)
       case Resource(name, _) => Wrote(acqDir + "/" + name, f.content)
       case Archived => FlowToWarc(f, WarcPath(acquisitionDirectory))]
      + EffectsOf(acquisitionDirectory, acqDir, f, outputs[1..])
  }

  /** The files after a sequence of calls: each write replaces the file. */
  function ApplyWrites(files: map<string, Bytes>, effects: seq<Effect>): map<string, Bytes>
    decreases |effects|
  {
    if effects == [] then files
    else ApplyWrites(if effects[0].Wrote? then files[effects[0].path := effects[0].content] else files, effects[1..])
  }

  /** The flows handed to the WARC writer by a sequence of calls, in order. */
  function ArchivedFlows(effects: seq<Effect>): seq<Flow> {
    if effects == [] then []
    else (if effects[0].FlowToWarc? then [effects[0].flow] else []) + ArchivedFlows(effects[1..])
  }

  lemma {:induction false} ArchivedFlowsAppend(a: seq<Effect>, b: seq<Effect>)
    ensures ArchivedFlows(a + b) == ArchivedFlows(a) + ArchivedFlows(b)
  {
    if a == [] {
      assert a + b == b;
    } else {
      assert (a + b)[0] == a[0];
      assert (a + b)[1..] == a[1..] + b;
      ArchivedFlowsAppend(a[1..], b);
    }
  }

  lemma {:induction false} EffectsOfAppend(dir: string, acqDir: string, f: Flow, a: seq<Output>, b: seq<Output>)
    ensures EffectsOf(dir, acqDir, f, a + b) == EffectsOf(dir, acqDir, f, a) + EffectsOf(dir, acqDir, f, b)
  {
    if a == [] {
      assert a + b == b;
    } else {
      assert (a + b)[0] == a[0];
      assert (a + b)[1..] == a[1..] + b;
      EffectsOfAppend(dir, acqDir, f, a[1..], b);
    }
  }

  /** One response reaches the WARC writer exactly once, as itself, and it
      never re-initialises the WARC. */
  lemma ResponseArchivesItself(dir: string, acqDir: string, f: Flow, md5: string -> string)
    ensures ArchivedFlows(ResponseEffects(dir, acqDir, f, md5)) == [f]
    ensures forall e :: e in ResponseEffects(dir, acqDir, f, md5) ==> !e.WarcInfo? && !e.MadeDirs?
  {
    var writes := PageOutputs(f) + ResourceOutputs(f, md5);
    assert Outputs(f, md5) == writes + [Archived];
    EffectsOfAppend(dir, acqDir, f, writes, [Archived]);
    WritesArchiveNothing(dir, acqDir, f, writes);
    var archive := EffectsOf(dir, acqDir, f, [Archived]);
    assert archive == [FlowToWarc(f, WarcPath(dir))];
    ArchivedFlowsAppend(EffectsOf(dir, acqDir, f, writes), archive);
  }

  /** Saving pages and resources only writes files. */
  lemma {:induction false} WritesArchiveNothing(dir: string, acqDir: string, f: Flow, outputs: seq<Output>)
    requires forall i :: 0 <= i < |outputs| ==> !outputs[i].Archived?
    ensures ArchivedFlows(EffectsOf(dir, acqDir, f, outputs)) == []
    ensures forall i :: 0 <= i < |outputs| ==> EffectsOf(dir, acqDir, f, outputs)[i].Wrote?
  {
    if outputs != [] {
      WritesArchiveNothing(dir, acqDir, f, outputs[1..]);
    }
  }

  /** The calls of a whole proxy session: each response's calls, in the
      order the responses arrive. */
  function SessionEffects(dir: string, acqDir: string, flows: seq<Flow>, md5: string -> string): seq<Effect> {
    if flows == [] then []
    else SessionEffects(dir, acqDir, flows[..|flows| - 1], md5) + ResponseEffects(dir, acqDir, flows[|flows| - 1], md5)
  }

  /** Over a session, the WARC writer receives every response exactly once,
      in arrival order, and is never re-initialised. */
  lemma {:induction false} SessionArchivesEveryFlowInOrder(dir: string, acqDir: string, flows: seq<Flow>, md5: string -> string)
    ensures ArchivedFlows(SessionEffects(dir, acqDir, flows, md5)) == flows
    ensures forall e :: e in SessionEffects(dir, acqDir, flows, md5) ==> !e.WarcInfo?
  {
    if flows != [] {
      var init := flows[..|flows| - 1];
      var last := flows[|flows| - 1];
      SessionArchivesEveryFlowInOrder(dir, acqDir, init, md5);
      ResponseArchivesItself(dir, acqDir, last, md5);
      assert SessionEffects(dir, acqDir, flows, md5)
             == SessionEffects(dir, acqDir, init, md5) + ResponseEffects(dir, acqDir, last, md5);
      ArchivedFlowsAppend(SessionEffects(dir, acqDir, init, md5), ResponseEffects(dir, acqDir, last, md5));
      assert init + [last] == flows;
    }
  }

  // ---------------------------------------------------------------------
  // The addons and the server

  /** `FlowReaderAddon`: saves pages and resources under
      `<acquisition_directory>/acquisition_page` and archives every flow. */
  class FlowReaderAddon {
    const acquisitionDirectory: string
    const acqDir: string
    const disk: Disk
    const md5: string -> string

    /** Creates the resource directory only if it is missing. */
    constructor (acquisitionDirectory: string, disk: Disk, md5: string -> string)
      modifies disk
      ensures this.acquisitionDirectory == acquisitionDirectory && this.disk == disk && this.md5 == md5
      ensures acqDir == Join(acquisitionDirectory, "acquisition_page")
      ensures disk.dirs == old(disk.dirs) + {acqDir} && disk.files == old(disk.files)
      ensures disk.trace == old(disk.trace) + (if acqDir in old(disk.dirs) then [] else [MadeDirs(acqDir)])
    {
      this.acquisitionDirectory := acquisitionDirectory;
      acqDir := Join(acquisitionDirectory, "acquisition_page");
      this.disk := disk;
      this.md5 := md5;
      new;
      if acqDir !in disk.dirs {
        disk.MakeDirs(acqDir);
      }
    }

    /** `response(flow)`: writes what `Outputs` decides, then archives. */
    method Response(f: Flow)
      modifies disk
      ensures disk.trace == old(disk.trace) + ResponseEffects(acquisitionDirectory, acqDir, f, md5)
      ensures disk.files == ApplyWrites(old(disk.files), ResponseEffects(acquisitionDirectory, acqDir, f, md5))
      ensures disk.dirs == old(disk.dirs)
    {
      ghost var dir := acquisitionDirectory;
      ghost var pages := EffectsOf(dir, acqDir, f, PageOutputs(f));
      ghost var resources := EffectsOf(dir, acqDir, f, ResourceOutputs(f, md5));
      SavePage(f);
      SaveResource(f);
      disk.FlowToWarc(f, Join(acquisitionDirectory, "acquisition"));
      ResponseEffectsSplit(dir, acqDir, f, md5);
      ApplyWritesAppend(old(disk.files), pages, resources);
      ApplyWritesAppend(old(disk.files), pages + resources, [FlowToWarc(f, WarcPath(dir))]);
    }

    /** The first branch of `response`: an HTML page under the host's name. */
    method SavePage(f: Flow)
      modifies disk
      ensures disk.trace == old(disk.trace) + EffectsOf(acquisitionDirectory, acqDir, f, PageOutputs(f))
      ensures disk.files == ApplyWrites(old(disk.files), EffectsOf(acquisitionDirectory, acqDir, f, PageOutputs(f)))
      ensures disk.dirs == old(disk.dirs)
    {
      ghost var pages := EffectsOf(acquisitionDirectory, acqDir, f, PageOutputs(f));
      if StartsWith(f.contentType.GetOr(""), "text/html") {
        disk.WriteFile(acqDir + "/" + (f.prettyHost + ".html"), f.content);
        assert pages == [Wrote(acqDir + "/" + (f.prettyHost + ".html"), f.content)];
      } else {
        assert pages == [];
      }
    }

    /** The second branch of `response`: a resource under its URL's digest
        and the extension the header gives. */
    method SaveResource(f: Flow)
      modifies disk
      ensures disk.trace == old(disk.trace) + EffectsOf(acquisitionDirectory, acqDir, f, ResourceOutputs(f, md5))
      ensures disk.files == ApplyWrites(old(disk.files), EffectsOf(acquisitionDirectory, acqDir, f, ResourceOutputs(f, md5)))
      ensures disk.dirs == old(disk.dirs)
    {
      var url := f.url;
      ghost var resources := EffectsOf(acquisitionDirectory, acqDir, f, ResourceOutputs(f, md5));
      var contentType := Lower(f.contentType.GetOr(""));
      var found := SearchFrom(contentType, 0);
      var extension: Option<string> := if found.Some? then Some("." + found.value) else None;
      assert extension == Extension(HeaderValue(f));
      if extension.Some? {
        var image := StartsWith(Split(f.contentType.GetOr(""), ';')[0], "image/");
        assert image == StartsWith(MediaType(HeaderValue(f)), "image/");
        if image {
          disk.WriteFile(acqDir + "/" + (md5(url) + extension.value), f.content);
        } else {
          disk.WriteFile(acqDir + "/" + (md5(url) + extension.value), f.content);
        }
        assert ResourceOutputs(f, md5) == [Resource(md5(url) + extension.value, image)];
        assert resources == [Wrote(acqDir + "/" + (md5(url) + extension.value), f.content)];
      } else {
        assert resources == [];
      }
    }
  }

  /** The calls of one response: its page write, its resource write, then
      its hand-off to the WARC writer. */
  lemma ResponseEffectsSplit(dir: string, acqDir: string, f: Flow, md5: string -> string)
    ensures ResponseEffects(dir, acqDir, f, md5)
            == EffectsOf(dir, acqDir, f, PageOutputs(f)) + EffectsOf(dir, acqDir, f, ResourceOutputs(f, md5))
               + [FlowToWarc(f, WarcPath(dir))]
  {
    EffectsOfAppend(dir, acqDir, f, PageOutputs(f) + ResourceOutputs(f, md5), [Archived]);
    EffectsOfAppend(dir, acqDir, f, PageOutputs(f), ResourceOutputs(f, md5));
  }

  lemma {:induction false} ApplyWritesAppend(files: map<string, Bytes>, a: seq<Effect>, b: seq<Effect>)
    ensures ApplyWrites(files, a + b) == ApplyWrites(ApplyWrites(files, a), b)
    decreases |a|
  {
    if a == [] {
      assert a + b == b;
    } else {
      assert (a + b)[0] == a[0];
      assert (a + b)[1..] == a[1..] + b;
      ApplyWritesAppend(if a[0].Wrote? then files[a[0].path := a[0].content] else files, a[1..], b);
    }
  }

  /** `FlowWriterAddon`: its writer `w` over `flow_dump.txt`, opened for
      writing (so empty), receives every response flow in call order. */
  class FlowWriterAddon {
    const path: string
    var records: seq<Flow>

    constructor (acquisitionDirectory: string)
      ensures path == acquisitionDirectory + "/flow_dump.txt" && records == []
    {
      path := acquisitionDirectory + "/flow_dump.txt";
      records := [];
    }

    method Response(f: Flow)
      modifies this
      ensures records == old(records) + [f]
    {
      records := records + [f];
    }
  }

  /** `ProxyServer`: initialises the WARC when it is built, before any flow
      can reach the addons. */
  class ProxyServer {
    const port: int
    const acquisitionDirectory: string
    const disk: Disk

    constructor (port: int, acquisitionDirectory: string, disk: Disk)
      modifies disk
      ensures this.port == port && this.acquisitionDirectory == acquisitionDirectory && this.disk == disk
      ensures disk.trace == old(disk.trace) + [WarcInfo(WarcPath(acquisitionDirectory))]
      ensures disk.files == old(disk.files) && disk.dirs == old(disk.dirs)
    {
      this.port := port;
      this.acquisitionDirectory := acquisitionDirectory;
      this.disk := disk;
      new;
      disk.Warcinfo(Join(acquisitionDirectory, "acquisition"));
    }

    /** `start()`: builds the reader and the writer addon that the proxy
        then calls on every intercepted response, the reader first. */
    method Start(md5: string -> string) returns (reader: FlowReaderAddon, writer: FlowWriterAddon)
      modifies disk
      ensures fresh(reader) && fresh(writer)
      ensures reader.disk == disk && reader.md5 == md5 && reader.acquisitionDirectory == acquisitionDirectory
      ensures reader.acqDir == Join(acquisitionDirectory, "acquisition_page")
      ensures writer.path == acquisitionDirectory + "/flow_dump.txt" && writer.records == []
      ensures disk.dirs == old(disk.dirs) + {reader.acqDir} && disk.files == old(disk.files)
      ensures disk.trace == old(disk.trace) + (if reader.acqDir in old(disk.dirs) then [] else [MadeDirs(reader.acqDir)])
    {
      reader := new FlowReaderAddon(acquisitionDirectory, disk, md5);
      writer := new FlowWriterAddon(acquisitionDirectory);
    }
  }
}
