/** The analyzer: the `Result` record it fills in place, the methods that
    walk a parsed page into it, and `AnalyzeURL`, which normalizes the
    address, fetches and parses the page (an oracle here), analyzes it,
    extracts its links and counts the inaccessible ones. */
module Analyzer {
  import opened Wrappers
  import opened AsciiStrings
  import opened Html
  import opened Urls
  import opened HtmlVersion
  import opened LoginForm
  import opened Links
  import opened Document
  import opened LinkChecker

  /** The analysis result, updated in place by the walk. */
  class Result {
    var url: string
    var htmlVersion: string
    var title: string
    var headings: map<string, int>
    var internalLinks: int
    var externalLinks: int
    var inaccessibleLinks: int
    var hasLoginForm: bool
    var error: string

    /** The fields as a value. */
    function Snapshot(): State
      reads this
    {
      State(url, htmlVersion, title, headings, internalLinks, externalLinks, inaccessibleLinks, hasLoginForm, error)
    }

    /** The result `AnalyzeURL` starts from: the url and an empty heading
        map, every other field at its zero value. */
    constructor (url: string)
      ensures Snapshot() == Initial(url)
    {
      this.url := url;
      htmlVersion, title := "", "";
      headings := map[];
      internalLinks, externalLinks, inaccessibleLinks := 0, 0, 0;
      hasLoginForm := false;
      error := "";
    }
  }

  /** `processLink`: the attribute loop over an anchor. An `href` that does
      not parse is skipped; the first one that parses is resolved and
      counted, and ends the loop. */
  method ProcessLink(n: Node, result: Result, base: Url, lib: UrlLib)
    modifies result
    ensures result.Snapshot() == ProcessLinkSpec(n.attr, base, lib, old(result.Snapshot()))
  {
    var i := 0;
    while i < |n.attr|
      invariant i <= |n.attr|
      invariant NoParsedHrefBefore(n.attr, lib, i)
      invariant result.Snapshot() == old(result.Snapshot())
    {
      var attr := n.attr[i];
      if attr.key == "href" {
        var linkURL := lib.parse(attr.val);
        if linkURL.None? {
          i := i + 1;
          continue;
        }
        FirstHrefAt(n.attr, lib, i);
        var resolvedURL := lib.resolve(base, linkURL.value);
        if resolvedURL.host == base.host {
          result.internalLinks := result.internalLinks + 1;
        } else {
          result.externalLinks := result.externalLinks + 1;
        }
        return;
      }
      i := i + 1;
    }
  }

  /** The body of `traverseNode` for one node, before it descends: the
      switch on the lower-cased tag of an element, or the version of a
      doctype. */
  method VisitNode(n: Node, result: Result, base: Url, lib: UrlLib)
    modifies result
    ensures result.Snapshot() == Visit(n, base, lib, old(result.Snapshot()))
  {
    if n.kind == ElementNode {
      var tag := ToLower(n.data);
      if tag == "title" {
        if |n.children| > 0 && n.children[0].kind == TextNode {
          result.title := TrimSpace(n.children[0].data);
        }
      } else if tag == "h1" || tag == "h2" || tag == "h3" || tag == "h4" || tag == "h5" || tag == "h6" {
        var level := ToLower(n.data);
        result.headings := result.headings[level := Get(result.headings, level) + 1];
      } else if tag == "a" {
        ProcessLink(n, result, base, lib);
      } else if tag == "form" {
        var isLogin := IsLoginForm(n);
        if isLogin {
          result.hasLoginForm := true;
        }
      }
    } else if n.kind == DoctypeNode {
      result.htmlVersion := DetectHTMLVersion(n.data);
    }
  }

  /** `traverseNode`: visits `n`, then each child's subtree in order, so
      that the result is the visit of the tree's nodes in pre-order
      (`TraverseIsPreorderWalk`). */
  method TraverseNode(n: Node, result: Result, base: Url, lib: UrlLib)
    modifies result
    ensures result.Snapshot() == Traverse(n, base, lib, old(result.Snapshot()))
    decreases n
  {
    VisitNode(n, result, base, lib);
    ghost var s1 := result.Snapshot();
    var cs := n.children;
    var k := 0;
    while k < |cs|
      invariant k <= |cs|
      invariant result.Snapshot() == TraverseChildren(cs[..k], base, lib, s1)
    {
      ghost var next := Traverse(cs[k], base, lib, TraverseChildren(cs[..k], base, lib, s1));
      assert next == TraverseChildren(cs[..k + 1], base, lib, s1) by {
        assert cs[..k + 1][..k] == cs[..k];
      }
      TraverseNode(cs[k], result, base, lib);
      k := k + 1;
    }
    assert cs[..k] == cs;
  }

  /** `analyzeDocument`: the walk from the document node (its logging is
      not modelled). */
  method AnalyzeDocument(doc: Node, result: Result, base: Url, lib: UrlLib)
    modifies result
    ensures result.Snapshot() == Traverse(doc, base, lib, old(result.Snapshot()))
  {
    TraverseNode(doc, result, base, lib);
  }

  // ---------------------------------------------------------------
  // AnalyzeURL.

  /** A normalized target: the address as analyzed, and its parse. */
  datatype Target = Target(url: string, parsed: Url)

  /** Why `AnalyzeURL` gives up. */
  datatype Failure = InvalidURL | FetchFailed

  /** The address normalization of `AnalyzeURL`. An address that does not
      parse is invalid; one that parses without a scheme is retried with
      "http://" in front, and is invalid when that does not parse either. */
  function Normalize(target: string, lib: UrlLib): (r: Option<Target>)
    ensures r.Some? ==> lib.parse(r.value.url) == Some(r.value.parsed)
    ensures r.Some? ==> lib.parse(target).Some? && (r.value.url == target <==> lib.parse(target).value.scheme != "")
    ensures r.Some? && r.value.url != target ==> r.value.url == "http://" + target
    ensures r.None? <==> lib.parse(target).None? ||
                         (lib.parse(target).value.scheme == "" && lib.parse("http://" + target).None?)
  {
    match lib.parse(target)
    case None => None
    case Some(u) =>
      if u.scheme == "" then
        match lib.parse("http://" + target)
        case None => None
        case Some(u2) => Some(Target("http://" + target, u2))
      else Some(Target(target, u))
  }

  /** What an analysis ends in: a failure, or the fields of the result. */
  datatype Analysis = Failed(failure: Failure) | Analyzed(state: State)

  /** The whole of `AnalyzeURL` on values: normalize, fetch (`fetch` stands
      for the HTTP GET and the HTML parser: None when either fails or the
      status is not 200), walk the page from a fresh result, and, when
      there are links, count the inaccessible ones. */
  function AnalyzeSpec(target: string, lib: UrlLib, fetch: string -> Option<Node>, maxWorkers: int, net: Network): Analysis {
    match Normalize(target, lib)
    case None => Failed(InvalidURL)
    case Some(t) =>
      match fetch(t.url)
      case None => Failed(FetchFailed)
      case Some(doc) =>
        var st := Traverse(doc, t.parsed, lib, Initial(t.url));
        var links := AnchorTargets(Preorder(doc), t.parsed, lib);
        if |links| > 0 then Analyzed(st.(inaccessibleLinks := Inaccessible(links, maxWorkers, net)))
        else Analyzed(st)
  }

  /** `AnalyzeURL`: the result it returns, or the failure, is the one
      `AnalyzeSpec` describes, and the result is a fresh object. */
  method AnalyzeURL(target: string, lib: UrlLib, fetch: string -> Option<Node>, maxWorkers: int, net: Network)
    returns (result: Result?, failure: Option<Failure>)
    ensures failure.None? <==> result != null
    ensures AnalyzeSpec(target, lib, fetch, maxWorkers, net).Failed? ==>
              failure == Some(AnalyzeSpec(target, lib, fetch, maxWorkers, net).failure)
    ensures AnalyzeSpec(target, lib, fetch, maxWorkers, net).Analyzed? ==>
              result != null && fresh(result) &&
              result.Snapshot() == AnalyzeSpec(target, lib, fetch, maxWorkers, net).state
  {
    var parsedURL := lib.parse(target);
    if parsedURL.None? {
      return null, Some(InvalidURL);
    }
    var targetURL := target;
    if parsedURL.value.scheme == "" {
      targetURL := "http://" + target;
      parsedURL := lib.parse(targetURL);
      if parsedURL.None? {
        return null, Some(InvalidURL);
      }
    }
    var base := parsedURL.value;
    assert Normalize(target, lib) == Some(Target(targetURL, base));
    var doc := fetch(targetURL);
    if doc.None? {
      return null, Some(FetchFailed);
    }
    result := new Result(targetURL);
    AnalyzeDocument(doc.value, result, base, lib);
    var links := ExtractLinks(doc.value, base, lib);
    if |links| > 0 {
      result.inaccessibleLinks := CheckLinksAccessibility(links, maxWorkers, net);
    }
    failure := None;
  }

  /** Every successful analysis keeps its counters consistent: no more
      inaccessible links than extracted ones, and no more extracted links
      than counted ones; the url is the normalized address and no error is
      recorded. */
  lemma AnalysisConsistent(target: string, lib: UrlLib, fetch: string -> Option<Node>, maxWorkers: int, net: Network)
    requires AnalyzeSpec(target, lib, fetch, maxWorkers, net).Analyzed?
    ensures var st := AnalyzeSpec(target, lib, fetch, maxWorkers, net).state;
      && Normalize(target, lib).Some? && st.url == Normalize(target, lib).value.url
      && st.error == ""
      && var t := Normalize(target, lib).value;
         var links := AnchorTargets(Preorder(fetch(t.url).value), t.parsed, lib);
         0 <= st.inaccessibleLinks <= |links| <= st.internalLinks + st.externalLinks
  {
    var t := Normalize(target, lib).value;
    var doc := fetch(t.url).value;
    AnalysisFacts(doc, t.parsed, lib, t.url);
    var links := AnchorTargets(Preorder(doc), t.parsed, lib);
    if |links| > 0 {
      assert Inaccessible(links, maxWorkers, net) <= |links|;
    }
  }
}
