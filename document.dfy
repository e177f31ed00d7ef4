/** The single-pass document walk of `traverseNode`, as functions on a
    snapshot of the analysis result: what visiting one node does, the walk
    of a whole tree, and the facts the walk establishes. */
module Document {
  import opened Wrappers
  import opened AsciiStrings
  import opened Html
  import opened Urls
  import opened HtmlVersion
  import opened LoginForm
  import opened Links

  /** The fields of an analysis result. */
  datatype State = State(
    url: string,
    htmlVersion: string,
    title: string,
    headings: map<string, int>,
    internalLinks: int,
    externalLinks: int,
    inaccessibleLinks: int,
    hasLoginForm: bool,
    error: string)

  /** A fresh result for `url`: every other field is its zero value and the
      heading map is empty. */
  function Initial(url: string): State {
    State(url, "", "", map[], 0, 0, 0, false, "")
  }

  /** Reading a missing key of a Go map gives 0. */
  function Get(m: map<string, int>, k: string): int {
    if k in m then m[k] else 0
  }

  predicate IsHeadingTag(t: string) {
    t == "h1" || t == "h2" || t == "h3" || t == "h4" || t == "h5" || t == "h6"
  }

  /** An element whose lower-cased tag is `t`. */
  predicate IsElement(v: Node, t: string) {
    v.kind == ElementNode && ToLower(v.data) == t
  }

  /** `processLink` on the attributes of an anchor. The first `href` that
      parses is resolved against `base`. Without one nothing changes;
      otherwise exactly one of the two link counters grows by one, the
      internal one exactly when the resolved host equals the base host, and
      no other field changes. */
  function ProcessLinkSpec(attrs: seq<Attribute>, base: Url, lib: UrlLib, st: State): (r: State)
    ensures FirstHref(attrs, lib).None? ==> r == st
    ensures FirstHref(attrs, lib).Some? ==>
              var internal := lib.resolve(base, FirstHref(attrs, lib).value).host == base.host;
              r == st.(internalLinks := st.internalLinks + (if internal then 1 else 0),
                       externalLinks := st.externalLinks + (if internal then 0 else 1))
  {
    match FirstHref(attrs, lib)
    case None => st
    case Some(ref) =>
      if lib.resolve(base, ref).host == base.host then st.(internalLinks := st.internalLinks + 1)
      else st.(externalLinks := st.externalLinks + 1)
  }

  /** What `traverseNode` does at one node before it descends: the switch on
      the lower-cased tag of an element, or the version of a doctype. */
  function Visit(v: Node, base: Url, lib: UrlLib, st: State): State {
    if v.kind == ElementNode then
      var tag := ToLower(v.data);
      if tag == "title" then
        if |v.children| > 0 && v.children[0].kind == TextNode then st.(title := TrimSpace(v.children[0].data))
        else st
      else if IsHeadingTag(tag) then st.(headings := st.headings[tag := Get(st.headings, tag) + 1])
      else if tag == "a" then ProcessLinkSpec(v.attr, base, lib, st)
      else if tag == "form" then (if IsCredentialForm(v) then st.(hasLoginForm := true) else st)
      else st
    else if v.kind == DoctypeNode then st.(htmlVersion := DetectHTMLVersion(v.data))
    else st
  }

  /** `traverseNode`: visit `n`, then walk each child's subtree in order. */
  function Traverse(n: Node, base: Url, lib: UrlLib, st: State): State
    decreases n, 1
  {
    TraverseChildren(n.children, base, lib, Visit(n, base, lib, st))
  }

  function TraverseChildren(cs: seq<Node>, base: Url, lib: UrlLib, st: State): State
    decreases cs, 0
  {
    if cs == [] then st
    else Traverse(cs[|cs| - 1], base, lib, TraverseChildren(cs[..|cs| - 1], base, lib, st))
  }

  /** Visiting the nodes of a list one after the other. */
  function VisitAll(ns: seq<Node>, base: Url, lib: UrlLib, st: State): State {
    if ns == [] then st
    else Visit(ns[|ns| - 1], base, lib, VisitAll(ns[..|ns| - 1], base, lib, st))
  }

  lemma {:induction false} VisitAllAppend(a: seq<Node>, b: seq<Node>, base: Url, lib: UrlLib, st: State)
    ensures VisitAll(a + b, base, lib, st) == VisitAll(b, base, lib, VisitAll(a, base, lib, st))
    decreases |b|
  {
    if b == [] {
      assert a + b == a;
    } else {
      assert (a + b)[..|a + b| - 1] == a + b[..|b| - 1];
      VisitAllAppend(a, b[..|b| - 1], base, lib, st);
    }
  }

  /** The walk visits every node of the tree exactly once, in depth-first
      pre-order: it is the visit of the pre-order list, node by node. */
  lemma {:induction false} TraverseIsPreorderWalk(n: Node, base: Url, lib: UrlLib, st: State)
    ensures Traverse(n, base, lib, st) == VisitAll(Preorder(n), base, lib, st)
    decreases n, 1
  {
    var s1 := Visit(n, base, lib, st);
    TraverseChildrenIsForestWalk(n.children, base, lib, s1);
    assert [n][..0] == [];
    assert VisitAll([n], base, lib, st) == s1;
    VisitAllAppend([n], PreorderForest(n.children), base, lib, st);
  }

  lemma {:induction false} TraverseChildrenIsForestWalk(cs: seq<Node>, base: Url, lib: UrlLib, st: State)
    ensures TraverseChildren(cs, base, lib, st) == VisitAll(PreorderForest(cs), base, lib, st)
    decreases cs, 0
  {
    if cs != [] {
      var init := cs[..|cs| - 1];
      var last := cs[|cs| - 1];
      TraverseChildrenIsForestWalk(init, base, lib, st);
      TraverseIsPreorderWalk(last, base, lib, TraverseChildren(init, base, lib, st));
      VisitAllAppend(PreorderForest(init), Preorder(last), base, lib, st);
    }
  }

  // ---------------------------------------------------------------
  // What one visit contributes to each field.

  /** The title an element sets: a `title` element whose first child is a
      text node sets the trimmed text; any other node sets none. */
  function TitleOf(v: Node): Option<string> {
    if IsElement(v, "title") && |v.children| > 0 && v.children[0].kind == TextNode then
      Some(TrimSpace(v.children[0].data))
    else None
  }

  /** The version a doctype node sets; other nodes set none. */
  function VersionOf(v: Node): Option<string> {
    if v.kind == DoctypeNode then Some(DetectHTMLVersion(v.data)) else None
  }

  /** How `processLink` classifies an anchor: Some(true) internal,
      Some(false) external, None when it is not counted. */
  function LinkKind(v: Node, base: Url, lib: UrlLib): Option<bool> {
    if IsElement(v, "a") then
      match FirstHref(v.attr, lib)
      case None => None
      case Some(ref) => Some(lib.resolve(base, ref).host == base.host)
    else None
  }

  /** A form element that passes the credential-form rule. */
  predicate IsLoginFormNode(v: Node) {
    IsElement(v, "form") && IsCredentialForm(v)
  }

  /** One visit never writes the url, the inaccessible count or the error. */
  lemma VisitKeeps(v: Node, base: Url, lib: UrlLib, st: State)
    ensures var r := Visit(v, base, lib, st);
      r.url == st.url && r.inaccessibleLinks == st.inaccessibleLinks && r.error == st.error
  {
  }

  /** One visit sets the title exactly when the node is a titled `title`. */
  lemma VisitTitle(v: Node, base: Url, lib: UrlLib, st: State)
    ensures Visit(v, base, lib, st).title == (if TitleOf(v).Some? then TitleOf(v).value else st.title)
  {
  }

  /** One visit sets the version exactly at a doctype. */
  lemma VisitVersion(v: Node, base: Url, lib: UrlLib, st: State)
    ensures Visit(v, base, lib, st).htmlVersion == (if VersionOf(v).Some? then VersionOf(v).value else st.htmlVersion)
  {
  }

  /** One visit raises the login flag exactly at a login form, and never
      lowers it. */
  lemma VisitLogin(v: Node, base: Url, lib: UrlLib, st: State)
    ensures Visit(v, base, lib, st).hasLoginForm == (st.hasLoginForm || IsLoginFormNode(v))
  {
  }

  /** One visit counts an anchor under the class `LinkKind` gives it. */
  lemma VisitLinks(v: Node, base: Url, lib: UrlLib, st: State)
    ensures var r := Visit(v, base, lib, st);
      && r.internalLinks == st.internalLinks + (if LinkKind(v, base, lib) == Some(true) then 1 else 0)
      && r.externalLinks == st.externalLinks + (if LinkKind(v, base, lib) == Some(false) then 1 else 0)
  {
  }

  /** One visit on the heading map: only the element's own lower-cased tag,
      and only when it is `h1`..`h6`, gains one. */
  lemma VisitHeadings(v: Node, base: Url, lib: UrlLib, st: State, k: string)
    ensures var r := Visit(v, base, lib, st);
      && Get(r.headings, k) == Get(st.headings, k) + (if IsHeadingTag(k) && IsElement(v, k) then 1 else 0)
      && (k in r.headings <==> k in st.headings || (IsHeadingTag(k) && IsElement(v, k)))
  {
  }

  // ---------------------------------------------------------------
  // The walk of a node list, field by field.

  /** The number of elements of `ns` whose lower-cased tag is `t`. */
  function CountTag(ns: seq<Node>, t: string): nat {
    if ns == [] then 0
    else CountTag(ns[..|ns| - 1], t) + (if IsElement(ns[|ns| - 1], t) then 1 else 0)
  }

  /** The number of anchors of `ns` counted as internal (or external). */
  function CountLinks(ns: seq<Node>, base: Url, lib: UrlLib, internal: bool): nat {
    if ns == [] then 0
    else CountLinks(ns[..|ns| - 1], base, lib, internal) + (if LinkKind(ns[|ns| - 1], base, lib) == Some(internal) then 1 else 0)
  }

  /** After visiting `ns`, the count under an `h1`..`h6` key has grown by the
      number of such elements, a key is present exactly when it was or such
      an element was seen, and every other key is as before. */
  lemma {:induction false} VisitAllHeadings(ns: seq<Node>, base: Url, lib: UrlLib, st: State, k: string)
    ensures var r := VisitAll(ns, base, lib, st);
      && Get(r.headings, k) == Get(st.headings, k) + (if IsHeadingTag(k) then CountTag(ns, k) else 0)
      && (k in r.headings <==> k in st.headings || (IsHeadingTag(k) && CountTag(ns, k) > 0))
    decreases |ns|
  {
    if ns != [] {
      var init := ns[..|ns| - 1];
      VisitAllHeadings(init, base, lib, st, k);
      VisitHeadings(ns[|ns| - 1], base, lib, VisitAll(init, base, lib, st), k);
    }
  }

  /** The link counters grow by the number of internal and external anchors. */
  lemma {:induction false} VisitAllLinks(ns: seq<Node>, base: Url, lib: UrlLib, st: State)
    ensures VisitAll(ns, base, lib, st).internalLinks == st.internalLinks + CountLinks(ns, base, lib, true)
    ensures VisitAll(ns, base, lib, st).externalLinks == st.externalLinks + CountLinks(ns, base, lib, false)
    decreases |ns|
  {
    if ns != [] {
      var init := ns[..|ns| - 1];
      VisitAllLinks(init, base, lib, st);
      VisitLinks(ns[|ns| - 1], base, lib, VisitAll(init, base, lib, st));
    }
  }

  /** The fields the walk never writes keep their values. */
  lemma {:induction false} VisitAllKeeps(ns: seq<Node>, base: Url, lib: UrlLib, st: State)
    ensures var r := VisitAll(ns, base, lib, st);
      r.url == st.url && r.inaccessibleLinks == st.inaccessibleLinks && r.error == st.error
    decreases |ns|
  {
    if ns != [] {
      var init := ns[..|ns| - 1];
      VisitAllKeeps(init, base, lib, st);
      VisitKeeps(ns[|ns| - 1], base, lib, VisitAll(init, base, lib, st));
    }
  }

  /** Some node of `ns` is a login form. */
  predicate SomeLoginForm(ns: seq<Node>) {
    exists i :: 0 <= i < |ns| && IsLoginFormNode(ns[i])
  }

  lemma SomeLoginFormStep(ns: seq<Node>)
    requires ns != []
    ensures SomeLoginForm(ns) == (SomeLoginForm(ns[..|ns| - 1]) || IsLoginFormNode(ns[|ns| - 1]))
  {
    var init := ns[..|ns| - 1];
    if SomeLoginForm(ns) {
      var i :| 0 <= i < |ns| && IsLoginFormNode(ns[i]);
      if i < |init| {
        assert init[i] == ns[i];
      }
    }
    if SomeLoginForm(init) {
      var i :| 0 <= i < |init| && IsLoginFormNode(init[i]);
      assert ns[i] == init[i];
    }
  }

  /** The login flag is raised exactly when it already was or some node is a
      login form; it is never lowered. */
  lemma {:induction false} VisitAllLogin(ns: seq<Node>, base: Url, lib: UrlLib, st: State)
    ensures VisitAll(ns, base, lib, st).hasLoginForm == (st.hasLoginForm || SomeLoginForm(ns))
    decreases |ns|
  {
    if ns == [] {
      assert !SomeLoginForm(ns);
    } else {
      var init := ns[..|ns| - 1];
      VisitAllLogin(init, base, lib, st);
      VisitLogin(ns[|ns| - 1], base, lib, VisitAll(init, base, lib, st));
      SomeLoginFormStep(ns);
    }
  }

  /** The last node of `ns` that sets a title decides it ... */
  lemma {:induction false} VisitAllTitleLastWins(ns: seq<Node>, base: Url, lib: UrlLib, st: State, i: nat)
    requires i < |ns| && TitleOf(ns[i]).Some?
    requires forall j :: i < j < |ns| ==> TitleOf(ns[j]).None?
    ensures VisitAll(ns, base, lib, st).title == TitleOf(ns[i]).value
    decreases |ns|
  {
    var init := ns[..|ns| - 1];
    VisitTitle(ns[|ns| - 1], base, lib, VisitAll(init, base, lib, st));
    if i < |init| {
      assert init[i] == ns[i];
      VisitAllTitleLastWins(init, base, lib, st, i);
    }
  }

  /** ... and when no node sets one the title is as before. */
  lemma {:induction false} VisitAllTitleUnchanged(ns: seq<Node>, base: Url, lib: UrlLib, st: State)
    requires forall j :: 0 <= j < |ns| ==> TitleOf(ns[j]).None?
    ensures VisitAll(ns, base, lib, st).title == st.title
    decreases |ns|
  {
    if ns != [] {
      var init := ns[..|ns| - 1];
      VisitTitle(ns[|ns| - 1], base, lib, VisitAll(init, base, lib, st));
      VisitAllTitleUnchanged(init, base, lib, st);
    }
  }

  /** The last doctype of `ns` decides the version ... */
  lemma {:induction false} VisitAllVersionLastWins(ns: seq<Node>, base: Url, lib: UrlLib, st: State, i: nat)
    requires i < |ns| && VersionOf(ns[i]).Some?
    requires forall j :: i < j < |ns| ==> VersionOf(ns[j]).None?
    ensures VisitAll(ns, base, lib, st).htmlVersion == VersionOf(ns[i]).value
    decreases |ns|
  {
    var init := ns[..|ns| - 1];
    VisitVersion(ns[|ns| - 1], base, lib, VisitAll(init, base, lib, st));
    if i < |init| {
      assert init[i] == ns[i];
      VisitAllVersionLastWins(init, base, lib, st, i);
    }
  }

  /** ... and without a doctype the version is as before. */
  lemma {:induction false} VisitAllVersionUnchanged(ns: seq<Node>, base: Url, lib: UrlLib, st: State)
    requires forall j :: 0 <= j < |ns| ==> VersionOf(ns[j]).None?
    ensures VisitAll(ns, base, lib, st).htmlVersion == st.htmlVersion
    decreases |ns|
  {
    if ns != [] {
      var init := ns[..|ns| - 1];
      VisitVersion(ns[|ns| - 1], base, lib, VisitAll(init, base, lib, st));
      VisitAllVersionUnchanged(init, base, lib, st);
    }
  }

  // ---------------------------------------------------------------
  // Counted links and extracted links.

  /** An anchor the extractor takes is also one `processLink` counts: both
      use the first `href` that parses, and the extractor's exact "a" is
      also "a" once lower-cased. */
  lemma ExtractedIsCounted(v: Node, base: Url, lib: UrlLib)
    requires LinkTarget(v, base, lib).Some?
    ensures LinkKind(v, base, lib).Some?
  {
    assert ToLower(v.data) == "a" by {
      assert ToLower(v.data)[0] == 'a';
    }
  }

  /** Hence there are never more extracted links than counted ones. */
  lemma {:induction false} ExtractedAtMostCounted(ns: seq<Node>, base: Url, lib: UrlLib)
    ensures |AnchorTargets(ns, base, lib)| <= CountLinks(ns, base, lib, true) + CountLinks(ns, base, lib, false)
    decreases |ns|
  {
    if ns != [] {
      ExtractedAtMostCounted(ns[..|ns| - 1], base, lib);
      if LinkTarget(ns[|ns| - 1], base, lib).Some? {
        ExtractedIsCounted(ns[|ns| - 1], base, lib);
      }
    }
  }

  /** A `mailto:` anchor (or any other whose resolved URL has no host and is
      not http or https) is counted as an external link, because its empty
      host differs from the page's, yet it is not extracted for checking. */
  lemma HostlessAnchorCountedNotExtracted(v: Node, base: Url, lib: UrlLib, href: string)
    requires v.kind == ElementNode && v.data == "a" && v.attr == [Attribute("href", href)]
    requires lib.parse(href).Some?
    requires var resolved := lib.resolve(base, lib.parse(href).value);
      resolved.host == "" && resolved.scheme == "mailto"
    requires base.host != ""
    ensures LinkKind(v, base, lib) == Some(false)
    ensures LinkTarget(v, base, lib) == None
  {
    assert ToLower(v.data) == "a" by {
      assert ToLower(v.data)[0] == 'a';
    }
    assert FirstHref(v.attr, lib) == lib.parse(href);
  }

  // ---------------------------------------------------------------
  // The whole analysis walk from a fresh result.

  /** What `traverseNode` leaves in a fresh result: the counters count the
      matching nodes of the whole tree, the login flag is the OR over all
      forms, the untouched fields keep their initial values, and the
      extracted links never outnumber the counted ones. */
  lemma AnalysisFacts(doc: Node, base: Url, lib: UrlLib, url: string)
    ensures var r := Traverse(doc, base, lib, Initial(url));
      && r.url == url && r.inaccessibleLinks == 0 && r.error == ""
      && r.internalLinks == CountLinks(Preorder(doc), base, lib, true)
      && r.externalLinks == CountLinks(Preorder(doc), base, lib, false)
      && r.hasLoginForm == SomeLoginForm(Preorder(doc))
      && |AnchorTargets(Preorder(doc), base, lib)| <= r.internalLinks + r.externalLinks
  {
    TraverseIsPreorderWalk(doc, base, lib, Initial(url));
    VisitAllKeeps(Preorder(doc), base, lib, Initial(url));
    VisitAllLinks(Preorder(doc), base, lib, Initial(url));
    VisitAllLogin(Preorder(doc), base, lib, Initial(url));
    ExtractedAtMostCounted(Preorder(doc), base, lib);
  }

  /** The heading map of a fresh analysis holds exactly the `h1`..`h6` tags
      that occur, each with its number of elements. */
  lemma AnalysisHeadings(doc: Node, base: Url, lib: UrlLib, url: string, k: string)
    ensures var r := Traverse(doc, base, lib, Initial(url));
      && Get(r.headings, k) == (if IsHeadingTag(k) then CountTag(Preorder(doc), k) else 0)
      && (k in r.headings <==> IsHeadingTag(k) && CountTag(Preorder(doc), k) > 0)
  {
    TraverseIsPreorderWalk(doc, base, lib, Initial(url));
    VisitAllHeadings(Preorder(doc), base, lib, Initial(url), k);
  }

  /** Without a doctype node the version stays empty, and without a titled
      `title` element so does the title. */
  lemma AnalysisUnsetFields(doc: Node, base: Url, lib: UrlLib, url: string)
    ensures var ns := Preorder(doc); var r := Traverse(doc, base, lib, Initial(url));
      && ((forall j :: 0 <= j < |ns| ==> VersionOf(ns[j]).None?) ==> r.htmlVersion == "")
      && ((forall j :: 0 <= j < |ns| ==> TitleOf(ns[j]).None?) ==> r.title == "")
  {
    var ns := Preorder(doc);
    TraverseIsPreorderWalk(doc, base, lib, Initial(url));
    if forall j :: 0 <= j < |ns| ==> VersionOf(ns[j]).None? {
      VisitAllVersionUnchanged(ns, base, lib, Initial(url));
    }
    if forall j :: 0 <= j < |ns| ==> TitleOf(ns[j]).None? {
      VisitAllTitleUnchanged(ns, base, lib, Initial(url));
    }
  }
}
