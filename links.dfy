/** The href-selection rule shared by `processLink` and
    `extractLinksFromNode`, and the link extractor. */
module Links {
  import opened Wrappers
  import opened Html
  import opened Urls

  /** The reference an attribute contributes: its parse when it is an `href`
      that parses, None otherwise. */
  function ParsedHref(a: Attribute, lib: UrlLib): Option<Url> {
    if a.key == "href" then lib.parse(a.val) else None
  }

  /** The first `href` attribute that parses, parsed; `href`s that do not
      parse are skipped, and None means no `href` parses. */
  function FirstHref(attrs: seq<Attribute>, lib: UrlLib): (r: Option<Url>)
    ensures r.None? <==> forall i :: 0 <= i < |attrs| ==> ParsedHref(attrs[i], lib).None?
    ensures r.Some? ==> exists i :: 0 <= i < |attrs| && ParsedHref(attrs[i], lib) == r &&
                                    NoParsedHrefBefore(attrs, lib, i)
  {
    if attrs == [] then None
    else if ParsedHref(attrs[0], lib).Some? then
      assert NoParsedHrefBefore(attrs, lib, 0);
      ParsedHref(attrs[0], lib)
    else
      var r := FirstHref(attrs[1..], lib);
      assert forall i :: 0 < i < |attrs| ==> attrs[i] == attrs[1..][i - 1];
      if r.Some? then
        var i :| 0 <= i < |attrs[1..]| && ParsedHref(attrs[1..][i], lib) == r && NoParsedHrefBefore(attrs[1..], lib, i);
        assert NoParsedHrefBefore(attrs, lib, i + 1);
        r
      else r
  }

  /** No attribute before index `i` is an `href` that parses. */
  predicate NoParsedHrefBefore(attrs: seq<Attribute>, lib: UrlLib, i: int)
    requires 0 <= i <= |attrs|
  {
    forall j :: 0 <= j < i ==> ParsedHref(attrs[j], lib).None?
  }

  /** The target `extractLinksFromNode` records for a node: only an element
      whose tag is exactly "a", whose first parsing `href` resolves against
      `base` to an http or https URL, contributes, and it contributes that
      URL's rendering. */
  function LinkTarget(v: Node, base: Url, lib: UrlLib): Option<string> {
    if v.kind == ElementNode && v.data == "a" then
      match FirstHref(v.attr, lib)
      case None => None
      case Some(ref) =>
        var resolved := lib.resolve(base, ref);
        if IsWebScheme(resolved.scheme) then Some(lib.render(resolved)) else None
    else None
  }

  /** The targets of the nodes of `ns`, in order, duplicates kept. */
  function AnchorTargets(ns: seq<Node>, base: Url, lib: UrlLib): seq<string> {
    if ns == [] then []
    else
      var last := ns[|ns| - 1];
      AnchorTargets(ns[..|ns| - 1], base, lib) +
        (match LinkTarget(last, base, lib) case Some(t) => [t] case None => [])
  }

  lemma {:induction false} AnchorTargetsAppend(a: seq<Node>, b: seq<Node>, base: Url, lib: UrlLib)
    ensures AnchorTargets(a + b, base, lib) == AnchorTargets(a, base, lib) + AnchorTargets(b, base, lib)
    decreases |b|
  {
    if b == [] {
      assert a + b == a;
    } else {
      var b' := b[..|b| - 1];
      assert (a + b)[..|a + b| - 1] == a + b';
      assert (a + b)[|a + b| - 1] == b[|b| - 1];
      AnchorTargetsAppend(a, b', base, lib);
    }
  }

  /** The target of every contributing node is extracted. */
  lemma {:induction false} AnchorTargetsHas(ns: seq<Node>, base: Url, lib: UrlLib, i: nat)
    requires i < |ns| && LinkTarget(ns[i], base, lib).Some?
    ensures LinkTarget(ns[i], base, lib).value in AnchorTargets(ns, base, lib)
    decreases |ns|
  {
    if i < |ns| - 1 {
      var init := ns[..|ns| - 1];
      assert init[i] == ns[i];
      AnchorTargetsHas(init, base, lib, i);
    }
  }

  /** Nothing else is extracted: each extracted string is the target of some node. */
  lemma {:induction false} AnchorTargetsFrom(ns: seq<Node>, base: Url, lib: UrlLib, x: string)
    requires x in AnchorTargets(ns, base, lib)
    ensures exists i :: 0 <= i < |ns| && LinkTarget(ns[i], base, lib) == Some(x)
    decreases |ns|
  {
    var init := ns[..|ns| - 1];
    if x in AnchorTargets(init, base, lib) {
      AnchorTargetsFrom(init, base, lib, x);
      var i :| 0 <= i < |init| && LinkTarget(init[i], base, lib) == Some(x);
      assert ns[i] == init[i];
    } else {
      assert LinkTarget(ns[|ns| - 1], base, lib) == Some(x);
    }
  }

  /** Anchors that resolve to different URLs are kept apart: when rendering
      tells URLs apart, both targets are extracted and they differ. */
  lemma DistinctTargetsKept(ns: seq<Node>, base: Url, lib: UrlLib, i: nat, j: nat)
    requires i < |ns| && j < |ns|
    requires LinkTarget(ns[i], base, lib).Some? && LinkTarget(ns[j], base, lib).Some?
    requires lib.resolve(base, FirstHref(ns[i].attr, lib).value) != lib.resolve(base, FirstHref(ns[j].attr, lib).value)
    requires forall u: Url, w: Url :: lib.render(u) == lib.render(w) ==> u == w
    ensures LinkTarget(ns[i], base, lib).value in AnchorTargets(ns, base, lib)
    ensures LinkTarget(ns[j], base, lib).value in AnchorTargets(ns, base, lib)
    ensures LinkTarget(ns[i], base, lib).value != LinkTarget(ns[j], base, lib).value
  {
    AnchorTargetsHas(ns, base, lib, i);
    AnchorTargetsHas(ns, base, lib, j);
  }

  /** Every extracted target is the rendering of an http or https URL. */
  lemma {:induction false} AnchorTargetsAreWeb(ns: seq<Node>, base: Url, lib: UrlLib, k: nat)
    requires k < |AnchorTargets(ns, base, lib)|
    ensures exists u: Url :: IsWebScheme(u.scheme) && AnchorTargets(ns, base, lib)[k] == lib.render(u)
    decreases |ns|
  {
    var init := ns[..|ns| - 1];
    if k < |AnchorTargets(init, base, lib)| {
      AnchorTargetsAreWeb(init, base, lib, k);
    } else {
      var last := ns[|ns| - 1];
      var ref := FirstHref(last.attr, lib).value;
      var u := lib.resolve(base, ref);
      assert AnchorTargets(ns, base, lib)[k] == lib.render(u);
    }
  }

  /** `extractLinksFromNode`: the targets of the subtree of `n`, in
      pre-order; the node's own target (when it has one) comes first, then
      those of each child's subtree in turn. */
  method ExtractLinksFromNode(n: Node, base: Url, lib: UrlLib) returns (links: seq<string>)
    ensures links == AnchorTargets(Preorder(n), base, lib)
    decreases n
  {
    links := OwnLinks(n, base, lib);
    var cs := n.children;
    var k := 0;
    assert [n] + PreorderForest(cs[..0]) == [n];
    while k < |cs|
      invariant k <= |cs|
      invariant links == AnchorTargets([n] + PreorderForest(cs[..k]), base, lib)
    {
      ghost var next := AnchorTargets([n] + PreorderForest(cs[..k + 1]), base, lib);
      TargetsStep(n, k, base, lib);
      var sub := ExtractLinksFromNode(cs[k], base, lib);
      links := links + sub;
      assert links == next;
      k := k + 1;
      assert next == AnchorTargets([n] + PreorderForest(cs[..k]), base, lib);
    }
    assert links == AnchorTargets(Preorder(n), base, lib) by {
      assert cs[..k] == cs;
    }
  }

  /** The part of `extractLinksFromNode` before it descends: the node's own
      target, if any. */
  method OwnLinks(n: Node, base: Url, lib: UrlLib) returns (links: seq<string>)
    ensures links == AnchorTargets([n], base, lib)
  {
    links := [];
    if n.kind == ElementNode && n.data == "a" {
      var target := AnchorTarget(n, base, lib);
      if target.Some? {
        links := links + [target.value];
      }
    }
    AnchorTargetsOne(n, base, lib);
  }

  /** One more child walked adds the targets of its subtree. */
  lemma TargetsStep(n: Node, k: nat, base: Url, lib: UrlLib)
    requires k < |n.children|
    ensures AnchorTargets([n] + PreorderForest(n.children[..k + 1]), base, lib) ==
              AnchorTargets([n] + PreorderForest(n.children[..k]), base, lib) + AnchorTargets(Preorder(n.children[k]), base, lib)
  {
    ForestStep(n.children, k);
    assert [n] + PreorderForest(n.children[..k + 1]) ==
           ([n] + PreorderForest(n.children[..k])) + Preorder(n.children[k]);
    AnchorTargetsAppend([n] + PreorderForest(n.children[..k]), Preorder(n.children[k]), base, lib);
  }

  lemma AnchorTargetsOne(v: Node, base: Url, lib: UrlLib)
    ensures AnchorTargets([v], base, lib) ==
              if LinkTarget(v, base, lib).Some? then [LinkTarget(v, base, lib).value] else []
  {
    assert [v][..0] == [];
  }

  /** The attribute loop of `extractLinksFromNode` for an anchor: the first
      `href` that parses decides, and it yields a target only when it
      resolves to an http or https URL. */
  method AnchorTarget(n: Node, base: Url, lib: UrlLib) returns (target: Option<string>)
    requires n.kind == ElementNode && n.data == "a"
    ensures target == LinkTarget(n, base, lib)
  {
    target := None;
    var i := 0;
    while i < |n.attr|
      invariant i <= |n.attr|
      invariant NoParsedHrefBefore(n.attr, lib, i)
    {
      var attr := n.attr[i];
      if attr.key == "href" {
        var linkURL := lib.parse(attr.val);
        if linkURL.None? {
          i := i + 1;
          continue;
        }
        FirstHrefAt(n.attr, lib, i);
        var resolvedURL := lib.resolve(base, linkURL.value);
        if resolvedURL.scheme == "http" || resolvedURL.scheme == "https" {
          target := Some(lib.render(resolvedURL));
        }
        return;
      }
      i := i + 1;
    }
  }

  /** The first `href` that parses is the one at `i` when none before it
      does. */
  lemma {:induction false} FirstHrefAt(attrs: seq<Attribute>, lib: UrlLib, i: nat)
    requires i < |attrs| && ParsedHref(attrs[i], lib).Some? && NoParsedHrefBefore(attrs, lib, i)
    ensures FirstHref(attrs, lib) == ParsedHref(attrs[i], lib)
    decreases i
  {
    if i > 0 {
      assert NoParsedHrefBefore(attrs[1..], lib, i - 1) by {
        assert forall j :: 0 <= j < i - 1 ==> attrs[1..][j] == attrs[j + 1];
      }
      FirstHrefAt(attrs[1..], lib, i - 1);
    }
  }

  /** `extractLinks`: the targets of the whole document, in pre-order. */
  method ExtractLinks(doc: Node, base: Url, lib: UrlLib) returns (links: seq<string>)
    ensures links == AnchorTargets(Preorder(doc), base, lib)
  {
    links := ExtractLinksFromNode(doc, base, lib);
  }
}
