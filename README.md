# web-analyzer page-analysis engine, in Dafny

This project models the page-analysis engine of the Go service
`web-analyzer` and proves properties of the model. The engine takes a page
address, normalizes it and fetches and parses the page. It then:

- walks the parsed tree once in depth-first pre-order (`traverseNode`) and
  fills a `Result` with:
  - the document version;
  - the title;
  - heading counts;
  - internal and external link counts;
  - the login-form flag;
- extracts the page's http/https link targets (`extractLinksFromNode`);
- probes them with a bounded worker pool (`checkLinksAccessibility`) and
  counts the inaccessible ones.

The status-class label of the metrics middleware (`getStatusClass`) is
modelled beside it.

The modules follow the program's structure:

- **`Html`** (`html.dfy`): the parser's node tree, and its pre-order.
- **`AsciiStrings`**: the `strings` helpers the analyzer calls (`ToLower`,
  `TrimSpace`, `Contains`).
- **`Urls`**: `net/url` as an oracle record. It has `parse`, `resolve` and
  `render`. A URL has its scheme and its host, which the analyzer compares,
  and the rest (path, query, fragment), which only `render` reads. So
  anchors to different paths on one host can give different targets.
- **`HtmlVersion`**: `detectHTMLVersion`.
- **`LoginForm`**: `isLoginForm` and `checkFormFields`. The two `*bool`
  flags are a class `FieldFlags`, and the walk is a recursive method.
- **`Links`**: the href-selection rule and `extractLinks` /
  `extractLinksFromNode`.
- **`Document`**: what `traverseNode` does, as functions on a `State` value
  (a snapshot of the `Result` fields):
  - the visit of one node;
  - the walk of a tree;
  - the proof that the walk is the visit of the pre-order list;
  - field-by-field lemmas about the result.
- **`Analyzer`**:
  - the `Result` class, updated in place;
  - the methods `ProcessLink`, `VisitNode`, `TraverseNode`,
    `AnalyzeDocument` and `AnalyzeURL`, each proved against the `Document`
    functions;
  - the address normalization.
- **`LinkChecker`**: `checkLinksAccessibility` as a sequential abstraction
  of the worker pool, and the status rule of `checkSingleLink`.
- **`StatusClass`**: `getStatusClass`.

Oracles stand in for what the model cannot see:

- **URL handling:** `UrlLib`. `parse` is `url.Parse`, with None for a parse
  error. `resolve` is `ResolveReference`. `render` is `URL.String`.
- **Fetching:** `fetch: string -> Option<Node>` stands for `fetchHTML`, that
  is the GET, the status-200 test and `html.Parse`. None means any of them
  failed.
- **Network:** `Network`.
  - `probe(i, link)` is the outcome of the HEAD request for the `i`-th link:
    the request cannot be built, the transport fails, or a final status
    arrives.
  - `budget` is the number of jobs the sender dispatches before the context
    is cancelled.

### Where the code does something a reader might not expect

The model follows the code in each of these places:

- **Heading map.** One might expect all six heading levels, present with 0
  when unseen. The code starts from an empty map and only adds the
  `h1`..`h6` keys it sees (analyzer.go:43, 172-175). `AnalysisHeadings`
  proves this.
- **Non-web anchors.** One might expect anchors with non-http(s) schemes
  (`mailto:`, `javascript:`) to touch neither link counter. `processLink`
  has no scheme filter, so they are counted. They normally count as
  external, because their host is empty (analyzer.go:195-216).
  `HostlessAnchorCountedNotExtracted` shows this.
- **Link targets.** One might expect a set of distinct link targets. The
  code keeps one entry per anchor, duplicates included (analyzer.go:308).
- **Missing doctype.** One might expect a page without a doctype to be
  HTML5. The code leaves `HTMLVersion` as `""` when no doctype node is met
  (analyzer.go:41-44, 184-186). `AnalysisUnsetFields` proves this.
- **Worker count.** One might expect at least one worker for a non-empty
  list. The code takes `MaxWorkers` as given. With `MaxWorkers <= 0` it
  starts no worker, collects no result and reports 0 inaccessible links
  (analyzer.go:326-329, 352). `NothingToCheck` states this.

## Model

Paths are relative to the repository root.

| member | source | states |
|---|---|---|
| AsciiStrings.ToLower | pkg/analyzer/analyzer.go:166 | lower-casing keeps the length; ASCII letters only |
| AsciiStrings.TrimSpace | pkg/analyzer/analyzer.go:169 | the result is a contiguous slice of the input, framed by white space only, that neither starts nor ends with white space |
| AsciiStrings.TrimLeftShape | pkg/analyzer/analyzer.go:271 | left trimming removes exactly a white-space prefix and stops at the first other character |
| AsciiStrings.TrimRightShape | pkg/analyzer/analyzer.go:271 | right trimming removes exactly a white-space suffix |
| AsciiStrings.ContainsAt | pkg/analyzer/analyzer.go:256-257 | `Contains(s, sub)` holds iff `sub` occurs at some index of `s` |
| AsciiStrings.ContainsShorter | pkg/analyzer/analyzer.go:277 | a string never contains a longer one |
| AsciiStrings.ToLowerIdempotent | pkg/analyzer/analyzer.go:271 | lower-casing twice is lower-casing once |
| AsciiStrings.TrimSpaceLower | pkg/analyzer/analyzer.go:271 | trimming and lower-casing commute |
| AsciiStrings.TrimSpaceSurrounded | pkg/analyzer/analyzer.go:271 | extra white space around a string does not change its trimming |
| Html.Preorder | pkg/analyzer/analyzer.go:189-191 | the pre-order of a tree starts with its root |
| Html.ChildInPreorder | pkg/analyzer/analyzer.go:189-191 | the subtree of every child lies within the pre-order of its parent |
| Html.ForestStep | pkg/analyzer/analyzer.go:189-191 | walking one more child appends that child's pre-order |
| HtmlVersion.DetectHTMLVersion | pkg/analyzer/analyzer.go:270-286 | the label is always one of "HTML5", "XHTML", "HTML 4.01" |
| HtmlVersion.DetectCharacterization | pkg/analyzer/analyzer.go:270-286 | XHTML iff the normalized doctype contains "xhtml"; HTML 4.01 iff it contains "html 4" but not "xhtml"; HTML5 iff it contains neither (the exact-"html" test only agrees with the default) |
| HtmlVersion.DetectIgnoresCase | pkg/analyzer/analyzer.go:271 | the label does not depend on letter case |
| HtmlVersion.DetectIgnoresSurroundingSpace | pkg/analyzer/analyzer.go:271 | the label does not depend on white space around the doctype |
| HtmlVersion.DetectPlainHtml | pkg/analyzer/analyzer_test.go:253 | "html" is HTML5 |
| HtmlVersion.DetectUpperHtml | pkg/analyzer/analyzer_test.go:254 | "HTML" is HTML5 |
| HtmlVersion.DetectPaddedHtml | pkg/analyzer/analyzer_test.go:255 | "  html  " is HTML5 |
| HtmlVersion.DetectXhtmlDoctype | pkg/analyzer/analyzer_test.go:259 | the XHTML 1.1 doctype literal is XHTML |
| HtmlVersion.DetectHtml401 | pkg/analyzer/analyzer_test.go:256 | the HTML 4.01 strict doctype literal is HTML 4.01 |
| HtmlVersion.XhtmlDoctypeLower | pkg/analyzer/analyzer.go:271 | the lower-cased XHTML 1.1 literal has "xhtml" at index 25 |
| StatusClass.GetStatusClass | internal/middleware/metrics_middleware.go:36-47 | the label is always one of the four labels |
| StatusClass.StatusClassByHundreds | internal/middleware/metrics_middleware.go:36-47 | for codes >= 0: success iff the hundreds digit is 2, client_error iff 4, server_error iff 5 or more, unknown iff 0, 1 or 3; every negative code is unknown |
| LoginForm.LastAttrLowerWins | pkg/analyzer/analyzer.go:241-248 | with duplicate attributes, the last one of the key decides the lower-cased value |
| LoginForm.LastAttrLowerAbsent | pkg/analyzer/analyzer.go:238-239 | without an attribute of the key the value stays "" |
| LoginForm.InputAttributes | pkg/analyzer/analyzer.go:238-248 | the attribute loop yields the lower-cased value of the last `type` and the last `name` attribute |
| LoginForm.CheckInput | pkg/analyzer/analyzer.go:237-262 | one node raises the password flag iff it is a password input, and the username flag iff it is a text/email/untyped input with a user-like name; a raised flag stays raised |
| LoginForm.CheckFormFields | pkg/analyzer/analyzer.go:236-267 | after the walk each flag is its old value OR'd with "some node of the subtree, the root included, is an input of that kind" |
| LoginForm.PreorderFields | pkg/analyzer/analyzer.go:264-266 | a subtree has a field iff its root is one or one child's subtree has one |
| LoginForm.FieldsAppend | pkg/analyzer/analyzer.go:264-266 | a field occurs in a concatenation of node lists iff it occurs in one of the parts |
| LoginForm.IsLoginForm | pkg/analyzer/analyzer.go:219-233 | the form is a login form iff its subtree has both a password input and a username input |
| LoginForm.PasswordIsNotUsername | pkg/analyzer/analyzer.go:250-261 | an input never counts as both the password and the username field |
| LoginForm.ImplicitTypeIsText | pkg/analyzer/analyzer_test.go:310-315 | an input without a `type` attribute and with a user-like name is a username field |
| LoginForm.ChildFieldsMakeLoginForm | pkg/analyzer/analyzer_test.go:281-315 | a form with a username input and a password input among its children is a login form |
| Links.FirstHref | pkg/analyzer/analyzer.go:196-214 | None iff no `href` attribute parses; otherwise the parse of an `href` that parses, with none parsing before it |
| Links.FirstHrefAt | pkg/analyzer/analyzer.go:196-214 | the `href` at index i decides when it parses and none before it does |
| Links.AnchorTarget | pkg/analyzer/analyzer.go:299-312 | the attribute loop over an anchor yields the target `LinkTarget` defines |
| Links.OwnLinks | pkg/analyzer/analyzer.go:298-313 | a node contributes its own target, exactly when it has one |
| Links.ExtractLinksFromNode | pkg/analyzer/analyzer.go:297-318 | the result is the target list of the subtree's nodes in pre-order |
| Links.ExtractLinks | pkg/analyzer/analyzer.go:289-294 | the result is the target list of the whole document in pre-order |
| Links.AnchorTargetsAppend | pkg/analyzer/analyzer.go:315-317 | the targets of a concatenation are the concatenation of the targets |
| Links.TargetsStep | pkg/analyzer/analyzer.go:315-317 | walking one more child appends the targets of its subtree |
| Links.AnchorTargetsOne | pkg/analyzer/analyzer.go:298-313 | a single node contributes exactly its target, if it has one |
| Links.AnchorTargetsHas | pkg/analyzer/analyzer.go:297-318 | every target of a node is in the list |
| Links.AnchorTargetsFrom | pkg/analyzer/analyzer.go:297-318 | every entry of the list is the target of some node |
| Links.DistinctTargetsKept | pkg/analyzer/analyzer_test.go:453-481 | two anchors that resolve to different URLs are both extracted, as different strings, when rendering tells URLs apart |
| Links.AnchorTargetsAreWeb | pkg/analyzer/analyzer.go:307-308 | every entry is the rendering of an http or https URL |
| Document.ProcessLinkSpec | pkg/analyzer/analyzer.go:195-216 | without an `href` that parses nothing changes; otherwise exactly one counter grows by one, the internal one iff the resolved host equals the base host, and no other field changes |
| Document.VisitAllAppend | pkg/analyzer/analyzer.go:189-191 | visiting a concatenation is visiting the parts in order |
| Document.TraverseIsPreorderWalk | pkg/analyzer/analyzer.go:164-192 | the walk visits every node exactly once, in depth-first pre-order |
| Document.TraverseChildrenIsForestWalk | pkg/analyzer/analyzer.go:189-191 | walking the children in order visits their pre-orders in order |
| Document.VisitKeeps | pkg/analyzer/analyzer.go:165-187 | one visit never writes the url, the inaccessible count or the error |
| Document.VisitTitle | pkg/analyzer/analyzer.go:167-171 | a `title` element whose first child is text sets the trimmed text; any other node leaves the title unchanged |
| Document.VisitVersion | pkg/analyzer/analyzer.go:184-186 | the version changes only at a doctype node |
| Document.VisitLogin | pkg/analyzer/analyzer.go:178-182 | the flag is raised at a login form and never lowered |
| Document.VisitLinks | pkg/analyzer/analyzer.go:176-177 | one visit counts an anchor as `LinkKind` classifies it |
| Document.VisitHeadings | pkg/analyzer/analyzer.go:172-175 | only the element's own `h1`..`h6` tag gains one; no other key is inserted or changed |
| Document.VisitAllHeadings | pkg/analyzer/analyzer.go:172-175 | each `h1`..`h6` count grows by the number of such elements; a key is present iff it was before or such an element was seen |
| Document.VisitAllLinks | pkg/analyzer/analyzer.go:195-216 | the counters grow by the numbers of internal and external anchors |
| Document.VisitAllKeeps | pkg/analyzer/analyzer.go:164-192 | the walk keeps the url, the inaccessible count and the error |
| Document.SomeLoginFormStep | pkg/analyzer/analyzer.go:178-182 | a list holds a login form iff its prefix does or its last node is one |
| Document.VisitAllLogin | pkg/analyzer/analyzer.go:178-182 | the flag ends up as its old value OR'd with "some form in the list is a login form" |
| Document.VisitAllTitleLastWins | pkg/analyzer/analyzer.go:167-171 | the last titled `title` element in pre-order decides the title |
| Document.VisitAllTitleUnchanged | pkg/analyzer/analyzer.go:167-171 | without a titled `title` element the title keeps its value |
| Document.VisitAllVersionLastWins | pkg/analyzer/analyzer.go:184-186 | the last doctype in pre-order decides the version |
| Document.VisitAllVersionUnchanged | pkg/analyzer/analyzer.go:184-186 | without a doctype the version keeps its value |
| Document.ExtractedIsCounted | pkg/analyzer/analyzer.go:176-177 | an anchor the extractor takes is also counted by `processLink` |
| Document.ExtractedAtMostCounted | pkg/analyzer/analyzer.go:297-318 | there are never more extracted links than internal plus external links |
| Document.HostlessAnchorCountedNotExtracted | pkg/analyzer/analyzer.go:206-212 | a `mailto:` anchor with an empty resolved host counts as external but is not extracted |
| Document.AnalysisFacts | pkg/analyzer/analyzer.go:41-44 | from a fresh result the counters count the whole tree, the login flag is the OR over all forms, url/inaccessible/error keep their initial values, and extracted <= counted |
| Document.AnalysisHeadings | pkg/analyzer/analyzer.go:43 | the heading map holds exactly the `h1`..`h6` tags that occur, each with its number of elements |
| Document.AnalysisUnsetFields | pkg/analyzer/analyzer.go:184-186 | without a doctype the version stays "", and without a titled `title` the title stays "" |
| Analyzer.Result.constructor | pkg/analyzer/analyzer.go:41-44 | a fresh result holds the url, an empty heading map, and zero values elsewhere |
| Analyzer.ProcessLink | pkg/analyzer/analyzer.go:195-216 | the in-place update is the one `ProcessLinkSpec` describes |
| Analyzer.VisitNode | pkg/analyzer/analyzer.go:165-187 | the in-place update at one node is `Visit` |
| Analyzer.TraverseNode | pkg/analyzer/analyzer.go:164-192 | the in-place update of the walk is `Traverse`, that is the visit of the pre-order |
| Analyzer.AnalyzeDocument | pkg/analyzer/analyzer.go:153-161 | the in-place update is the walk from the document node |
| Analyzer.Normalize | pkg/analyzer/analyzer.go:47-61 | the address kept parses to the URL kept; it is the input iff the input parses with a scheme, and otherwise it is "http://" plus the input; None iff the input does not parse, or it has no scheme and the prefixed address does not parse |
| Analyzer.AnalyzeURL | pkg/analyzer/analyzer.go:36-112 | an invalid address or a failed fetch gives that failure and no result; otherwise a fresh result whose fields are normalize, walk, extract, then count the inaccessible links when there are any |
| Analyzer.AnalysisConsistent | pkg/analyzer/analyzer.go:74-95 | a successful analysis has the normalized url, no error, and 0 <= inaccessible <= extracted links <= internal + external |
| LinkChecker.CheckSingleLink | pkg/analyzer/analyzer.go:420-445 | a link is accessible iff a response arrives whose status has the "success" label or is a 3xx redirect; a request that cannot be built or a transport failure is inaccessible |
| LinkChecker.AccessibleVersusStatusClass | pkg/analyzer/analyzer.go:436 | accessible iff a response with label "success" or a 3xx status; every 3xx is accessible though its label is "unknown"; without a response a link is inaccessible; client and server errors are not accessible |
| LinkChecker.WorkerCount | pkg/analyzer/analyzer.go:326-329 | the pool is min(MaxWorkers, number of links), and at least one when both are positive |
| LinkChecker.Checked | pkg/analyzer/analyzer.go:322-324 | the number of checked links is at most the list length, and positive iff the list, the pool and the dispatch budget all are |
| LinkChecker.CountFalse | pkg/analyzer/analyzer.go:399-406 | the count of false verdicts never exceeds their number |
| LinkChecker.CountFalseIsMultiplicity | pkg/analyzer/analyzer.go:399-406 | the count is the multiplicity of `false` in the bag of verdicts |
| LinkChecker.CountFalseOrderFree | pkg/analyzer/analyzer.go:399-406 | the count does not depend on the order in which results arrive |
| LinkChecker.CountFalseZero | pkg/analyzer/analyzer.go:399-406 | the count is 0 iff every verdict is true |
| LinkChecker.RunWorkers | pkg/analyzer/analyzer.go:347-396 | the results are the verdicts on the dispatched prefix, one each, as a bag |
| LinkChecker.CollectResults | pkg/analyzer/analyzer.go:399-406 | the collector counts every false result and processes every result |
| LinkChecker.CheckLinksAccessibility | pkg/analyzer/analyzer.go:321-417 | the result is the number of false verdicts among the dispatched links, between 0 and the number of links |
| LinkChecker.NothingToCheck | pkg/analyzer/analyzer.go:322-324 | an empty list, or MaxWorkers <= 0, gives 0 |
| LinkChecker.AllCheckedWithoutCancellation | pkg/analyzer/analyzer.go:380-390 | without cancellation and with at least one worker every link is checked exactly once |
| LinkChecker.AllAccessible | pkg/analyzer/analyzer_test.go:702-719 | when every probe succeeds the count is 0 |
| LinkChecker.AllFalse | pkg/analyzer/analyzer.go:403-405 | a list of false verdicts counts all of them |
| LinkChecker.AllInaccessible | pkg/analyzer/analyzer.go:399-406 | when every probe fails every dispatched link is counted |

## Left out

- Strings. `AsciiStrings.ToLower` and `AsciiStrings.TrimSpace` handle ASCII
  only. Go's `strings.ToLower` and `strings.TrimSpace` are Unicode-aware.
  Non-ASCII letters and Unicode spaces (U+0085, U+00A0 and others) are not
  modelled.
- Integers. Go's `int` counters are unbounded here, because a page cannot
  hold 2^63 anchors.
- HTML parsing. `html.Parse` is not modelled; the tree is an input.
  `fetchHTML` is the `fetch` oracle. A non-200 status, a transport error and
  a parse error are all its None, and the model does not keep the error text
  `AnalyzeURL` wraps.
- URL parsing and resolution. `net/url` is the `UrlLib` oracle, and the
  model fixes no URL grammar.
- HTTP requests and `New`. The HTTP client construction in `New` and
  `checkLinksAccessibility` is left out, with its timeouts and
  redirect-limit closures. The HEAD request of `checkSingleLink` is left out
  too; its outcomes are `LinkChecker.Probe` values supplied by the
  `Network` oracle.
- Concurrency. The goroutines, channels and `WaitGroup` of
  `checkLinksAccessibility` are modelled sequentially:
  - the sender's cancellation is the dispatch budget, so a prefix of the
    links is checked;
  - each dispatched job is checked once when there is a worker;
  - the collector takes the results in an unspecified order, through a
    choice from a bag.

  Interleavings, timing and the per-worker split of jobs are not modelled.
- Logging and timing. All `slog` logging and all timing (`time.Now`,
  `time.Since`) are side effects with no behaviour.
- The request context. The `ctx` of `AnalyzeURL` is not a modelled value.
  A cancelled or timed-out `ctx` makes `fetchHTML` fail (analyzer.go:66,
  118); the model captures this only because `fetch` may return None. In the
  link checker it shows up as the dispatch `budget` and as `TransportError`
  probes.
- `Links.ExtractLinksFromNode`: Go appends to one slice through a pointer.
  The model returns each subtree's list and lets the caller append it. The
  resulting list is the same: the targets in pre-order.
- LinkChecker: `results` in `checkLinksAccessibility` is modelled as a bag
  of booleans, not a channel. The `processed` counter is kept but only
  logged in Go.
- Metrics middleware. The Prometheus middleware closure and the metric
  registration are left out. Only `getStatusClass` is modelled.
- HTTP plumbing and configuration. The HTTP handlers, the server, the
  configuration loading and the other middlewares are not part of this
  model.
