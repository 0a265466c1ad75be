/**
  The plugin as src/index.ts builds it: one combined global pattern, taken
  leftmost first with its alternatives in the order written; a `replace`
  callback that builds one node per match from a few mutable locals; and a
  splice that happens only when the rebuilt sequence is non-empty.
 */
module SrcPlugin {
  import opened Wrappers
  import opened Ascii
  import opened Slug
  import opened Display
  import opened Mdast
  import opened Tokens
  import opened Cursor

  /** The options record after the defaults are merged in. */
  datatype Options = Options(enableIcanCheck: bool, enableSkippingIcanCheck: bool, linkNetworks: bool)

  const Defaults: Options := Options(true, true, true)

  /** `chooseNetwork`: the lower-cased code when it is one of the three, `cb` otherwise or when absent. */
  function ChooseNetwork(network: Option<string>): (r: string)
    ensures r in {"cb", "ab", "ce"}
    ensures network.None? || network.value == "" ==> r == "cb"
    ensures network.Some? && Lower(network.value) in {"cb", "ab", "ce"} ==> r == Lower(network.value)
    ensures network.Some? && Lower(network.value) !in {"cb", "ab", "ce"} ==> r == "cb"
  {
    if network.None? || network.value == "" then "cb"
    else
      var code := Lower(network.value);
      if code == "cb" then "cb"
      else if code == "ab" then "ab"
      else if code == "ce" then "ce"
      else "cb"
  }

  /** An address of 44 characters shortened after upper-casing: its first four and last four characters, upper-cased. */
  lemma ShortenedAddress(p: string)
    ensures |p| == 44 ==> ShortenId(Upper(p)) == Upper(p[..4]) + [Ellipsis] + Upper(p[40..])
  {
    var u := Upper(p);
    if |p| == 44 {
      assert u[..4] == Upper(p[..4]) && u[40..] == Upper(p[40..]);
    }
  }

  /** A hash of 66 characters shortened after upper-casing all but its `0x`. */
  lemma ShortenedHash(p: string)
    ensures |p| == 66 ==>
      ShortenHash(Head(p, 2) + Upper(Drop(p, 2))) == p[..2] + Upper(p[2..6]) + [Ellipsis] + Upper(p[62..])
  {
    var x := Head(p, 2) + Upper(Drop(p, 2));
    if |p| == 66 {
      assert |x| == 66;
      assert x[..6] == p[..2] + Upper(p[2..6]);
      assert x[62..] == Upper(p[62..]);
    }
  }

  /** The display name of a match before any network prefix. */
  function DisplayName(h: Hit): (r: string)
    ensures h.kind == Address && IsAddressPayload(h.payload) ==>
      r == Upper(h.payload[..4]) + [Ellipsis] + Upper(h.payload[40..])
    ensures h.kind == BlockNumber && |h.payload| <= 9 ==> r == h.payload
    ensures h.kind == BlockNumber && |h.payload| > 9 ==>
      r == h.payload[..4] + [Ellipsis] + h.payload[|h.payload| - 4..]
    ensures h.kind == BlockHash && IsHashPayload(h.payload) ==>
      r == h.payload[..2] + Upper(h.payload[2..6]) + [Ellipsis] + Upper(h.payload[62..])
  {
    match h.kind
    case Address => ShortenedAddress(h.payload); ShortenId(Upper(h.payload))
    case BlockNumber => ShortenBlock(h.payload)
    case BlockHash => ShortenedHash(h.payload); ShortenHash(Head(h.payload, 2) + Upper(Drop(h.payload, 2)))
  }

  function TypeLink(k: Kind): string {
    if k == Address then "address" else "block"
  }

  /** The explorer of a linked network. */
  function ExplorerOf(network: string): string {
    if network == "cb" then "https://blockindex.net/" else "https://xab.blockindex.net/"
  }

  /** The checksum rejects an address that is subject to the check; nothing else is ever invalid. */
  predicate IcanRejects(h: Hit, opts: Options, isValid: string -> bool) {
    h.kind == Address && opts.enableIcanCheck
    && !(opts.enableSkippingIcanCheck && h.skip)
    && !isValid(h.payload)
  }

  /** The network is linked: `cb` or `ab` with `linkNetworks` on. */
  predicate Linked(h: Hit, opts: Options) {
    opts.linkNetworks && ChooseNetwork(h.network) in {"cb", "ab"}
  }

  /** The title of a link: the display name, prefixed by `ab:` on the test network. */
  function Shown(network: string, display: string): string {
    if network == "cb" then display else network + ":" + display
  }

  /**
    The node the callback makes for one match, as a decision table: struck
    text for a rejected address, an explorer link for a linked network (with
    an `ab:` prefix for `ab`), and a reference pair for any other network.
   */
  function SrcNode(h: Hit, opts: Options, isValid: string -> bool): Node {
    var network := ChooseNetwork(h.network);
    if IcanRejects(h, opts, isValid) then
      MakeStrikethrough(DisplayName(h) + "@cb")
    else if Linked(h, opts) then
      var shown := Shown(network, DisplayName(h));
      MakeLink(ExplorerOf(network) + TypeLink(h.kind) + "/" + h.payload, shown + "@cb", shown)
    else
      MakeReference(Slugify(network + "-" + DisplayName(h)), network + ":" + DisplayName(h) + "@cb")
  }

  /**
    The body of the `replace` callback after the gap: it picks the network,
    fills `displayName`, `typeLink` and `valid` by the kind of match, then
    `link` or `slugifiedName` by the network, and pushes one node.
   */
  method MatchNode(h: Hit, opts: Options, isValid: string -> bool) returns (node: Node)
    ensures node == SrcNode(h, opts, isValid)
  {
    var network := ChooseNetwork(h.network);
    var willSkip := if opts.enableSkippingIcanCheck then h.skip else false;
    var id := h.payload;
    var displayName: string;
    var typeLink: string;
    var link: string := "";
    var slugifiedName: string := "";
    var valid := true;
    match h.kind {
      case Address =>
        displayName := ShortenId(Upper(id));
        typeLink := "address";
        if opts.enableIcanCheck && !willSkip && !isValid(id) {
          valid := false;
        }
      case BlockNumber =>
        displayName := ShortenBlock(id);
        typeLink := "block";
      case BlockHash =>
        displayName := ShortenHash(Head(id, 2) + Upper(Drop(id, 2)));
        typeLink := "block";
    }
    if valid && network == "cb" && opts.linkNetworks {
      link := "https://blockindex.net/" + typeLink + "/" + id;
    } else if valid && network == "ab" && opts.linkNetworks {
      link := "https://xab.blockindex.net/" + typeLink + "/" + id;
      displayName := network + ":" + displayName;
    } else if valid {
      slugifiedName := Slugify(network + "-" + displayName);
      displayName := network + ":" + displayName;
    }
    if valid && link != "" {
      node := MakeLink(link, displayName + "@cb", displayName);
    } else if valid {
      node := MakeReference(slugifiedName, displayName + "@cb");
    } else {
      node := MakeStrikethrough(displayName + "@cb");
    }
  }

  /**
    Which node a match becomes: struck text exactly when the checksum rejects
    it (never for a block number or hash), shown struck through without
    network prefix or link, otherwise a link exactly when its
    network is linked, and otherwise a reference pair.
   */
  lemma NodeKind(h: Hit, opts: Options, isValid: string -> bool)
    ensures SrcNode(h, opts, isValid).Text? <==> IcanRejects(h, opts, isValid)
    ensures SrcNode(h, opts, isValid).Link? <==> !IcanRejects(h, opts, isValid) && Linked(h, opts)
    ensures SrcNode(h, opts, isValid).Paragraph? <==> !IcanRejects(h, opts, isValid) && !Linked(h, opts)
    ensures h.kind != Address ==> !SrcNode(h, opts, isValid).Text?
    ensures IcanRejects(h, opts, isValid) ==> SrcNode(h, opts, isValid) == Text("~~" + DisplayName(h) + "@cb~~")
  {
    if IcanRejects(h, opts, isValid) {
    } else if Linked(h, opts) {
      assert SrcNode(h, opts, isValid).Link?;
    } else {
      assert SrcNode(h, opts, isValid).Paragraph?;
    }
  }

  /**
    A valid match on a linked network becomes a link to the explorer path
    `<address|block>/<payload as typed>`, whose text is its title followed by
    `@cb`; the title carries an `ab:` prefix exactly on the test network. The
    payload of every hit of the pattern is non-empty, so the title is too.
   */
  lemma LinkShape(h: Hit, opts: Options, isValid: string -> bool)
    requires |h.payload| > 0
    requires !IcanRejects(h, opts, isValid) && Linked(h, opts)
    ensures var n := SrcNode(h, opts, isValid);
      var network := ChooseNetwork(h.network);
      n.Link? && n.url == ExplorerOf(network) + TypeLink(h.kind) + "/" + h.payload
      && n.title.Some? && n.children == [Text(n.title.value + "@cb")]
      && n.title.value == (if network == "ab" then "ab:" + DisplayName(h) else DisplayName(h))
  {
    DisplayNonEmpty(h);
    LinkBranch(h, opts, isValid);
    ShownOnLinked(ChooseNetwork(h.network), DisplayName(h));
  }

  lemma DisplayNonEmpty(h: Hit)
    requires |h.payload| > 0
    ensures |DisplayName(h)| > 0
  {
    match h.kind {
      case Address =>
      case BlockNumber =>
      case BlockHash =>
    }
  }

  lemma LinkBranch(h: Hit, opts: Options, isValid: string -> bool)
    requires !IcanRejects(h, opts, isValid) && Linked(h, opts)
    ensures var network := ChooseNetwork(h.network);
      var shown := Shown(network, DisplayName(h));
      SrcNode(h, opts, isValid) == MakeLink(ExplorerOf(network) + TypeLink(h.kind) + "/" + h.payload, shown + "@cb", shown)
  {
  }

  lemma ShownOnLinked(network: string, display: string)
    requires network in {"cb", "ab"}
    ensures Shown(network, display) == if network == "ab" then "ab:" + display else display
  {
    if network == "ab" {
      assert network + ":" + display == "ab:" + display;
    }
  }

  /**
    Any other valid match becomes a reference pair whose identifier, also its
    url, is a slug, and whose text is `[network:displayName@cb]`.
   */
  lemma ReferenceShape(h: Hit, opts: Options, isValid: string -> bool)
    requires !IcanRejects(h, opts, isValid) && !Linked(h, opts)
    ensures var network := ChooseNetwork(h.network);
      var slug := Slugify(network + "-" + DisplayName(h));
      var text := network + ":" + DisplayName(h) + "@cb";
      SrcNode(h, opts, isValid) == Paragraph([Text("[" + text + "]"), Definition(slug, text, slug)])
      && IsSlug(slug)
  {
    ReferenceBranch(h, opts, isValid);
  }

  lemma ReferenceBranch(h: Hit, opts: Options, isValid: string -> bool)
    requires !IcanRejects(h, opts, isValid) && !Linked(h, opts)
    ensures var network := ChooseNetwork(h.network);
      SrcNode(h, opts, isValid)
        == MakeReference(Slugify(network + "-" + DisplayName(h)), network + ":" + DisplayName(h) + "@cb")
  {
  }

  function HitSpan(h: Hit): Span { Span(h.start, h.len) }

  function Decide(opts: Options, isValid: string -> bool): Hit -> Node {
    h => SrcNode(h, opts, isValid)
  }

  /** The sequence the callback builds for a text node holding `value`. */
  function Rewritten(value: string, opts: Options, isValid: string -> bool): seq<Node> {
    Render(Segments(value, Scan(Combined, value, 0), HitSpan, 0), Decide(opts, isValid))
  }

  /**
    `textNode.value.replace(cbPattern, ...)` with its callback, then the
    trailing slice: a gap node in front of each match that starts after the
    cursor, the match's node, and the text after the last match.
   */
  method RewriteText(value: string, opts: Options, isValid: string -> bool) returns (newNodes: seq<Node>)
    ensures newNodes == Rewritten(value, opts, isValid)
  {
    var hits := Scan(Combined, value, 0);
    newNodes := EmitNodes(value, hits, opts, isValid);
  }

  /** The callback run over the hits in the order found, then the trailing slice. */
  method EmitNodes(value: string, hits: seq<Hit>, opts: Options, isValid: string -> bool) returns (newNodes: seq<Node>)
    ensures newNodes == Render(Segments(value, hits, HitSpan, 0), Decide(opts, isValid))
  {
    newNodes := [];
    var lastIndex: nat := 0;
    ghost var nodeOf := Decide(opts, isValid);
    ghost var spanOf := HitSpan;
    ghost var target := Render(Segments(value, hits, spanOf, 0), nodeOf);
    assert hits[0..] == hits;
    for i := 0 to |hits|
      invariant newNodes + Render(Segments(value, hits[i..], spanOf, lastIndex), nodeOf) == target
    {
      var h := hits[i];
      var span := HitSpan(h);
      assert spanOf(h) == span;
      Advance(value, hits, i, spanOf, nodeOf, lastIndex, newNodes, target);
      GapRender(value, span.start, lastIndex, nodeOf);
      ghost var done := newNodes + Render(GapBefore(value, span.start, lastIndex), nodeOf);
      if span.start > lastIndex {
        newNodes := newNodes + [MakeText(Slice(value, lastIndex, span.start))];
      }
      assert newNodes == done;
      var node := MatchNode(h, opts, isValid);
      assert node == nodeOf(h);
      newNodes := newNodes + [node];
      lastIndex := span.End();
    }
    RenderEnd(value, spanOf, lastIndex, nodeOf);
    if lastIndex < |value| {
      newNodes := newNodes + [MakeText(Slice(value, lastIndex, |value|))];
    }
  }

  /**
    The callback of the transformer for the child at `index` of `parent`: a
    text child is replaced, in place, by the rebuilt sequence when that is
    non-empty; otherwise the children stay as they are.
   */
  method Transformer(parent: Parent, index: nat, opts: Options, isValid: string -> bool)
    requires index < |parent.children|
    modifies parent
    ensures var n := old(parent.children[index]);
      n.Text? && |Rewritten(n.value, opts, isValid)| > 0 ==>
        parent.children == Spliced(old(parent.children), index, Rewritten(n.value, opts, isValid))
    ensures var n := old(parent.children[index]);
      !(n.Text? && |Rewritten(n.value, opts, isValid)| > 0) ==> parent.children == old(parent.children)
  {
    var node := parent.children[index];
    if !node.Text? {
      return;
    }
    var newNodes := RewriteText(node.value, opts, isValid);
    if |newNodes| > 0 {
      parent.Splice(index, newNodes);
    }
  }

  /** The combined pattern's matches follow the text, so the gaps and matched spans always rebuild the value. */
  lemma SrcReconstruction(value: string)
    ensures Cover(value, Segments(value, Scan(Combined, value, 0), HitSpan, 0), HitSpan) == value
  {
    var hits := Scan(Combined, value, 0);
    ScanMatches(Combined, value, 0);
    ScanAscending(Combined, value, 0);
    assert InOrder(value, hits, HitSpan);
    Reconstruction(value, hits, HitSpan, 0);
  }

  /** The rebuilt sequence is empty exactly when the value is, so only an empty text node is left unspliced. */
  lemma SplicedExactlyWhenNonEmpty(value: string, opts: Options, isValid: string -> bool)
    ensures |Rewritten(value, opts, isValid)| > 0 <==> value != ""
  {
    var segs := Segments(value, Scan(Combined, value, 0), HitSpan, 0);
    SrcReconstruction(value);
    assert |segs| == 0 ==> Cover(value, segs, HitSpan) == [];
    assert value == "" ==> Scan(Combined, value, 0) == [];
  }

  /** Without a match, a non-empty value is replaced by one text node holding the identical value. */
  lemma NoMatchUnchanged(value: string, opts: Options, isValid: string -> bool)
    requires Scan(Combined, value, 0) == [] && value != ""
    ensures Rewritten(value, opts, isValid) == [Text(value)]
  {
    NoMatchSegments(value, HitSpan);
  }

  /**
    Under the default options, an address match on the CB network that the
    checksum accepts becomes a link to `https://blockindex.net/address/` and
    the payload as typed, titled with the first four and last four characters
    upper-cased around an ellipsis, and showing that title with `@cb`.
   */
  lemma DefaultAddressLink(h: Hit, isValid: string -> bool)
    requires h.kind == Address && IsAddressPayload(h.payload) && isValid(h.payload)
    requires ChooseNetwork(h.network) == "cb"
    ensures var d := Upper(h.payload[..4]) + [Ellipsis] + Upper(h.payload[40..]);
      SrcNode(h, Defaults, isValid) == Link("https://blockindex.net/" + "address" + "/" + h.payload, Some(d), [Text(d + "@cb")])
  {
    LinkShape(h, Defaults, isValid);
  }
}
