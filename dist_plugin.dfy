/**
  The plugin as dist/index.js builds it: three separate scans whose matches
  are concatenated (addresses, then block numbers, then block hashes), a
  decision per match driven by an options record, and the cursor loop whose
  result replaces the text node in its parent.
 */
module DistPlugin {
  import opened Wrappers
  import opened Ascii
  import opened Slug
  import opened Display
  import opened Mdast
  import opened Tokens
  import opened Cursor

  /** The options record after the defaults are merged in. */
  datatype Options = Options(
    enableIcanCheck: bool,
    enableSkippingIcanCheck: bool,
    linkNetworks: bool,
    explorerUrl: string,
    explorerTestnetUrl: string,
    urlPathAddress: string,
    urlPathBlockNo: string,
    urlPathBlockHash: string,
    checkAddress: bool,
    checkBlockNumber: bool,
    checkBlockHash: bool,
    debug: bool)

  const Defaults: Options := Options(
    true, true, true,
    "https://blockindex.net/", "https://xab.blockindex.net/",
    "address/${1}", "block/${1}", "block/${1}",
    true, true, true,
    false)

  /** The case `transformName` gives character `i` of `text` in mode `kind`. */
  function CasedAt(kind: Kind, text: string, i: nat): char
    requires i < |text|
  {
    match kind
    case Address => UpperChar(text[i])
    case BlockHash => if |text| > 2 && i < 2 then LowerChar(text[i]) else UpperChar(text[i])
    case BlockNumber => text[i]
  }

  /** The length of the `network:` prefix `transformName` writes; an empty network stands for `undefined`. */
  function PrefixLength(network: string): nat {
    if network == "" then 0 else |network| + 1
  }

  /**
    `transformName`: the text re-cased for its mode, after `network:` when a
    network is given, and followed by `@cb` when `suffix` is set.
   */
  function TransformName(originalText: string, network: string, kind: Kind, suffix: bool): (r: string)
    ensures |r| == PrefixLength(network) + |originalText| + (if suffix then 3 else 0)
    ensures network != "" ==> r[..|network| + 1] == network + ":"
    ensures forall i :: 0 <= i < |originalText| ==> r[PrefixLength(network) + i] == CasedAt(kind, originalText, i)
    ensures suffix ==> EndsWith(r, "@cb")
  {
    var transformedText :=
      match kind
      case Address => Upper(originalText)
      case BlockHash =>
        if |originalText| > 2 then Lower(originalText[..2]) + Upper(originalText[2..]) else Upper(originalText)
      case BlockNumber => originalText;
    var networkText := if network != "" then network + ":" + transformedText else transformedText;
    if suffix then networkText + "@cb" else networkText
  }

  /** One entry of the list `extractMatches` builds. */
  datatype Match = Match(
    kind: Kind,
    network: string,
    originalText: string,
    transformedText: string,
    url: string,
    skipIcanCheck: bool,
    originalIndex: nat,
    length: nat)

  /** The record `extractMatches` pushes for one regular-expression match. */
  function MatchOf(h: Hit, opts: Options): (m: Match)
    ensures m.kind == h.kind && m.originalText == h.payload
    ensures m.originalIndex == h.start && m.length == h.len
    ensures m.network == if h.network.Some? then Upper(h.network.value) else "CB"
    ensures m.skipIcanCheck == (h.kind == Address && h.skip)
    ensures h.kind == Address ==>
      m.url == ReplaceFirst(opts.urlPathAddress, "${1}", Lower(h.payload)) && m.transformedText == ShortenId(Upper(h.payload))
    ensures h.kind == BlockNumber ==>
      m.url == ReplaceFirst(opts.urlPathBlockNo, "${1}", Lower(h.payload)) && m.transformedText == ShortenBlock(h.payload)
    ensures h.kind == BlockHash ==>
      m.url == ReplaceFirst(opts.urlPathBlockHash, "${1}", Lower(h.payload))
      && m.transformedText == ShortenHash(Lower(Head(h.payload, 2)) + Upper(Drop(h.payload, 2)))
  {
    var network := if h.network.Some? then Upper(h.network.value) else "CB";
    match h.kind
    case Address =>
      Match(Address, network, h.payload, ShortenId(Upper(h.payload)),
            ReplaceFirst(opts.urlPathAddress, "${1}", Lower(h.payload)), h.skip, h.start, h.len)
    case BlockNumber =>
      Match(BlockNumber, network, h.payload, ShortenBlock(h.payload),
            ReplaceFirst(opts.urlPathBlockNo, "${1}", Lower(h.payload)), false, h.start, h.len)
    case BlockHash =>
      Match(BlockHash, network, h.payload, ShortenHash(Lower(Head(h.payload, 2)) + Upper(Drop(h.payload, 2))),
            ReplaceFirst(opts.urlPathBlockHash, "${1}", Lower(h.payload)), false, h.start, h.len)
  }

  /**
    The display forms of the records: an address shows its first four and
    last four characters upper-cased, a long block number its first four and
    last four digits, and a hash its `0x` lower-cased and the next four and
    last four digits upper-cased.
   */
  lemma MatchDisplay(h: Hit, opts: Options)
    ensures h.kind == Address && IsAddressPayload(h.payload) ==>
      MatchOf(h, opts).transformedText == Upper(h.payload[..4]) + [Ellipsis] + Upper(h.payload[40..])
    ensures h.kind == BlockNumber && |h.payload| <= 9 ==> MatchOf(h, opts).transformedText == h.payload
    ensures h.kind == BlockNumber && |h.payload| > 9 ==>
      MatchOf(h, opts).transformedText == h.payload[..4] + [Ellipsis] + h.payload[|h.payload| - 4..]
    ensures h.kind == BlockHash && IsHashPayload(h.payload) ==>
      MatchOf(h, opts).transformedText
        == Lower(h.payload[..2]) + Upper(h.payload[2..6]) + [Ellipsis] + Upper(h.payload[62..])
  {
    var p := h.payload;
    if h.kind == Address && IsAddressPayload(p) {
      var u := Upper(p);
      assert u[..4] == Upper(p[..4]) && u[40..] == Upper(p[40..]);
    } else if h.kind == BlockHash && IsHashPayload(p) {
      var x := Lower(Head(p, 2)) + Upper(Drop(p, 2));
      assert |x| == 66;
      assert x[..6] == Lower(p[..2]) + Upper(p[2..6]);
      assert x[62..] == Upper(p[62..]);
    }
  }

  function MatchesOf(hits: seq<Hit>, opts: Options): (ms: seq<Match>)
    ensures |ms| == |hits| && forall i :: 0 <= i < |hits| ==> ms[i] == MatchOf(hits[i], opts)
  {
    seq(|hits|, i requires 0 <= i < |hits| => MatchOf(hits[i], opts))
  }

  /** What `extractMatches` returns: the three scans one after the other, not sorted. */
  function Extracted(text: string, opts: Options): seq<Match> {
    MatchesOf(Scan(AddressPattern, text, 0), opts)
    + MatchesOf(Scan(BlockNumberPattern, text, 0), opts)
    + MatchesOf(Scan(BlockHashPattern, text, 0), opts)
  }

  lemma MatchesOfPush(hits: seq<Hit>, i: nat, opts: Options)
    requires i < |hits|
    ensures MatchesOf(hits[..i + 1], opts) == MatchesOf(hits[..i], opts) + [MatchOf(hits[i], opts)]
  {
    assert hits[..i + 1] == hits[..i] + [hits[i]];
    var l, r := MatchesOf(hits[..i + 1], opts), MatchesOf(hits[..i], opts) + [MatchOf(hits[i], opts)];
    assert |l| == |r|;
    forall k | 0 <= k < |l| ensures l[k] == r[k] {
      if k < i {
        assert hits[..i + 1][k] == hits[..i][k];
      }
    }
  }

  /** `extractMatches`: three `for...of` loops, each pushing one record per match. */
  method ExtractMatches(text: string, opts: Options) returns (matches: seq<Match>)
    ensures matches == Extracted(text, opts)
  {
    matches := [];
    var addresses := Scan(AddressPattern, text, 0);
    for i := 0 to |addresses|
      invariant matches == MatchesOf(addresses[..i], opts)
    {
      MatchesOfPush(addresses, i, opts);
      matches := matches + [MatchOf(addresses[i], opts)];
    }
    assert addresses[..|addresses|] == addresses;
    ghost var prefix := matches;
    var numbers := Scan(BlockNumberPattern, text, 0);
    for i := 0 to |numbers|
      invariant matches == prefix + MatchesOf(numbers[..i], opts)
    {
      MatchesOfPush(numbers, i, opts);
      matches := matches + [MatchOf(numbers[i], opts)];
    }
    assert numbers[..|numbers|] == numbers;
    prefix := matches;
    var hashes := Scan(BlockHashPattern, text, 0);
    for i := 0 to |hashes|
      invariant matches == prefix + MatchesOf(hashes[..i], opts)
    {
      MatchesOfPush(hashes, i, opts);
      matches := matches + [MatchOf(hashes[i], opts)];
    }
    assert hashes[..|hashes|] == hashes;
  }

  /** `url` when it already ends with `/`, otherwise `url + '/'`. */
  function WithSlash(url: string): (r: string)
    ensures EndsWith(r, "/")
    ensures EndsWith(url, "/") ==> r == url
  {
    if EndsWith(url, "/") then url else url + "/"
  }

  /** The checksum rejects an address that is subject to the check. */
  predicate IcanRejects(m: Match, opts: Options, isValid: string -> bool) {
    opts.enableIcanCheck && m.kind == Address
    && !(opts.enableSkippingIcanCheck && m.skipIcanCheck)
    && !isValid(m.originalText)
  }

  /** The `check...` option for the kind of match. */
  predicate KindChecked(kind: Kind, opts: Options) {
    match kind
    case Address => opts.checkAddress
    case BlockNumber => opts.checkBlockNumber
    case BlockHash => opts.checkBlockHash
  }

  /** A reference pair instead of a link: networks are not linked, or the network is neither CB nor AB. */
  predicate UsesReference(m: Match, opts: Options) {
    !opts.linkNetworks || (m.network != "CB" && m.network != "AB")
  }

  /** The identifier, and url, of a reference: `<NETWORK>-<slug of the payload>`. */
  function ReferenceId(m: Match): string {
    m.network + "-" + Slugify(m.originalText)
  }

  /** The explorer link: the explorer of the network with a trailing `/`, then the filled-in path. */
  function LinkUrl(m: Match, opts: Options): string {
    (if m.network == "CB" then WithSlash(opts.explorerUrl) else WithSlash(opts.explorerTestnetUrl)) + m.url
  }

  /** The network shown in front of a block payload; addresses never show one, and neither does a linked CB. */
  function ShownNetwork(m: Match, opts: Options): string {
    if m.kind == Address || (opts.linkNetworks && m.network == "CB") then "" else m.network
  }

  /** The visible text of a link or reference: the shortened payload with `@cb`. */
  function Label(m: Match, opts: Options): string {
    TransformName(m.transformedText, ShownNetwork(m, opts), m.kind, true)
  }

  /** The title of a link: the full payload, re-cased, without `@cb`. */
  function Title(m: Match, opts: Options): string {
    TransformName(m.originalText, ShownNetwork(m, opts), m.kind, false)
  }

  /**
    The node `transformMatchesIntoNodes` makes for one match. The checksum
    comes first: a rejected address becomes struck-through text whatever the
    other options say. Then a kind whose check is off keeps its raw payload,
    and an enabled kind becomes a reference pair or an explorer link.
   */
  function TransformMatch(m: Match, opts: Options, isValid: string -> bool): Node {
    var network := m.network;
    var explorerUrl := WithSlash(opts.explorerUrl);
    var explorerTestnetUrl := WithSlash(opts.explorerTestnetUrl);
    var (fullNameNetwork, link, referenceLink) :=
      if !opts.linkNetworks then (network, network + "-" + Slugify(m.originalText), true)
      else if network == "CB" then ("", explorerUrl + m.url, false)
      else if network == "AB" then (network, explorerTestnetUrl + m.url, false)
      else (network, network + "-" + Slugify(m.originalText), true);
    var willSkip := opts.enableSkippingIcanCheck && m.skipIcanCheck;
    if opts.enableIcanCheck && m.kind == Address && !willSkip && !isValid(m.originalText) then
      MakeStrikethrough(m.transformedText + "@cb")
    else
      match m.kind
      case Address =>
        if opts.checkAddress then
          if referenceLink then MakeReference(link, TransformName(m.transformedText, "", Address, true))
          else MakeLink(link, TransformName(m.transformedText, "", Address, true), TransformName(m.originalText, "", Address, false))
        else MakeText(m.originalText)
      case BlockNumber =>
        if opts.checkBlockNumber then
          if referenceLink then MakeReference(link, TransformName(m.transformedText, fullNameNetwork, BlockNumber, true))
          else MakeLink(link, TransformName(m.transformedText, fullNameNetwork, BlockNumber, true),
                        TransformName(m.originalText, fullNameNetwork, BlockNumber, false))
        else MakeText(m.originalText)
      case BlockHash =>
        if opts.checkBlockHash then
          if referenceLink then MakeReference(link, TransformName(m.transformedText, fullNameNetwork, BlockHash, true))
          else MakeLink(link, TransformName(m.transformedText, fullNameNetwork, BlockHash, true),
                        TransformName(m.originalText, fullNameNetwork, BlockHash, false))
        else MakeText(m.originalText)
  }

  /** The four outcomes of the callback: struck through, plain text, a reference pair, or a link. */
  lemma TransformMatchCases(m: Match, opts: Options, isValid: string -> bool)
    ensures var n := TransformMatch(m, opts, isValid);
      IcanRejects(m, opts, isValid) ==> n == Text("~~" + m.transformedText + "@cb~~")
    ensures var n := TransformMatch(m, opts, isValid);
      !IcanRejects(m, opts, isValid) && !KindChecked(m.kind, opts) ==> n == Text(m.originalText)
    ensures var n := TransformMatch(m, opts, isValid);
      !IcanRejects(m, opts, isValid) && KindChecked(m.kind, opts) && UsesReference(m, opts) ==>
      n == Paragraph([Text("[" + Label(m, opts) + "]"), Definition(ReferenceId(m), Label(m, opts), ReferenceId(m))])
    ensures var n := TransformMatch(m, opts, isValid);
      !IcanRejects(m, opts, isValid) && KindChecked(m.kind, opts) && !UsesReference(m, opts) ==>
      n == Link(LinkUrl(m, opts), if Title(m, opts) == "" then None else Some(Title(m, opts)), [Text(Label(m, opts))])
  {
  }

  /** `transformMatchesIntoNodes`: a `flatMap` whose callback returns one node, so one node per match. */
  function TransformMatchesIntoNodes(ms: seq<Match>, opts: Options, isValid: string -> bool): (r: seq<Node>)
    ensures |r| == |ms|
    ensures forall i :: 0 <= i < |ms| ==> r[i] == TransformMatch(ms[i], opts, isValid)
  {
    if |ms| == 0 then [] else [TransformMatch(ms[0], opts, isValid)] + TransformMatchesIntoNodes(ms[1..], opts, isValid)
  }

  function SpanOf(m: Match): Span { Span(m.originalIndex, m.length) }

  function Decide(opts: Options, isValid: string -> bool): Match -> Node {
    m => TransformMatch(m, opts, isValid)
  }

  /** The nodes the cursor loop emits for the match list `matches` of `value`, in list order. */
  function Emitted(value: string, matches: seq<Match>, opts: Options, isValid: string -> bool): seq<Node> {
    Render(Segments(value, matches, SpanOf, 0), Decide(opts, isValid))
  }

  /** The sequence the transformer builds for a text node holding `value`. */
  function Rewritten(value: string, opts: Options, isValid: string -> bool): seq<Node> {
    Emitted(value, Extracted(value, opts), opts, isValid)
  }

  /**
    The `forEach` over the matches and the trailing slice: a text node for
    each gap in front of a match, the match's node, and a text node for what
    follows the last match.
   */
  method EmitNodes(value: string, matches: seq<Match>, opts: Options, isValid: string -> bool) returns (newNodes: seq<Node>)
    ensures newNodes == Emitted(value, matches, opts, isValid)
  {
    newNodes := [];
    var lastIndex: nat := 0;
    ghost var nodeOf := Decide(opts, isValid);
    ghost var spanOf := SpanOf;
    ghost var target := Render(Segments(value, matches, spanOf, 0), nodeOf);
    assert matches[0..] == matches;
    for i := 0 to |matches|
      invariant newNodes + Render(Segments(value, matches[i..], spanOf, lastIndex), nodeOf) == target
    {
      var m := matches[i];
      ghost var span := SpanOf(m);
      assert spanOf(m) == span;
      Advance(value, matches, i, spanOf, nodeOf, lastIndex, newNodes, target);
      GapRender(value, span.start, lastIndex, nodeOf);
      ghost var done := newNodes + Render(GapBefore(value, span.start, lastIndex), nodeOf);
      if m.originalIndex > lastIndex {
        newNodes := newNodes + [MakeText(Slice(value, lastIndex, m.originalIndex))];
      }
      assert newNodes == done;
      var matchedNodes := TransformMatchesIntoNodes([m], opts, isValid);
      assert matchedNodes == [nodeOf(m)];
      newNodes := newNodes + matchedNodes;
      lastIndex := m.originalIndex + m.length;
      assert lastIndex == span.End();
    }
    RenderEnd(value, spanOf, lastIndex, nodeOf);
    if lastIndex < |value| {
      newNodes := newNodes + [MakeText(Slice(value, lastIndex, |value|))];
    }
  }

  /** The body of the transformer's callback up to the splice. */
  method RewriteText(value: string, opts: Options, isValid: string -> bool) returns (newNodes: seq<Node>)
    ensures newNodes == Rewritten(value, opts, isValid)
  {
    var matches := ExtractMatches(value, opts);
    newNodes := EmitNodes(value, matches, opts, isValid);
  }

  /**
    The transformer's callback for the child at `index` of `parent`: a text
    child is replaced, in place, by the rebuilt sequence; any other child is
    left alone.
   */
  method Transformer(parent: Parent, index: nat, opts: Options, isValid: string -> bool)
    requires index < |parent.children|
    modifies parent
    ensures old(parent.children[index]).Text? ==>
      parent.children == Spliced(old(parent.children), index, Rewritten(old(parent.children[index]).value, opts, isValid))
    ensures !old(parent.children[index]).Text? ==> parent.children == old(parent.children)
  {
    var node := parent.children[index];
    if !node.Text? {
      return;
    }
    var newNodes := RewriteText(node.value, opts, isValid);
    parent.Splice(index, newNodes);
  }

  /** The rank of a kind in the list: addresses first, then block numbers, then block hashes. */
  function Rank(k: Kind): nat {
    match k
    case Address => 0
    case BlockNumber => 1
    case BlockHash => 2
  }

  /**
    A match lies in `text` as a `[`...`@cb]` span whose payload sits right
    before the terminator. An address takes its network from its own code and
    shows nine characters; a block match names `CB` unless a `net:` prefix is
    written, whose code it then takes, upper-cased.
   */
  predicate Placed(text: string, m: Match) {
    var e := m.originalIndex + m.length;
    |m.originalText| + 5 <= m.length && e <= |text|
    && text[m.originalIndex] == '[' && IsTerminator(text[e - 4..e])
    && m.originalText == text[e - 4 - |m.originalText|..e - 4]
    && (m.kind == Address ==>
          IsAddressPayload(m.originalText) && m.network == Upper(m.originalText[..2])
          && m.skipIcanCheck == (text[m.originalIndex + 1] == '!') && |m.transformedText| == 9)
    && (m.kind == BlockNumber ==> AllDigits(m.originalText))
    && (m.kind == BlockHash ==> IsHashPayload(m.originalText))
    && (m.kind != Address ==>
          (m.length == |m.originalText| + 5 && m.network == "CB")
          || (m.length == |m.originalText| + 8 && m.network == Upper(text[m.originalIndex + 1..m.originalIndex + 3])))
  }

  /** A match opens with `[` and holds no other `[`. */
  predicate Bracketed(text: string, m: Match) {
    m.originalIndex < m.originalIndex + m.length <= |text| && text[m.originalIndex] == '['
    && forall k :: m.originalIndex < k < m.originalIndex + m.length ==> text[k] != '['
  }

  lemma AddressPlaced(text: string, p: nat, opts: Options)
    requires p <= |text| && AddressAt(text, p).Some?
    ensures Placed(text, MatchOf(AddressAt(text, p).value, opts))
  {
    var h := AddressAt(text, p).value;
    assert |Upper(h.payload)| == 44;
  }

  lemma BlockNumberPlaced(text: string, p: nat, opts: Options)
    requires p <= |text| && BlockNumberAt(text, p).Some?
    ensures Placed(text, MatchOf(BlockNumberAt(text, p).value, opts))
  {
    var h := BlockNumberAt(text, p).value;
    NumberShapePlaced(text, h, MatchOf(h, opts));
  }

  /** A match that carries a block-number hit's kind, span, payload and network is placed. */
  lemma NumberShapePlaced(text: string, h: Hit, m: Match)
    requires BlockNumberShape(text, h)
    requires m.kind == h.kind && m.originalText == h.payload && m.originalIndex == h.start && m.length == h.len
    requires m.network == if h.network.Some? then Upper(h.network.value) else "CB"
    ensures Placed(text, m)
  {
  }

  lemma BlockHashPlaced(text: string, p: nat, opts: Options)
    requires p <= |text| && BlockHashAt(text, p).Some?
    ensures Placed(text, MatchOf(BlockHashAt(text, p).value, opts))
  {
  }

  lemma MatchOfPlaced(g: Pattern, text: string, h: Hit, opts: Options)
    requires IsBracketed(g) && g != AnyBracketed && h.start <= |text| && HitAt(g, text, h.start) == Some(h)
    ensures Placed(text, MatchOf(h, opts)) && Bracketed(text, MatchOf(h, opts))
  {
    BracketedOpensOnce(g, text, h.start);
    match g
    case AddressPattern => AddressPlaced(text, h.start, opts);
    case BlockNumberPattern => BlockNumberPlaced(text, h.start, opts);
    case BlockHashPattern => BlockHashPlaced(text, h.start, opts);
  }

  /** One of the three lists holds only its own kind, ascending without overlap. */
  lemma ScanListOrder(k: Kind, text: string, opts: Options)
    ensures forall m :: m in MatchesOf(Scan(PatternOf(k), text, 0), opts) ==> m.kind == k
    ensures KindOrdered(MatchesOf(Scan(PatternOf(k), text, 0), opts))
  {
    var g := PatternOf(k);
    var hits := Scan(g, text, 0);
    ScanMatches(g, text, 0);
    ScanAscending(g, text, 0);
    var ms := MatchesOf(hits, opts);
    forall i | 0 <= i < |ms| ensures ms[i].kind == k {
      assert HitAt(g, text, hits[i].start) == Some(hits[i]);
    }
    forall i, j | 0 <= i < j < |ms|
      ensures Rank(ms[i].kind) <= Rank(ms[j].kind)
      ensures ms[i].originalIndex + ms[i].length <= ms[j].originalIndex
    {
      assert hits[i].End() <= hits[j].start;
    }
  }

  /** Every entry of one of the three lists is placed and bracketed. */
  lemma ScanListPlaced(k: Kind, text: string, opts: Options)
    ensures forall m :: m in MatchesOf(Scan(PatternOf(k), text, 0), opts) ==> Placed(text, m) && Bracketed(text, m)
  {
    var g := PatternOf(k);
    var hits := Scan(g, text, 0);
    ScanMatches(g, text, 0);
    var ms := MatchesOf(hits, opts);
    forall m | m in ms ensures Placed(text, m) && Bracketed(text, m) {
      var i :| 0 <= i < |ms| && ms[i] == m;
      MatchOfPlaced(g, text, hits[i], opts);
    }
  }

  /** Every match `extractMatches` reports lies in the text as a bracketed span, with the network rules above. */
  lemma ExtractedPlaced(text: string, opts: Options)
    ensures forall m :: m in Extracted(text, opts) ==> Placed(text, m) && Bracketed(text, m)
  {
    ScanListPlaced(Address, text, opts);
    ScanListPlaced(BlockNumber, text, opts);
    ScanListPlaced(BlockHash, text, opts);
  }

  /**
    Addresses, then block numbers, then block hashes, and within one kind
    strictly ascending and without overlap.
   */
  predicate KindOrdered(ms: seq<Match>) {
    forall i, j :: 0 <= i < j < |ms| ==>
      Rank(ms[i].kind) <= Rank(ms[j].kind)
      && (ms[i].kind == ms[j].kind ==> ms[i].originalIndex + ms[i].length <= ms[j].originalIndex)
  }

  lemma KindOrderedAppend(a: seq<Match>, b: seq<Match>)
    requires KindOrdered(a) && KindOrdered(b)
    requires forall x, y :: x in a && y in b ==> Rank(x.kind) < Rank(y.kind)
    ensures KindOrdered(a + b)
  {
    var ms := a + b;
    forall i, j | 0 <= i < j < |ms|
      ensures Rank(ms[i].kind) <= Rank(ms[j].kind)
      ensures ms[i].kind == ms[j].kind ==> ms[i].originalIndex + ms[i].length <= ms[j].originalIndex
    {
      if j < |a| {
        assert ms[i] == a[i] && ms[j] == a[j];
      } else if i < |a| {
        assert ms[i] == a[i] && ms[j] == b[j - |a|];
        assert a[i] in a && b[j - |a|] in b;
      } else {
        assert ms[i] == b[i - |a|] && ms[j] == b[j - |a|];
      }
    }
  }

  /** Three lists, each of one kind and ordered, concatenated in the order of the kinds' ranks. */
  lemma KindOrderedConcat(a: seq<Match>, b: seq<Match>, c: seq<Match>)
    requires KindOrdered(a) && KindOrdered(b) && KindOrdered(c)
    requires forall m :: m in a ==> m.kind == Address
    requires forall m :: m in b ==> m.kind == BlockNumber
    requires forall m :: m in c ==> m.kind == BlockHash
    ensures KindOrdered(a + b + c)
  {
    KindOrderedAppend(a, b);
    assert forall x :: x in a + b ==> x in a || x in b;
    KindOrderedAppend(a + b, c);
  }

  /** The list `extractMatches` returns is ordered by kind, and by position within a kind. */
  lemma ExtractedOrder(text: string, opts: Options)
    ensures KindOrdered(Extracted(text, opts))
  {
    ScanListOrder(Address, text, opts);
    ScanListOrder(BlockNumber, text, opts);
    ScanListOrder(BlockHash, text, opts);
    KindOrderedConcat(MatchesOf(Scan(AddressPattern, text, 0), opts),
      MatchesOf(Scan(BlockNumberPattern, text, 0), opts),
      MatchesOf(Scan(BlockHashPattern, text, 0), opts));
  }

  /**
    Without a match the value comes back as one identical text node, and an
    empty value comes back as nothing, so that the splice removes the child.
   */
  lemma NoMatchUnchanged(value: string, opts: Options, isValid: string -> bool)
    requires Extracted(value, opts) == []
    ensures Rewritten(value, opts, isValid) == if value == "" then [] else [Text(value)]
  {
    NoMatchSegments(value, SpanOf);
  }

  /** The splice for an empty text node removes it and keeps the other children in order. */
  lemma EmptyValueDropsChild(children: seq<Node>, index: nat, opts: Options, isValid: string -> bool)
    requires index < |children|
    ensures Spliced(children, index, Rewritten("", opts, isValid)) == children[..index] + children[index + 1..]
  {
    NoMatchUnchanged("", opts, isValid);
  }

  /** The matches' starts strictly increase along the list. */
  predicate StartsAscending(ms: seq<Match>) {
    forall i, j :: 0 <= i < j < |ms| ==> ms[i].originalIndex < ms[j].originalIndex
  }

  /** Ascending starts and bracketed spans put the matches in text order without overlap. */
  lemma AscendingInOrder(text: string, ms: seq<Match>)
    requires StartsAscending(ms)
    requires forall m :: m in ms ==> Bracketed(text, m)
    ensures InOrder(text, ms, SpanOf)
  {
    forall i, j | 0 <= i < j < |ms| ensures SpanOf(ms[i]).End() <= SpanOf(ms[j]).start {
      assert Bracketed(text, ms[i]) && Bracketed(text, ms[j]);
    }
    forall i | 0 <= i < |ms| ensures SpanOf(ms[i]).End() <= |text| {
      assert Bracketed(text, ms[i]);
    }
  }

  /**
    Reconstruction as written: when the concatenated list happens to be in
    ascending order, the gaps and matched spans the loop walks over are the
    value, character for character.
   */
  lemma SortedReconstruction(value: string, opts: Options)
    requires StartsAscending(Extracted(value, opts))
    ensures Cover(value, Segments(value, Extracted(value, opts), SpanOf, 0), SpanOf) == value
  {
    ExtractedPlaced(value, opts);
    AscendingInOrder(value, Extracted(value, opts));
    Reconstruction(value, Extracted(value, opts), SpanOf, 0);
  }

  /** The default path templates put the lower-cased payload after `address/` or `block/`. */
  lemma DefaultPaths(x: string)
    ensures ReplaceFirst(Defaults.urlPathAddress, "${1}", x) == "address/" + x
    ensures ReplaceFirst(Defaults.urlPathBlockNo, "${1}", x) == "block/" + x
    ensures ReplaceFirst(Defaults.urlPathBlockHash, "${1}", x) == "block/" + x
  {
    var a, b := "address/${1}", "block/${1}";
    assert OccursAt(a, "${1}", 8) && OccursAt(b, "${1}", 6);
    forall j: nat | j < 8 ensures !OccursAt(a, "${1}", j) {
      assert a[j] != '$';
      if j + 4 <= |a| { assert a[j..j + 4][0] == a[j]; }
    }
    forall j: nat | j < 6 ensures !OccursAt(b, "${1}", j) {
      assert b[j] != '$';
      if j + 4 <= |b| { assert b[j..j + 4][0] == b[j]; }
    }
    assert a[..8] == "address/" && a[12..] == [] && b[..6] == "block/" && b[10..] == [];
  }

  /** A string with no lower-case letter is its own upper case. */
  lemma UpperFixed(s: string)
    requires forall i :: 0 <= i < |s| ==> !IsLower(s[i])
    ensures Upper(s) == s
  {
  }

  /**
    Under the default options, an address match on the CB network that the
    checksum accepts becomes a link to `https://blockindex.net/address/` and
    the lower-cased payload, titled with the whole payload upper-cased, whose
    text is the first four and last four characters upper-cased around an
    ellipsis, followed by `@cb`.
   */
  lemma DefaultAddressLink(h: Hit, isValid: string -> bool)
    requires h.kind == Address && IsAddressPayload(h.payload) && isValid(h.payload)
    requires h.network.Some? ==> Upper(h.network.value) == "CB"
    ensures var p := h.payload;
      TransformMatch(MatchOf(h, Defaults), Defaults, isValid)
        == Link("https://blockindex.net/" + "address/" + Lower(p), Some(Upper(p)),
                [Text(Upper(p[..4]) + [Ellipsis] + Upper(p[40..]) + "@cb")])
  {
    var p := h.payload;
    var m := MatchOf(h, Defaults);
    MatchDisplay(h, Defaults);
    DefaultPaths(Lower(p));
    TransformMatchCases(m, Defaults, isValid);
    var d := m.transformedText;
    assert d == Upper(p[..4]) + [Ellipsis] + Upper(p[40..]);
    forall i | 0 <= i < |d| ensures !IsLower(d[i]) {
      if i < 4 { assert d[i] == Upper(p[..4])[i]; } else if i > 4 { assert d[i] == Upper(p[40..])[i - 5]; }
    }
    UpperFixed(d);
    assert Label(m, Defaults) == d + "@cb";
    var e := "https://blockindex.net/";
    assert e[|e| - 1..] == "/";
    assert LinkUrl(m, Defaults) == e + "address/" + Lower(p);
  }
}
