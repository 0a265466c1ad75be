/**
  The bracket defect of src/index.ts. Of the three alternatives of
  `cbPattern` only the address one includes the surrounding `[` and `@cb]`:
  the number alternative is a bare `\b((cb|ab|ce):)?(\d+)\b` and the hash
  alternative starts without `\[`. In `[5999@cb]` the pattern matches only
  `5999`, so the `[` in front and the `@cb]` after it stay in the output as
  text around the link. The evident intent, the one the tests of the
  repository expect, is that the whole bracketed token is replaced; the
  three bracketed patterns of dist/index.js, tried in one scan
  (`AnyBracketed`), do exactly that with the same callback.
 */
module SrcFindings {
  import opened Wrappers
  import opened Ascii
  import opened Mdast
  import opened Tokens
  import opened Cursor
  import opened SrcPlugin

  /** A block number on the main network, as the tests write it. */
  const Token: string := "[5999@cb]"

  /** The link the callback makes for block 5999 on the main network. */
  const BlockLink: Node := Link("https://blockindex.net/block/5999", Some("5999"), [Text("5999@cb")])

  lemma TokenChars()
    ensures |Token| == 9
    ensures Token[0] == '[' && Token[1..5] == "5999" && Token[5..9] == "@cb]"
    ensures !IsNetworkCode(Token[1..3]) && !IsNetworkCode(Token[2..4])
    ensures IsTerminator(Token[5..9])
  {
    assert Lower(Token[1..3])[0] == LowerChar('5');
    assert Lower(Token[2..4])[0] == LowerChar('9');
  }

  /** The combined pattern matches the digits of the token, after its bracket. */
  lemma WrittenHit()
    ensures HitAt(Combined, Token, 1) == Some(Hit(BlockNumber, 1, 4, false, None, "5999"))
  {
    TokenChars();
    assert DigitRun(Token, 5) == 0;
    assert DigitRun(Token, 1) == 4;
  }

  /** The combined pattern does not match at the bracket. */
  lemma WrittenMissesBracket()
    ensures HitAt(Combined, Token, 0) == None
  {
    TokenChars();
  }

  /** Nor anywhere in the `@cb]` after the digits. */
  lemma WrittenMissesSuffix()
    ensures forall k :: 5 <= k < |Token| ==> HitAt(Combined, Token, k) == None
  {
    TokenChars();
    assert HitAt(Combined, Token, 5) == None;
    assert DigitRun(Token, 6) == 0;
    assert HitAt(Combined, Token, 6) == None;
    assert HitAt(Combined, Token, 7) == None;
    assert DigitRun(Token, 8) == 0;
    assert HitAt(Combined, Token, 8) == None;
  }

  /** As written: the combined pattern finds the digits alone, after the bracket. */
  lemma WrittenScan()
    ensures Scan(Combined, Token, 0) == [Hit(BlockNumber, 1, 4, false, None, "5999")]
  {
    var h := Hit(BlockNumber, 1, 4, false, None, "5999");
    var at := MatcherOf(Combined, Token);
    WrittenHit();
    WrittenMissesBracket();
    WrittenMissesSuffix();
    PatternMatcher(Combined, Token);
    assert at(1) == Some(h);
    assert ScanWith(at, 9, 0) == ScanWith(at, 9, 1);
    ScanWithSkips(at, 9, 5, 9);
    assert ScanWith(at, 9, 1) == [h] + ScanWith(at, 9, 5);
  }

  /** The node the callback makes for block 5999, found either way. */
  lemma BlockNode(h: Hit, isValid: string -> bool)
    requires h.kind == BlockNumber && h.network == None && h.payload == "5999"
    ensures SrcNode(h, Defaults, isValid) == BlockLink
  {
    assert DisplayName(h) == "5999";
    assert ChooseNetwork(h.network) == "cb";
    NodeKind(h, Defaults, isValid);
    LinkShape(h, Defaults, isValid);
    var n := SrcNode(h, Defaults, isValid);
    assert n.url == "https://blockindex.net/" + "block" + "/" + "5999" == "https://blockindex.net/block/5999";
    assert n.title == Some("5999");
    assert n.children == [Text("5999" + "@cb")] && "5999" + "@cb" == "5999@cb";
  }

  /** The pieces the cursor loop makes of `[5999@cb]` with the digits alone matched. */
  lemma WrittenSegments()
    ensures Segments(Token, [Hit(BlockNumber, 1, 4, false, None, "5999")], HitSpan, 0)
      == [Gap("["), Mark(Hit(BlockNumber, 1, 4, false, None, "5999")), Gap("@cb]")]
  {
    var h := Hit(BlockNumber, 1, 4, false, None, "5999");
    TokenChars();
    assert [h][1..] == [];
    assert Slice(Token, 0, 1) == "[";
    assert Slice(Token, 5, 9) == "@cb]";
  }

  /**
    As written, `[5999@cb]` becomes the bracket, the link, and `@cb]`: the
    brackets and the suffix that mark the token survive around it.
   */
  lemma BracketsSurvive(isValid: string -> bool)
    ensures Rewritten(Token, Defaults, isValid) == [Text("["), BlockLink, Text("@cb]")]
  {
    WrittenScan();
    WrittenSegments();
    WrittenNodes(isValid);
  }

  /** The nodes for those pieces. */
  lemma WrittenNodes(isValid: string -> bool)
    ensures Render([Gap("["), Mark(Hit(BlockNumber, 1, 4, false, None, "5999")), Gap("@cb]")], Decide(Defaults, isValid))
      == [Text("["), BlockLink, Text("@cb]")]
  {
    var h := Hit(BlockNumber, 1, 4, false, None, "5999");
    var nodeOf := Decide(Defaults, isValid);
    BlockNode(h, isValid);
    assert nodeOf(h) == BlockLink;
    var r := Render([Gap("["), Mark(h), Gap("@cb]")], nodeOf);
    assert r == [r[0], r[1], r[2]];
  }

  /** The evident intent: the same callback over the bracketed patterns, in one scan in text order. */
  function RewrittenBracketed(value: string, opts: Options, isValid: string -> bool): seq<Node> {
    Render(Segments(value, Scan(AnyBracketed, value, 0), HitSpan, 0), Decide(opts, isValid))
  }

  /** Every match of the corrected scan is a whole token: it opens with `[` and closes with `@cb]`. */
  lemma WholeTokens(value: string, h: Hit)
    requires h in Scan(AnyBracketed, value, 0)
    ensures 4 <= h.len && h.End() <= |value| && value[h.start] == '[' && IsTerminator(value[h.End() - 4..h.End()])
  {
    BracketedScanMembers(AnyBracketed, value, h);
    AnyBracketedHit(value, h.start, h);
    match h.kind {
      case Address => assert AddressAt(value, h.start) == Some(h);
      case BlockNumber => assert BlockNumberAt(value, h.start) == Some(h);
      case BlockHash => assert BlockHashAt(value, h.start) == Some(h);
    }
  }

  /** The corrected scan keeps the reconstruction: gaps and matched spans rebuild the value. */
  lemma BracketedReconstruction(value: string)
    ensures Cover(value, Segments(value, Scan(AnyBracketed, value, 0), HitSpan, 0), HitSpan) == value
  {
    var hits := Scan(AnyBracketed, value, 0);
    ScanMatches(AnyBracketed, value, 0);
    ScanAscending(AnyBracketed, value, 0);
    assert InOrder(value, hits, HitSpan);
    Reconstruction(value, hits, HitSpan, 0);
  }

  /** The bracketed block-number pattern matches the whole token. */
  lemma BracketedHit()
    ensures HitAt(AnyBracketed, Token, 0) == Some(Hit(BlockNumber, 0, 9, false, None, "5999"))
  {
    TokenChars();
    assert DigitRun(Token, 5) == 0;
    assert DigitRun(Token, 1) == 4;
    assert BlockNumberAt(Token, 0) == Some(Hit(BlockNumber, 0, 9, false, None, "5999"));
  }

  /** Corrected, the scan reports the whole token and nothing else. */
  lemma BracketedScan()
    ensures Scan(AnyBracketed, Token, 0) == [Hit(BlockNumber, 0, 9, false, None, "5999")]
  {
    var h := Hit(BlockNumber, 0, 9, false, None, "5999");
    var at := MatcherOf(AnyBracketed, Token);
    BracketedHit();
    PatternMatcher(AnyBracketed, Token);
    assert at(0) == Some(h);
    assert ScanWith(at, 9, 0) == [h] + ScanWith(at, 9, 9);
  }

  /** Corrected, `[5999@cb]` becomes the link alone, as the tests expect. */
  lemma TokenReplaced(isValid: string -> bool)
    ensures RewrittenBracketed(Token, Defaults, isValid) == [BlockLink]
  {
    var h := Hit(BlockNumber, 0, 9, false, None, "5999");
    TokenChars();
    BracketedScan();
    BlockNode(h, isValid);
    assert Segments(Token, [h], HitSpan, 0) == [Mark(h)];
  }
}
