/**
  The ordering defect of dist/index.js. `extractMatches` lists every address,
  then every block number, then every block hash; the cursor loop assumes the
  list follows the text. A block number written before an address breaks
  that: the loop emits the address's gap, the address, the number, and then
  the rest of the text again from the number's end. `ExtractedInOrder` is the
  evident intent (the same matches, in text order), for which the gaps and
  matched spans always rebuild the value.
 */
module DistFindings {
  import opened Wrappers
  import opened Ascii
  import opened Mdast
  import opened Tokens
  import opened Cursor
  import opened DistPlugin

  /** `n` zeros. */
  function Zeros(n: nat): (r: string)
    ensures |r| == n && forall i :: 0 <= i < n ==> r[i] == '0'
  {
    if n == 0 then "" else "0" + Zeros(n - 1)
  }

  /** A block number, `[1@cb]`. */
  const NumberToken: string := "[1@cb]"

  /** A well-formed CB address, `[cb` and forty-two zeros `@cb]`. */
  const AddressToken: string := "[cb" + Zeros(42) + "@cb]"

  /** A block number followed by an address. */
  const Sample: string := NumberToken + AddressToken

  lemma SampleChars()
    ensures |Sample| == 55
    ensures Sample[..6] == NumberToken && Sample[6..] == AddressToken
    ensures forall k :: 1 <= k < 6 ==> Sample[k] != '['
    ensures forall k :: 7 <= k < 55 ==> Sample[k] != '['
    ensures Sample[0] == '[' && Sample[1] == '1' && Sample[2] == '@' && Sample[6] == '['
    ensures Sample[7] == 'c' && Sample[8] == 'b' && Sample[9] == '0'
    ensures Sample[2..6] == "@cb]" && Sample[51..55] == "@cb]"
    ensures Sample[7..51] == "cb" + Zeros(42)
  {
    assert Sample == "[1@cb][cb" + Zeros(42) + "@cb]";
    forall k | 7 <= k < 55 ensures Sample[k] != '[' {
      if 9 <= k < 51 {
        assert Sample[k] == Zeros(42)[k - 9];
      }
    }
  }

  lemma SampleNotCode()
    ensures !IsNetworkCode(Sample[1..3])
  {
    SampleChars();
    assert Lower(Sample[1..3])[0] == LowerChar('1');
  }

  lemma SampleAddressHit()
    ensures AddressAt(Sample, 6) == Some(Hit(Address, 6, 49, false, Some("cb"), Sample[7..51]))
  {
    SampleChars();
    var s := Sample[7..51];
    assert s[..2] == "cb" && Lower("cb") == "cb";
    forall i | 0 <= i < |s[4..]| ensures IsHex(s[4..][i]) {
      assert s[4..][i] == Zeros(42)[i + 2];
    }
    assert IsAddressPayload(s);
    assert Sample[7..9] == "cb";
  }

  lemma SampleAddressMiss()
    ensures AddressAt(Sample, 0) == None
  {
    SampleChars();
    SampleNotCode();
    assert !IsAddressPayload(Sample[1..45]) by {
      assert Sample[1..45][..2] == Sample[1..3];
    }
  }

  lemma SampleAddressScan()
    ensures Scan(AddressPattern, Sample, 0) == [Hit(Address, 6, 49, false, Some("cb"), Sample[7..51])]
  {
    var h := Hit(Address, 6, 49, false, Some("cb"), Sample[7..51]);
    SampleChars();
    SampleAddressMiss();
    SampleAddressHit();
    assert Scan(AddressPattern, Sample, 0) == Scan(AddressPattern, Sample, 1);
    ScanSkipsPlainText(AddressPattern, Sample, 1, 6);
    assert Scan(AddressPattern, Sample, 6) == [h] + Scan(AddressPattern, Sample, 55);
  }

  lemma SampleNumberScan()
    ensures Scan(BlockNumberPattern, Sample, 0) == [Hit(BlockNumber, 0, 6, false, None, "1")]
  {
    SampleChars();
    SampleNotCode();
    assert DigitRun(Sample, 2) == 0;
    assert DigitRun(Sample, 1) == 1;
    assert Sample[1..2] == "1";
    assert BlockNumberAt(Sample, 0) == Some(Hit(BlockNumber, 0, 6, false, None, "1"));
    assert DigitRun(Sample, 7) == 0;
    assert BlockNumberAt(Sample, 6) == None;
    assert Scan(BlockNumberPattern, Sample, 6) == Scan(BlockNumberPattern, Sample, 7);
    ScanSkipsPlainText(BlockNumberPattern, Sample, 7, 55);
  }

  lemma SampleHashScan()
    ensures Scan(BlockHashPattern, Sample, 0) == []
  {
    SampleChars();
    SampleNotCode();
    assert BlockHashAt(Sample, 0) == None;
    assert Scan(BlockHashPattern, Sample, 0) == Scan(BlockHashPattern, Sample, 1);
    ScanSkipsPlainText(BlockHashPattern, Sample, 1, 6);
    assert BlockHashAt(Sample, 6) == None;
    assert Scan(BlockHashPattern, Sample, 6) == Scan(BlockHashPattern, Sample, 7);
    ScanSkipsPlainText(BlockHashPattern, Sample, 7, 55);
  }

  function SampleAddress(opts: Options): Match {
    MatchOf(Hit(Address, 6, 49, false, Some("cb"), Sample[7..51]), opts)
  }

  function SampleNumber(opts: Options): Match {
    MatchOf(Hit(BlockNumber, 0, 6, false, None, "1"), opts)
  }

  /** On `Sample` the written list puts the address, which comes second in the text, first. */
  lemma SampleExtracted(opts: Options)
    ensures Extracted(Sample, opts) == [SampleAddress(opts), SampleNumber(opts)]
  {
    var a := Hit(Address, 6, 49, false, Some("cb"), Sample[7..51]);
    var b := Hit(BlockNumber, 0, 6, false, None, "1");
    SampleAddressScan();
    SampleNumberScan();
    SampleHashScan();
    assert MatchesOf([a], opts) == [SampleAddress(opts)];
    assert MatchesOf([b], opts) == [SampleNumber(opts)];
    assert MatchesOf([], opts) == [];
  }

  lemma SampleSpans(opts: Options)
    ensures SpanOf(SampleAddress(opts)) == Span(6, 49)
    ensures SpanOf(SampleNumber(opts)) == Span(0, 6)
  {
  }

  /** The pieces for two adjacent matches listed in reverse text order. */
  lemma ReversedPairSegments<M>(value: string, x: M, y: M, spanOf: M -> Span)
    requires spanOf(y).start == 0 && 0 < spanOf(y).End() == spanOf(x).start < spanOf(x).End() == |value|
    ensures Segments(value, [x, y], spanOf, 0)
      == [Gap(value[..spanOf(x).start]), Mark(x), Mark(y), Gap(value[spanOf(x).start..])]
  {
    var k := spanOf(x).start;
    assert [x, y][1..] == [y] && [y][1..] == [];
    assert Slice(value, 0, k) == value[..k];
    assert Slice(value, k, |value|) == value[k..];
    var last: seq<Segment<M>> := Segments(value, [], spanOf, k);
    assert last == [Gap(value[k..])];
    var second: seq<Segment<M>> := Segments(value, [y], spanOf, |value|);
    assert GapBefore<M>(value, 0, |value|) == [];
    assert second == [Mark(y)] + last;
    assert GapBefore<M>(value, k, 0) == [Gap(value[..k])];
    assert Segments(value, [x, y], spanOf, 0) == [Gap(value[..k])] + [Mark(x)] + second;
  }

  /**
    Two adjacent matches that together span the value, listed in reverse text
    order: the loop's pieces are the gap before the later match, both matches,
    and then that match's span again as trailing text, so they stand for the
    value twice.
   */
  lemma ReversedPair<M>(value: string, x: M, y: M, spanOf: M -> Span)
    requires spanOf(y).start == 0 && 0 < spanOf(y).End() == spanOf(x).start < spanOf(x).End() == |value|
    ensures Cover(value, Segments(value, [x, y], spanOf, 0), spanOf) == value + value
  {
    var k := spanOf(x).start;
    ReversedPairSegments(value, x, y, spanOf);
    var front: seq<Segment<M>> := [Gap(value[..k]), Mark(x)];
    var back: seq<Segment<M>> := [Mark(y), Gap(value[k..])];
    assert Segments(value, [x, y], spanOf, 0) == front + back;
    CoverAppend(value, front, back, spanOf);
    assert front[1..] == [Mark(x)] && back[1..] == [Gap(value[k..])];
    CoverOne(value, Mark(x), spanOf);
    CoverOne(value, Gap(value[k..]), spanOf);
    assert Slice(value, k, |value|) == value[k..] && Slice(value, 0, k) == value[..k];
    assert value[..k] + value[k..] == value;
  }

  /**
    As written: on `Sample` the loop's pieces stand for the value twice over,
    and the trailing text node repeats the address token after both matched
    nodes.
   */
  lemma UnsortedRepeatsText(opts: Options, isValid: string -> bool)
    ensures Cover(Sample, Segments(Sample, Extracted(Sample, opts), SpanOf, 0), SpanOf) == Sample + Sample
    ensures |Rewritten(Sample, opts, isValid)| == 4
    ensures Rewritten(Sample, opts, isValid)[0] == Text(NumberToken)
    ensures Rewritten(Sample, opts, isValid)[3] == Text(AddressToken)
  {
    SampleChars();
    SampleExtracted(opts);
    SampleSpans(opts);
    ReversedPairSegments(Sample, SampleAddress(opts), SampleNumber(opts), SpanOf);
    ReversedPair(Sample, SampleAddress(opts), SampleNumber(opts), SpanOf);
  }

  /** The corrected extraction: one scan that tries all three patterns at every position. */
  function ExtractedInOrder(text: string, opts: Options): seq<Match> {
    MatchesOf(Scan(AnyBracketed, text, 0), opts)
  }

  /** Every entry of the corrected list is placed and bracketed like an entry of the written one. */
  lemma InOrderPlaced(text: string, opts: Options)
    ensures forall m :: m in ExtractedInOrder(text, opts) ==> Placed(text, m) && Bracketed(text, m)
  {
    var hits := Scan(AnyBracketed, text, 0);
    ScanMatches(AnyBracketed, text, 0);
    var ms := ExtractedInOrder(text, opts);
    forall m | m in ms ensures Placed(text, m) && Bracketed(text, m) {
      var i :| 0 <= i < |ms| && ms[i] == m;
      var h := hits[i];
      AnyBracketedHit(text, h.start, h);
      MatchOfPlaced(PatternOf(h.kind), text, h, opts);
    }
  }

  /** The corrected list follows the text: its starts strictly increase. */
  lemma InOrderAscending(text: string, opts: Options)
    ensures StartsAscending(ExtractedInOrder(text, opts))
  {
    var hits := Scan(AnyBracketed, text, 0);
    ScanAscending(AnyBracketed, text, 0);
    var ms := ExtractedInOrder(text, opts);
    forall i, j | 0 <= i < j < |ms| ensures ms[i].originalIndex < ms[j].originalIndex {
      assert hits[i].start < hits[i].End() <= hits[j].start;
    }
  }

  /** The corrected list holds exactly the matches of the written one. */
  lemma InOrderSameMatches(text: string, opts: Options)
    ensures forall m :: m in ExtractedInOrder(text, opts) <==> m in Extracted(text, opts)
  {
    var any := Scan(AnyBracketed, text, 0);
    var a := Scan(AddressPattern, text, 0);
    var b := Scan(BlockNumberPattern, text, 0);
    var c := Scan(BlockHashPattern, text, 0);
    forall m ensures m in ExtractedInOrder(text, opts) ==> m in Extracted(text, opts) {
      if m in ExtractedInOrder(text, opts) {
        var i :| 0 <= i < |any| && MatchOf(any[i], opts) == m;
        AnyBracketedMembers(text, any[i]);
        MatchInList(any[i], a, opts);
        MatchInList(any[i], b, opts);
        MatchInList(any[i], c, opts);
      }
    }
    forall m ensures m in Extracted(text, opts) ==> m in ExtractedInOrder(text, opts) {
      if m in Extracted(text, opts) {
        var h := HitOfMatch(m, a, b, c, opts);
        AnyBracketedMembers(text, h);
        MatchInList(h, any, opts);
      }
    }
  }

  lemma MatchInList(h: Hit, hits: seq<Hit>, opts: Options)
    ensures h in hits ==> MatchOf(h, opts) in MatchesOf(hits, opts)
  {
    if h in hits {
      var i :| 0 <= i < |hits| && hits[i] == h;
      assert MatchesOf(hits, opts)[i] == MatchOf(h, opts);
    }
  }

  /** The hit an entry of the written list was made from. */
  lemma HitOfMatch(m: Match, a: seq<Hit>, b: seq<Hit>, c: seq<Hit>, opts: Options) returns (h: Hit)
    requires m in MatchesOf(a, opts) + MatchesOf(b, opts) + MatchesOf(c, opts)
    ensures (h in a || h in b || h in c) && MatchOf(h, opts) == m
  {
    if m in MatchesOf(a, opts) {
      var i :| 0 <= i < |a| && MatchesOf(a, opts)[i] == m;
      h := a[i];
    } else if m in MatchesOf(b, opts) {
      var i :| 0 <= i < |b| && MatchesOf(b, opts)[i] == m;
      h := b[i];
    } else {
      var i :| 0 <= i < |c| && MatchesOf(c, opts)[i] == m;
      h := c[i];
    }
  }

  /** The corrected list always rebuilds the value: the loop's gaps and matched spans are the value. */
  lemma InOrderReconstruction(value: string, opts: Options)
    ensures Cover(value, Segments(value, ExtractedInOrder(value, opts), SpanOf, 0), SpanOf) == value
  {
    InOrderPlaced(value, opts);
    InOrderAscending(value, opts);
    AscendingInOrder(value, ExtractedInOrder(value, opts));
    Reconstruction(value, ExtractedInOrder(value, opts), SpanOf, 0);
  }
}
