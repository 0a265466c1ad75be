/**
  The cursor loop both transformers run over one text node's value: for each
  match in list order, a text node for the gap before it when the match starts
  after the cursor, then the match's node, then the cursor moves to the match
  end; after the last match, a text node for the rest of the value when the
  cursor is short of its end. `Segments` lists those pieces, `Render` turns
  them into nodes, and `Cover` gives the text they stand for.
 */
module Cursor {
  import opened Ascii
  import opened Mdast

  /** Where a match starts and how many characters it spans. */
  datatype Span = Span(start: nat, len: nat)
  {
    function End(): nat { start + len }
  }

  /** One piece of the rebuilt sequence: untouched text, or a match. */
  datatype Segment<M> = Gap(text: string) | Mark(m: M)

  /** The pieces the loop emits for the matches `ms`, starting with the cursor at `last`. */
  function Segments<M>(value: string, ms: seq<M>, spanOf: M -> Span, last: nat): seq<Segment<M>>
    decreases |ms|
  {
    if |ms| == 0 then
      if last < |value| then [Gap(Slice(value, last, |value|))] else []
    else
      var s := spanOf(ms[0]);
      GapBefore(value, s.start, last) + [Mark(ms[0])] + Segments(value, ms[1..], spanOf, s.End())
  }

  /** The gap in front of a match that starts at `start`: none unless the match starts after the cursor. */
  function GapBefore<M>(value: string, start: nat, last: nat): seq<Segment<M>> {
    if start > last then [Gap(Slice(value, last, start))] else []
  }

  /** The nodes for a list of pieces: a text node per gap, `nodeOf` per match. */
  function Render<M>(segs: seq<Segment<M>>, nodeOf: M -> Node): (r: seq<Node>)
    ensures |r| == |segs|
    ensures forall i :: 0 <= i < |segs| ==> r[i] == match segs[i] case Gap(t) => Text(t) case Mark(m) => nodeOf(m)
  {
    seq(|segs|, i requires 0 <= i < |segs| => match segs[i] case Gap(t) => Text(t) case Mark(m) => nodeOf(m))
  }

  lemma RenderAppend<M>(a: seq<Segment<M>>, b: seq<Segment<M>>, nodeOf: M -> Node)
    ensures Render(a + b, nodeOf) == Render(a, nodeOf) + Render(b, nodeOf)
  {
    var l, r := Render(a + b, nodeOf), Render(a, nodeOf) + Render(b, nodeOf);
    assert |l| == |r|;
    forall i | 0 <= i < |l| ensures l[i] == r[i] {
      if i < |a| {
        assert (a + b)[i] == a[i];
      } else {
        assert (a + b)[i] == b[i - |a|];
      }
    }
  }

  /** The node for the gap in front of a match: one text node when it starts after the cursor, none otherwise. */
  lemma GapRender<M>(value: string, start: nat, last: nat, nodeOf: M -> Node)
    ensures Render(GapBefore<M>(value, start, last), nodeOf)
      == if start > last then [Text(Slice(value, last, start))] else []
  {
  }

  /** One match: the gap node when the match starts after the cursor, then the match's node. */
  lemma RenderStep<M>(value: string, ms: seq<M>, spanOf: M -> Span, last: nat, nodeOf: M -> Node)
    requires |ms| > 0
    ensures Render(Segments(value, ms, spanOf, last), nodeOf)
      == Render(GapBefore(value, spanOf(ms[0]).start, last), nodeOf) + [nodeOf(ms[0])]
         + Render(Segments(value, ms[1..], spanOf, spanOf(ms[0]).End()), nodeOf)
  {
    var s := spanOf(ms[0]);
    var gap: seq<Segment<M>> := GapBefore(value, s.start, last);
    var rest := Segments(value, ms[1..], spanOf, s.End());
    assert Segments(value, ms, spanOf, last) == gap + [Mark(ms[0])] + rest;
    RenderAppend(gap + [Mark(ms[0])], rest, nodeOf);
    RenderAppend(gap, [Mark(ms[0])], nodeOf);
    assert Render([Mark(ms[0])], nodeOf) == [nodeOf(ms[0])];
    if s.start > last {
      assert Render(gap, nodeOf) == [Text(Slice(value, last, s.start))];
    } else {
      assert Render(gap, nodeOf) == [];
    }
  }

  /** Regrouping the nodes emitted so far with the ones still to come. */
  lemma Regroup<T>(done: seq<T>, gap: seq<T>, n: T, rest: seq<T>, target: seq<T>)
    requires done + (gap + [n] + rest) == target
    ensures done + gap + [n] + rest == target
  {
    assert done + gap + [n] + rest == done + (gap + [n] + rest);
  }

  /**
    One turn of the cursor loop over `ms`: emitting the gap and the node of
    `ms[i]` and moving the cursor to the match's end keeps what is emitted,
    followed by the nodes for what is left, equal to `target`.
   */
  lemma Advance<M>(value: string, ms: seq<M>, i: nat, spanOf: M -> Span, nodeOf: M -> Node,
                   last: nat, done: seq<Node>, target: seq<Node>)
    requires i < |ms|
    requires done + Render(Segments(value, ms[i..], spanOf, last), nodeOf) == target
    ensures done + Render(GapBefore(value, spanOf(ms[i]).start, last), nodeOf) + [nodeOf(ms[i])]
      + Render(Segments(value, ms[i + 1..], spanOf, spanOf(ms[i]).End()), nodeOf) == target
  {
    assert ms[i..][0] == ms[i];
    assert ms[i..][1..] == ms[i + 1..];
    RenderStep(value, ms[i..], spanOf, last, nodeOf);
    Regroup(done, Render(GapBefore(value, spanOf(ms[i]).start, last), nodeOf), nodeOf(ms[i]),
      Render(Segments(value, ms[i + 1..], spanOf, spanOf(ms[i]).End()), nodeOf), target);
  }

  /** After the last match: the node for the rest of the value, when there is any. */
  lemma RenderEnd<M>(value: string, spanOf: M -> Span, last: nat, nodeOf: M -> Node)
    ensures Render(Segments(value, [], spanOf, last), nodeOf)
      == if last < |value| then [Text(Slice(value, last, |value|))] else []
  {
  }

  /** The text one piece stands for: a gap as it is, a match as the span of `value` it covers. */
  function PieceText<M>(value: string, seg: Segment<M>, spanOf: M -> Span): string {
    match seg
    case Gap(t) => t
    case Mark(m) => Slice(value, spanOf(m).start, spanOf(m).End())
  }

  /** The text a list of pieces stands for. */
  function Cover<M>(value: string, segs: seq<Segment<M>>, spanOf: M -> Span): string
    decreases |segs|
  {
    if |segs| == 0 then [] else PieceText(value, segs[0], spanOf) + Cover(value, segs[1..], spanOf)
  }

  lemma {:induction false} CoverAppend<M>(value: string, a: seq<Segment<M>>, b: seq<Segment<M>>, spanOf: M -> Span)
    ensures Cover(value, a + b, spanOf) == Cover(value, a, spanOf) + Cover(value, b, spanOf)
    decreases |a|
  {
    if |a| > 0 {
      var head := PieceText(value, a[0], spanOf);
      assert (a + b)[0] == a[0];
      assert (a + b)[1..] == a[1..] + b;
      CoverAppend(value, a[1..], b, spanOf);
      assert Cover(value, a + b, spanOf) == head + Cover(value, a[1..] + b, spanOf);
      assert Cover(value, a, spanOf) == head + Cover(value, a[1..], spanOf);
    } else {
      assert a + b == b;
    }
  }

  lemma CoverOne<M>(value: string, seg: Segment<M>, spanOf: M -> Span)
    ensures Cover(value, [seg], spanOf) == PieceText(value, seg, spanOf)
  {
    assert [seg][1..] == [];
  }

  /** Every match lies in the text, and each ends at or before the start of every later one. */
  predicate InOrder<M>(value: string, ms: seq<M>, spanOf: M -> Span) {
    (forall i :: 0 <= i < |ms| ==> spanOf(ms[i]).End() <= |value|)
    && forall i, j :: 0 <= i < j < |ms| ==> spanOf(ms[i]).End() <= spanOf(ms[j]).start
  }

  /**
    Reconstruction: when the matches are in order, the gaps and the matched
    spans, taken in the order the loop emits them, are the text from the
    cursor on, character for character.
   */
  lemma {:induction false} Reconstruction<M>(value: string, ms: seq<M>, spanOf: M -> Span, last: nat)
    requires InOrder(value, ms, spanOf) && last <= |value|
    requires |ms| > 0 ==> last <= spanOf(ms[0]).start
    ensures Cover(value, Segments(value, ms, spanOf, last), spanOf) == value[last..]
    decreases |ms|
  {
    if |ms| == 0 {
      if last < |value| {
        CoverOne(value, Gap(Slice(value, last, |value|)), spanOf);
      }
    } else {
      var s := spanOf(ms[0]);
      var gap: seq<Segment<M>> := GapBefore(value, s.start, last);
      var rest := Segments(value, ms[1..], spanOf, s.End());
      InOrderTail(value, ms, spanOf);
      Reconstruction(value, ms[1..], spanOf, s.End());
      CoverAppend(value, gap + [Mark(ms[0])], rest, spanOf);
      CoverAppend(value, gap, [Mark(ms[0])], spanOf);
      CoverGapBefore(value, s.start, last, spanOf);
      CoverOne(value, Mark(ms[0]), spanOf);
      SplitThree(value, last, s.start, s.End());
    }
  }

  lemma CoverGapBefore<M>(value: string, start: nat, last: nat, spanOf: M -> Span)
    requires last <= start <= |value|
    ensures Cover(value, GapBefore<M>(value, start, last), spanOf) == value[last..start]
  {
    if start > last {
      CoverOne(value, Gap(Slice(value, last, start)), spanOf);
    }
  }

  lemma SplitThree(value: string, a: nat, b: nat, c: nat)
    requires a <= b <= c <= |value|
    ensures value[a..] == value[a..b] + value[b..c] + value[c..]
  {
  }

  /** Dropping the first match keeps the rest in order, each after the first one's end. */
  lemma InOrderTail<M>(value: string, ms: seq<M>, spanOf: M -> Span)
    requires InOrder(value, ms, spanOf) && |ms| > 0
    ensures InOrder(value, ms[1..], spanOf)
    ensures |ms| > 1 ==> spanOf(ms[0]).End() <= spanOf(ms[1..][0]).start
  {
    assert forall i :: 0 <= i < |ms| - 1 ==> ms[1..][i] == ms[i + 1];
  }

  /** Every gap the loop emits is non-empty, when the matches lie in the text. */
  lemma {:induction false} GapsNonEmpty<M>(value: string, ms: seq<M>, spanOf: M -> Span, last: nat)
    requires forall i :: 0 <= i < |ms| ==> spanOf(ms[i]).End() <= |value|
    ensures forall i :: 0 <= i < |Segments(value, ms, spanOf, last)| ==>
      var s := Segments(value, ms, spanOf, last)[i]; s.Gap? ==> |s.text| > 0
    decreases |ms|
  {
    if |ms| > 0 {
      var s := spanOf(ms[0]);
      var gap: seq<Segment<M>> := GapBefore(value, s.start, last);
      GapsNonEmpty(value, ms[1..], spanOf, s.End());
      var rest := Segments(value, ms[1..], spanOf, s.End());
      var all := Segments(value, ms, spanOf, last);
      assert all == gap + [Mark(ms[0])] + rest;
      forall i | 0 <= i < |all| && all[i].Gap? ensures |all[i].text| > 0 {
        if i >= |gap| + 1 {
          assert all[i] == rest[i - |gap| - 1];
        }
      }
    }
  }

  /** With no match, the loop emits the whole value as one gap, or nothing at all for an empty value. */
  lemma NoMatchSegments<M>(value: string, spanOf: M -> Span)
    ensures Segments(value, [], spanOf, 0) == if |value| == 0 then [] else [Gap(value)]
  {
    assert Slice(value, 0, |value|) == value;
  }
}
