/**
  Hand-written scanners for the plugin's regular expressions. Every regular
  expression carries the `g` and `i` flags: network codes, `@cb`, `0x` and
  hexadecimal digits match in either case, and a global scan resumes at the
  end of the previous match. Each `...At` function answers whether its
  pattern matches at one position (the engine's backtracking is resolved by
  hand: each pattern has at most one match at a position), and `Scan` lists
  the matches the global scan reports, leftmost first.
 */
module Tokens {
  import opened Wrappers
  import opened Ascii

  datatype Kind = Address | BlockNumber | BlockHash

  /**
    One match: where it starts, how many characters it spans, and its capture
    groups (the `!` marker, the network code, and the payload as typed).
   */
  datatype Hit = Hit(kind: Kind, start: nat, len: nat, skip: bool, network: Option<string>, payload: string)
  {
    function End(): nat { start + len }
  }

  /** `(cb|ab|ce)` under the `i` flag. */
  predicate IsNetworkCode(s: string) {
    |s| == 2 && Lower(s) in {"cb", "ab", "ce"}
  }

  /** `@cb\]` under the `i` flag. */
  predicate IsTerminator(s: string) {
    |s| == 4 && s[0] == '@' && LowerChar(s[1]) == 'c' && LowerChar(s[2]) == 'b' && s[3] == ']'
  }

  predicate AllHex(s: string) { forall i :: 0 <= i < |s| ==> IsHex(s[i]) }

  predicate AllDigits(s: string) { forall i :: 0 <= i < |s| ==> IsDigit(s[i]) }

  /** `(cb|ab|ce)[0-9]{2}[0-9a-f]{40}`: a network code, two check digits and forty hexadecimal digits. */
  predicate IsAddressPayload(s: string) {
    |s| == 44 && IsNetworkCode(s[..2]) && IsDigit(s[2]) && IsDigit(s[3]) && AllHex(s[4..])
  }

  /** `0x[0-9a-f]{64}` */
  predicate IsHashPayload(s: string) {
    |s| == 66 && s[0] == '0' && LowerChar(s[1]) == 'x' && AllHex(s[2..])
  }

  /** The length of the run of decimal digits in `t` that starts at `q`. */
  function DigitRun(t: string, q: nat): (n: nat)
    requires q <= |t|
    ensures q + n <= |t| && AllDigits(t[q..q + n])
    ensures q + n == |t| || !IsDigit(t[q + n])
    decreases |t| - q
  {
    if q < |t| && IsDigit(t[q]) then
      assert t[q..q + 1 + DigitRun(t, q + 1)] == [t[q]] + t[q + 1..q + 1 + DigitRun(t, q + 1)];
      1 + DigitRun(t, q + 1)
    else 0
  }

  /** `\[(!)?((cb|ab|ce)[0-9]{2}[0-9a-f]{40})@cb\]`, the address pattern of both copies. */
  function AddressAt(t: string, p: nat): (r: Option<Hit>)
    requires p <= |t|
    ensures r.Some? ==> var h := r.value;
      h.kind == Address && h.start == p && h.End() <= |t| && h.len == (if h.skip then 50 else 49)
      && t[p] == '[' && (h.skip <==> t[p + 1] == '!')
      && IsAddressPayload(h.payload) && h.payload == t[h.End() - 48..h.End() - 4]
      && IsTerminator(t[h.End() - 4..h.End()])
      && h.network == Some(h.payload[..2])
  {
    if p < |t| && t[p] == '[' then
      var skip := p + 1 < |t| && t[p + 1] == '!';
      var q := if skip then p + 2 else p + 1;
      if q + 48 <= |t| && IsAddressPayload(t[q..q + 44]) && IsTerminator(t[q + 44..q + 48])
      then
        assert t[q..q + 44][..2] == t[q..q + 2];
        Some(Hit(Address, p, q + 48 - p, skip, Some(t[q..q + 2]), t[q..q + 44]))
      else None
    else None
  }

  /** The shape of a block-number match `h` in `t`: `[`, an optional network code and `:`, digits, `@cb]`. */
  predicate BlockNumberShape(t: string, h: Hit) {
    h.kind == BlockNumber && h.End() <= |t| && !h.skip && |h.payload| > 0
    && h.len == |h.payload| + (if h.network.Some? then 8 else 5)
    && t[h.start] == '[' && IsTerminator(t[h.End() - 4..h.End()])
    && AllDigits(h.payload) && h.payload == t[h.End() - 4 - |h.payload|..h.End() - 4]
    && (h.network.Some? ==> h.network.value == t[h.start + 1..h.start + 3] && IsNetworkCode(h.network.value) && t[h.start + 3] == ':')
  }

  /** `\[((cb|ab|ce):)?(\d+)@cb\]`, the block-number pattern of dist/index.js. */
  function BlockNumberAt(t: string, p: nat): (r: Option<Hit>)
    requires p <= |t|
    ensures r.Some? ==> r.value.start == p && BlockNumberShape(t, r.value)
  {
    if p < |t| && t[p] == '[' then
      var prefixed := p + 4 <= |t| && IsNetworkCode(t[p + 1..p + 3]) && t[p + 3] == ':';
      var q := if prefixed then p + 4 else p + 1;
      var n := DigitRun(t, q);
      if n > 0 && q + n + 4 <= |t| && IsTerminator(t[q + n..q + n + 4])
      then Some(Hit(BlockNumber, p, q + n + 4 - p, false, if prefixed then Some(t[p + 1..p + 3]) else None, t[q..q + n]))
      else None
    else None
  }

  /** `\[((cb|ab|ce):)?(0x[0-9a-f]{64})@cb\]`, the block-hash pattern of dist/index.js. */
  function BlockHashAt(t: string, p: nat): (r: Option<Hit>)
    requires p <= |t|
    ensures r.Some? ==> var h := r.value;
      h.kind == BlockHash && h.start == p && h.End() <= |t| && !h.skip
      && h.len == (if h.network.Some? then 74 else 71)
      && t[p] == '[' && IsTerminator(t[h.End() - 4..h.End()])
      && IsHashPayload(h.payload) && h.payload == t[h.End() - 70..h.End() - 4]
      && (h.network.Some? ==> h.network.value == t[p + 1..p + 3] && IsNetworkCode(h.network.value) && t[p + 3] == ':')
  {
    if p < |t| && t[p] == '[' then
      var prefixed := p + 4 <= |t| && IsNetworkCode(t[p + 1..p + 3]) && t[p + 3] == ':';
      var q := if prefixed then p + 4 else p + 1;
      if q + 70 <= |t| && IsHashPayload(t[q..q + 66]) && IsTerminator(t[q + 66..q + 70])
      then Some(Hit(BlockHash, p, q + 70 - p, false, if prefixed then Some(t[p + 1..p + 3]) else None, t[q..q + 66]))
      else None
    else None
  }

  /** There is a word character at index `i` of `t`. */
  predicate IsWordAt(t: string, i: int) { 0 <= i < |t| && IsWord(t[i]) }

  /** `\b` at index `i`: a word character on exactly one side. */
  predicate Boundary(t: string, i: int) { IsWordAt(t, i - 1) != IsWordAt(t, i) }

  /** `\b((cb|ab|ce):)?(\d+)\b`, the number alternative of the pattern in src/index.ts: no brackets, no `@cb`. */
  function BareNumberAt(t: string, p: nat): (r: Option<Hit>)
    requires p <= |t|
    ensures r.Some? ==> var h := r.value;
      h.kind == BlockNumber && h.start == p && h.End() <= |t| && !h.skip && |h.payload| > 0
      && h.len == |h.payload| + (if h.network.Some? then 3 else 0)
      && Boundary(t, p) && Boundary(t, h.End())
      && AllDigits(h.payload) && h.payload == t[h.End() - |h.payload|..h.End()]
      && (h.network.Some? ==> h.network.value == t[p..p + 2] && IsNetworkCode(h.network.value) && t[p + 2] == ':')
  {
    if Boundary(t, p) then
      var prefixed := p + 3 <= |t| && IsNetworkCode(t[p..p + 2]) && t[p + 2] == ':';
      var q := if prefixed then p + 3 else p;
      var n := DigitRun(t, q);
      if n > 0 && Boundary(t, q + n)
      then Some(Hit(BlockNumber, p, q + n - p, false, if prefixed then Some(t[p..p + 2]) else None, t[q..q + n]))
      else None
    else None
  }

  /** `((cb|ab|ce):)?(0x[0-9a-f]{64})@cb\]`, the hash alternative of the pattern in src/index.ts: no leading bracket. */
  function TrailingHashAt(t: string, p: nat): (r: Option<Hit>)
    requires p <= |t|
    ensures r.Some? ==> var h := r.value;
      h.kind == BlockHash && h.start == p && h.End() <= |t| && !h.skip
      && h.len == (if h.network.Some? then 73 else 70)
      && IsTerminator(t[h.End() - 4..h.End()])
      && IsHashPayload(h.payload) && h.payload == t[h.End() - 70..h.End() - 4]
      && (h.network.Some? ==> h.network.value == t[p..p + 2] && IsNetworkCode(h.network.value) && t[p + 2] == ':')
  {
    var prefixed := p + 3 <= |t| && IsNetworkCode(t[p..p + 2]) && t[p + 2] == ':';
    var q := if prefixed then p + 3 else p;
    if q + 70 <= |t| && IsHashPayload(t[q..q + 66]) && IsTerminator(t[q + 66..q + 70])
    then Some(Hit(BlockHash, p, q + 70 - p, false, if prefixed then Some(t[p..p + 2]) else None, t[q..q + 66]))
    else None
  }

  /** A run of digits followed by a non-digit, or by the end, is the whole run `DigitRun` measures. */
  lemma {:induction false} DigitRunExact(t: string, q: nat, n: nat)
    requires q + n <= |t| && AllDigits(t[q..q + n])
    requires q + n == |t| || !IsDigit(t[q + n])
    ensures DigitRun(t, q) == n
    decreases n
  {
    if n > 0 {
      assert IsDigit(t[q..q + n][0]);
      assert t[q + 1..q + n] == t[q..q + n][1..];
      DigitRunExact(t, q + 1, n - 1);
    }
  }

  /** A network code at `k` starts with a letter. */
  lemma CodeStartsWithLetter(t: string, k: nat)
    requires k + 2 <= |t|
    ensures IsNetworkCode(t[k..k + 2]) ==> IsLower(t[k]) || IsUpper(t[k])
  {
    if IsNetworkCode(t[k..k + 2]) {
      NetworkCodeLetters(t[k..k + 2]);
      assert t[k..k + 2][0] == t[k];
    }
  }

  /**
    Every address token is found: `[`, the `!` marker when `skip` is set, a
    payload of the address shape and `@cb]` make the match at `p`.
   */
  lemma AddressAtFinds(t: string, p: nat, skip: bool)
    requires var q := if skip then p + 2 else p + 1;
      q + 48 <= |t| && t[p] == '[' && (skip <==> t[p + 1] == '!')
      && IsAddressPayload(t[q..q + 44]) && IsTerminator(t[q + 44..q + 48])
    ensures var q := if skip then p + 2 else p + 1;
      AddressAt(t, p) == Some(Hit(Address, p, q + 48 - p, skip, Some(t[q..q + 2]), t[q..q + 44]))
  {
  }

  /**
    Every block-number token is found: `[`, `net:` when `prefixed` is set,
    `n > 0` digits and `@cb]` make the match at `p`.
   */
  lemma BlockNumberAtFinds(t: string, p: nat, prefixed: bool, n: nat)
    requires var q := if prefixed then p + 4 else p + 1;
      q + n + 4 <= |t| && t[p] == '[' && n > 0
      && (prefixed ==> IsNetworkCode(t[p + 1..p + 3]) && t[p + 3] == ':')
      && AllDigits(t[q..q + n]) && IsTerminator(t[q + n..q + n + 4])
    ensures var q := if prefixed then p + 4 else p + 1;
      BlockNumberAt(t, p)
        == Some(Hit(BlockNumber, p, q + n + 4 - p, false, if prefixed then Some(t[p + 1..p + 3]) else None, t[q..q + n]))
  {
    var q := if prefixed then p + 4 else p + 1;
    assert t[q] == t[q..q + n][0];
    if p + 4 <= |t| {
      CodeStartsWithLetter(t, p + 1);
    }
    DigitRunExact(t, q, n);
  }

  /**
    Every block-hash token is found: `[`, `net:` when `prefixed` is set, a
    hash payload and `@cb]` make the match at `p`.
   */
  lemma BlockHashAtFinds(t: string, p: nat, prefixed: bool)
    requires var q := if prefixed then p + 4 else p + 1;
      q + 70 <= |t| && t[p] == '['
      && (prefixed ==> IsNetworkCode(t[p + 1..p + 3]) && t[p + 3] == ':')
      && IsHashPayload(t[q..q + 66]) && IsTerminator(t[q + 66..q + 70])
    ensures var q := if prefixed then p + 4 else p + 1;
      BlockHashAt(t, p)
        == Some(Hit(BlockHash, p, q + 70 - p, false, if prefixed then Some(t[p + 1..p + 3]) else None, t[q..q + 66]))
  {
    var q := if prefixed then p + 4 else p + 1;
    assert t[q] == t[q..q + 66][0];
    if p + 4 <= |t| {
      CodeStartsWithLetter(t, p + 1);
    }
  }

  /**
    Every bare number is found: `net:` when `prefixed` is set and `n > 0`
    digits, with a word boundary on each side, make the match at `p`.
   */
  lemma BareNumberAtFinds(t: string, p: nat, prefixed: bool, n: nat)
    requires var q := if prefixed then p + 3 else p;
      q + n <= |t| && n > 0 && Boundary(t, p) && Boundary(t, q + n)
      && (prefixed ==> IsNetworkCode(t[p..p + 2]) && t[p + 2] == ':')
      && AllDigits(t[q..q + n])
    ensures var q := if prefixed then p + 3 else p;
      BareNumberAt(t, p)
        == Some(Hit(BlockNumber, p, q + n - p, false, if prefixed then Some(t[p..p + 2]) else None, t[q..q + n]))
  {
    var q := if prefixed then p + 3 else p;
    assert t[q] == t[q..q + n][0];
    assert IsWord(t[q + n - 1]) by {
      assert t[q + n - 1] == t[q..q + n][n - 1];
    }
    if p + 3 <= |t| {
      CodeStartsWithLetter(t, p);
    }
    DigitRunExact(t, q, n);
  }

  /**
    Every trailing hash is found: `net:` when `prefixed` is set, a hash
    payload and `@cb]` make the match at `p`.
   */
  lemma TrailingHashAtFinds(t: string, p: nat, prefixed: bool)
    requires var q := if prefixed then p + 3 else p;
      q + 70 <= |t|
      && (prefixed ==> IsNetworkCode(t[p..p + 2]) && t[p + 2] == ':')
      && IsHashPayload(t[q..q + 66]) && IsTerminator(t[q + 66..q + 70])
    ensures var q := if prefixed then p + 3 else p;
      TrailingHashAt(t, p)
        == Some(Hit(BlockHash, p, q + 70 - p, false, if prefixed then Some(t[p..p + 2]) else None, t[q..q + 66]))
  {
    var q := if prefixed then p + 3 else p;
    assert t[q] == t[q..q + 66][0];
    if p + 3 <= |t| {
      CodeStartsWithLetter(t, p);
    }
  }

  /**
    The three patterns of dist/index.js, the one combined pattern `cbPattern`
    of src/index.ts, and `AnyBracketed`: the three patterns of dist/index.js
    tried at every position of one scan, so that matches come in text order.
   */
  datatype Pattern = AddressPattern | BlockNumberPattern | BlockHashPattern | Combined | AnyBracketed

  /**
    Whether `g` matches at `p`. A single pattern answers for itself. The
    combined pattern tries its alternatives in the order written: the address
    wins wherever it matches, then the bare number, then the trailing hash.
    `AnyBracketed` tries the address, block-number and block-hash patterns in
    that order.
   */
  function HitAt(g: Pattern, t: string, p: nat): (r: Option<Hit>)
    requires p <= |t|
    ensures r.Some? ==> r.value.start == p && r.value.len > 0 && r.value.End() <= |t|
    ensures g == AddressPattern ==> r == AddressAt(t, p)
    ensures g == BlockNumberPattern ==> r == BlockNumberAt(t, p)
    ensures g == BlockHashPattern ==> r == BlockHashAt(t, p)
    ensures g == Combined && AddressAt(t, p).Some? ==> r == AddressAt(t, p)
    ensures g == Combined && AddressAt(t, p).None? && BareNumberAt(t, p).Some? ==> r == BareNumberAt(t, p)
    ensures g == Combined && AddressAt(t, p).None? && BareNumberAt(t, p).None? ==> r == TrailingHashAt(t, p)
    ensures g == AnyBracketed && AddressAt(t, p).Some? ==> r == AddressAt(t, p)
    ensures g == AnyBracketed && AddressAt(t, p).None? && BlockNumberAt(t, p).Some? ==> r == BlockNumberAt(t, p)
    ensures g == AnyBracketed && AddressAt(t, p).None? && BlockNumberAt(t, p).None? ==> r == BlockHashAt(t, p)
  {
    match g
    case AddressPattern => AddressAt(t, p)
    case BlockNumberPattern => BlockNumberAt(t, p)
    case BlockHashPattern => BlockHashAt(t, p)
    case Combined =>
      var a := AddressAt(t, p);
      if a.Some? then a
      else
        var b := BareNumberAt(t, p);
        if b.Some? then b else TrailingHashAt(t, p)
    case AnyBracketed =>
      var a := AddressAt(t, p);
      if a.Some? then a
      else
        var b := BlockNumberAt(t, p);
        if b.Some? then b else BlockHashAt(t, p)
  }

  /** What `g` reports at each position of `t`. */
  function MatcherOf(g: Pattern, t: string): nat -> Option<Hit> {
    (q: nat) => if q <= |t| then HitAt(g, t, q) else None
  }

  /**
    A matcher for a text of length `n`: whatever it reports at a position
    starts there, is not empty and ends inside the text.
   */
  predicate IsMatcher(at: nat -> Option<Hit>, n: nat) {
    forall q: nat :: q <= n && at(q).Some? ==>
      at(q).value.start == q && at(q).value.len > 0 && at(q).value.End() <= n
  }

  lemma PatternMatcher(g: Pattern, t: string)
    ensures IsMatcher(MatcherOf(g, t), |t|)
  {
    var at := MatcherOf(g, t);
    forall q: nat | q <= |t| && at(q).Some?
      ensures at(q).value.start == q && at(q).value.len > 0 && at(q).value.End() <= |t|
    {
      assert at(q) == HitAt(g, t, q);
    }
  }

  /**
    A global scan driven by `at` from position `p` on: report the match at
    `p` and resume at its end, or move on by one where there is none. This is
    what `matchAll`, and `replace` with a callback, do with a `g` pattern.
   */
  function ScanWith(at: nat -> Option<Hit>, n: nat, p: nat): seq<Hit>
    requires IsMatcher(at, n) && p <= n
    decreases n - p
  {
    if p == n then []
    else match at(p)
      case Some(h) => [h] + ScanWith(at, n, h.End())
      case None => ScanWith(at, n, p + 1)
  }

  /** The matches a global scan with `g` reports from position `p` on. */
  function Scan(g: Pattern, t: string, p: nat): seq<Hit>
    requires p <= |t|
  {
    PatternMatcher(g, t);
    ScanWith(MatcherOf(g, t), |t|, p)
  }

  /** No match is empty, and each ends at or before the start of every later one. */
  predicate Ascending(ms: seq<Hit>) {
    (forall i :: 0 <= i < |ms| ==> ms[i].len > 0)
    && forall i, j :: 0 <= i < j < |ms| ==> ms[i].End() <= ms[j].start
  }

  /** Index `q` lies inside one of the matches. */
  predicate Covered(ms: seq<Hit>, q: nat) {
    exists i :: 0 <= i < |ms| && ms[i].start <= q < ms[i].End()
  }

  /** Every match in `ms` is one `at` reports at its start, inside `[p, n)`. */
  predicate MatchedBy(at: nat -> Option<Hit>, n: nat, p: nat, ms: seq<Hit>) {
    forall i :: 0 <= i < |ms| ==> p <= ms[i].start && ms[i].End() <= n && at(ms[i].start) == Some(ms[i])
  }

  /** Every match in `ms` is one `g` makes at its start, inside `t[p..]`. */
  predicate MatchesFrom(g: Pattern, t: string, p: nat, ms: seq<Hit>) {
    forall i :: 0 <= i < |ms| ==>
      p <= ms[i].start && ms[i].End() <= |t| && HitAt(g, t, ms[i].start) == Some(ms[i])
  }

  lemma MatchedByCons(at: nat -> Option<Hit>, n: nat, p: nat, h: Hit, rest: seq<Hit>)
    requires IsMatcher(at, n) && p <= n && at(p) == Some(h)
    requires MatchedBy(at, n, h.End(), rest)
    ensures MatchedBy(at, n, p, [h] + rest)
  {
    var ms := [h] + rest;
    forall i | 0 <= i < |ms| ensures p <= ms[i].start && ms[i].End() <= n && at(ms[i].start) == Some(ms[i]) {
      if i > 0 {
        assert ms[i] == rest[i - 1];
      }
    }
  }

  /** Every match the scan reports is one `at` reports at its start. */
  lemma {:induction false} ScanWithMatches(at: nat -> Option<Hit>, n: nat, p: nat)
    requires IsMatcher(at, n) && p <= n
    ensures MatchedBy(at, n, p, ScanWith(at, n, p))
    decreases n - p
  {
    if p < n {
      match at(p)
      case Some(h) =>
        ScanWithMatches(at, n, h.End());
        MatchedByCons(at, n, p, h, ScanWith(at, n, h.End()));
      case None =>
        ScanWithMatches(at, n, p + 1);
    }
  }

  /** Every reported match is one the pattern makes at its start, inside `t[p..]`. */
  lemma ScanMatches(g: Pattern, t: string, p: nat)
    requires p <= |t|
    ensures MatchesFrom(g, t, p, Scan(g, t, p))
  {
    var at := MatcherOf(g, t);
    PatternMatcher(g, t);
    ScanWithMatches(at, |t|, p);
    var ms := Scan(g, t, p);
    forall i | 0 <= i < |ms| ensures HitAt(g, t, ms[i].start) == Some(ms[i]) {
      assert at(ms[i].start) == Some(ms[i]);
    }
  }

  lemma AscendingCons(h: Hit, rest: seq<Hit>)
    requires h.len > 0 && Ascending(rest)
    requires forall i :: 0 <= i < |rest| ==> h.End() <= rest[i].start
    ensures Ascending([h] + rest)
  {
    var ms := [h] + rest;
    forall i, j | 0 <= i < j < |ms| ensures ms[i].End() <= ms[j].start {
      assert ms[j] == rest[j - 1];
      if i > 0 {
        assert ms[i] == rest[i - 1];
      }
    }
  }

  /** The scan's matches come in ascending order without overlap. */
  lemma {:induction false} ScanWithAscending(at: nat -> Option<Hit>, n: nat, p: nat)
    requires IsMatcher(at, n) && p <= n
    ensures Ascending(ScanWith(at, n, p))
    decreases n - p
  {
    if p < n {
      match at(p)
      case Some(h) =>
        ScanWithAscending(at, n, h.End());
        ScanWithMatches(at, n, h.End());
        AscendingCons(h, ScanWith(at, n, h.End()));
      case None =>
        ScanWithAscending(at, n, p + 1);
    }
  }

  /** The reported matches come in ascending order without overlap. */
  lemma ScanAscending(g: Pattern, t: string, p: nat)
    requires p <= |t|
    ensures Ascending(Scan(g, t, p))
  {
    PatternMatcher(g, t);
    ScanWithAscending(MatcherOf(g, t), |t|, p);
  }

  /** A match in front covers its own span and keeps every index the rest covers. */
  lemma CoveredCons(h: Hit, rest: seq<Hit>)
    ensures forall q: nat :: h.start <= q < h.End() ==> Covered([h] + rest, q)
    ensures forall q: nat :: Covered(rest, q) ==> Covered([h] + rest, q)
  {
    var ms := [h] + rest;
    forall q: nat | h.start <= q < h.End() ensures Covered(ms, q) {
      assert ms[0] == h;
    }
    forall q: nat | Covered(rest, q) ensures Covered(ms, q) {
      var i :| 0 <= i < |rest| && rest[i].start <= q < rest[i].End();
      assert ms[i + 1] == rest[i];
    }
  }

  /** Every position of `[p, n)` at which `at` reports a match lies inside a match of the scan. */
  lemma {:induction false} ScanWithLeftmost(at: nat -> Option<Hit>, n: nat, p: nat)
    requires IsMatcher(at, n) && p <= n
    ensures forall q: nat :: p <= q < n && at(q).Some? ==> Covered(ScanWith(at, n, p), q)
    decreases n - p
  {
    if p < n {
      match at(p)
      case Some(h) =>
        ScanWithLeftmost(at, n, h.End());
        CoveredCons(h, ScanWith(at, n, h.End()));
      case None =>
        ScanWithLeftmost(at, n, p + 1);
    }
  }

  /**
    Leftmost first, nothing skipped: every position of `t[p..]` at which the
    pattern matches lies inside a reported match.
   */
  lemma ScanLeftmost(g: Pattern, t: string, p: nat)
    requires p <= |t|
    ensures forall q: nat :: p <= q < |t| && HitAt(g, t, q).Some? ==> Covered(Scan(g, t, p), q)
  {
    var at := MatcherOf(g, t);
    PatternMatcher(g, t);
    ScanWithLeftmost(at, |t|, p);
    forall q: nat | p <= q < |t| && HitAt(g, t, q).Some? ensures Covered(Scan(g, t, p), q) {
      assert at(q).Some?;
    }
  }

  /** The pattern of dist/index.js that finds matches of kind `k`. */
  function PatternOf(k: Kind): Pattern {
    match k
    case Address => AddressPattern
    case BlockNumber => BlockNumberPattern
    case BlockHash => BlockHashPattern
  }

  /** The patterns whose every match is enclosed in `[` ... `]`. */
  predicate IsBracketed(g: Pattern) { g != Combined }

  /** A match of a bracketed pattern opens with `[` and holds no other `[`. */
  predicate OpensOnce(t: string, h: Hit) {
    h.start < h.End() <= |t| && t[h.start] == '['
    && forall k :: h.start < k < h.End() ==> t[k] != '['
  }

  /** A character whose lower-case form is a letter is itself a letter. */
  lemma LetterOfLower(c: char)
    requires IsLower(LowerChar(c))
    ensures IsLower(c) || IsUpper(c)
  {
  }

  lemma NetworkCodeLetters(s: string)
    requires IsNetworkCode(s)
    ensures IsLower(s[0]) || IsUpper(s[0])
    ensures IsLower(s[1]) || IsUpper(s[1])
  {
    assert Lower(s)[0] == LowerChar(s[0]) && Lower(s)[1] == LowerChar(s[1]);
    LetterOfLower(s[0]);
    LetterOfLower(s[1]);
  }

  lemma TerminatorNoBracket(s: string)
    requires IsTerminator(s)
    ensures forall k :: 0 <= k < 4 ==> s[k] != '['
  {
    LetterOfLower(s[1]);
    LetterOfLower(s[2]);
  }

  lemma AddressPayloadShape(s: string)
    requires IsAddressPayload(s)
    ensures IsLower(s[0]) || IsUpper(s[0])
    ensures forall k :: 0 <= k < 44 ==> s[k] != '['
  {
    NetworkCodeLetters(s[..2]);
    assert s[..2][0] == s[0] && s[..2][1] == s[1];
    forall k | 4 <= k < 44 ensures IsHex(s[k]) {
      assert s[4..][k - 4] == s[k];
    }
  }

  lemma HashPayloadShape(s: string)
    requires IsHashPayload(s)
    ensures IsLower(s[1]) || IsUpper(s[1])
    ensures forall k :: 0 <= k < 66 ==> s[k] != '['
  {
    LetterOfLower(s[1]);
    forall k | 2 <= k < 66 ensures IsHex(s[k]) {
      assert s[2..][k - 2] == s[k];
    }
  }

  /** The `network:` prefix of a block pattern holds no `[`. */
  lemma PrefixNoBracket(t: string, p: nat, h: Hit)
    requires p + 4 <= |t| && h.network.Some? && h.network.value == t[p + 1..p + 3]
    requires IsNetworkCode(h.network.value) && t[p + 3] == ':'
    ensures IsLower(t[p + 1]) || IsUpper(t[p + 1])
    ensures forall k :: p < k < p + 4 ==> t[k] != '['
  {
    NetworkCodeLetters(h.network.value);
    assert h.network.value[0] == t[p + 1] && h.network.value[1] == t[p + 2];
  }

  lemma AddressOpensOnce(t: string, p: nat)
    requires p <= |t| && AddressAt(t, p).Some?
    ensures OpensOnce(t, AddressAt(t, p).value)
  {
    var h := AddressAt(t, p).value;
    var e := h.End();
    AddressPayloadShape(h.payload);
    TerminatorNoBracket(t[e - 4..e]);
    forall k | p < k < e ensures t[k] != '[' {
      if k >= e - 4 {
        assert t[k] == t[e - 4..e][k - (e - 4)];
      } else if k >= e - 48 {
        assert t[k] == h.payload[k - (e - 48)];
      }
    }
  }

  lemma BlockNumberOpensOnce(t: string, p: nat)
    requires p <= |t| && BlockNumberAt(t, p).Some?
    ensures OpensOnce(t, BlockNumberAt(t, p).value)
  {
    var h := BlockNumberAt(t, p).value;
    var e := h.End();
    var q := e - 4 - |h.payload|;
    TerminatorNoBracket(t[e - 4..e]);
    if h.network.Some? {
      PrefixNoBracket(t, p, h);
    }
    forall k | p < k < e ensures t[k] != '[' {
      if k >= e - 4 {
        assert t[k] == t[e - 4..e][k - (e - 4)];
      } else if k >= q {
        assert t[k] == h.payload[k - q];
        assert IsDigit(h.payload[k - q]);
      }
    }
  }

  lemma BlockHashOpensOnce(t: string, p: nat)
    requires p <= |t| && BlockHashAt(t, p).Some?
    ensures OpensOnce(t, BlockHashAt(t, p).value)
  {
    var h := BlockHashAt(t, p).value;
    var e := h.End();
    HashPayloadShape(h.payload);
    TerminatorNoBracket(t[e - 4..e]);
    if h.network.Some? {
      PrefixNoBracket(t, p, h);
    }
    forall k | p < k < e ensures t[k] != '[' {
      if k >= e - 4 {
        assert t[k] == t[e - 4..e][k - (e - 4)];
      } else if k >= e - 70 {
        assert t[k] == h.payload[k - (e - 70)];
      }
    }
  }

  /** Every match of a bracketed pattern opens with `[` and holds no other `[`. */
  lemma BracketedOpensOnce(g: Pattern, t: string, p: nat)
    requires IsBracketed(g) && p <= |t| && HitAt(g, t, p).Some?
    ensures OpensOnce(t, HitAt(g, t, p).value)
  {
    if AddressAt(t, p).Some? {
      AddressOpensOnce(t, p);
    }
    if BlockNumberAt(t, p).Some? {
      BlockNumberOpensOnce(t, p);
    }
    if BlockHashAt(t, p).Some? {
      BlockHashOpensOnce(t, p);
    }
  }

  predicate IsLetter(c: char) { IsLower(c) || IsUpper(c) }

  /** What follows the `[` of an address: the `!` marker, or a letter and, two further on, a digit. */
  lemma AddressLead(t: string, p: nat)
    requires p <= |t|
    ensures AddressAt(t, p).Some? ==>
      p + 5 < |t| && (t[p + 1] == '!' || (IsLetter(t[p + 1]) && IsDigit(t[p + 3])))
  {
    if AddressAt(t, p).Some? {
      var a := AddressAt(t, p).value;
      AddressPayloadShape(a.payload);
      if !a.skip {
        assert t[p + 1] == a.payload[0] && t[p + 3] == a.payload[2];
      }
    }
  }

  /** What follows the `[` of a block number: digits then `@`, or a network code, `:`, then digits then `@`. */
  lemma BlockNumberLead(t: string, p: nat)
    requires p <= |t|
    ensures BlockNumberAt(t, p).Some? ==>
      p + 5 < |t|
      && ((IsDigit(t[p + 1]) && (IsDigit(t[p + 2]) || t[p + 2] == '@'))
          || (IsLetter(t[p + 1]) && t[p + 3] == ':' && (IsDigit(t[p + 5]) || t[p + 5] == '@')))
  {
    if BlockNumberAt(t, p).Some? {
      var n := BlockNumberAt(t, p).value;
      var e := n.End();
      var q := e - 4 - |n.payload|;
      if n.network.Some? {
        PrefixNoBracket(t, p, n);
      }
      assert t[q] == n.payload[0];
      if |n.payload| > 1 {
        assert t[q + 1] == n.payload[1];
      } else {
        assert t[q + 1] == t[e - 4..e][0];
      }
    }
  }

  /** What follows the `[` of a block hash: `0` and a letter, or a network code, `:`, `0` and a letter. */
  lemma BlockHashLead(t: string, p: nat)
    requires p <= |t|
    ensures BlockHashAt(t, p).Some? ==>
      p + 5 < |t|
      && ((t[p + 1] == '0' && IsLetter(t[p + 2]))
          || (IsLetter(t[p + 1]) && t[p + 3] == ':' && t[p + 4] == '0' && IsLetter(t[p + 5])))
  {
    if BlockHashAt(t, p).Some? {
      var b := BlockHashAt(t, p).value;
      var q := b.End() - 70;
      HashPayloadShape(b.payload);
      if b.network.Some? {
        PrefixNoBracket(t, p, b);
      }
      assert t[q] == b.payload[0] && t[q + 1] == b.payload[1];
    }
  }

  /** No two of the three bracketed patterns match at the same position. */
  lemma BracketedExclusive(t: string, p: nat)
    requires p <= |t|
    ensures AddressAt(t, p).None? || BlockNumberAt(t, p).None?
    ensures AddressAt(t, p).None? || BlockHashAt(t, p).None?
    ensures BlockNumberAt(t, p).None? || BlockHashAt(t, p).None?
  {
    AddressLead(t, p);
    BlockNumberLead(t, p);
    BlockHashLead(t, p);
  }

  /** At a position, the union pattern matches exactly as the pattern for the match's kind does. */
  lemma AnyBracketedHit(t: string, p: nat, h: Hit)
    requires p <= |t|
    ensures HitAt(AnyBracketed, t, p) == Some(h) <==> HitAt(PatternOf(h.kind), t, p) == Some(h)
  {
    BracketedExclusive(t, p);
  }

  /**
    The scan from `q` reports the match `at` reports at `p`, when no match it
    reports in between reaches past `p`.
   */
  lemma {:induction false} ScanWithReaches(at: nat -> Option<Hit>, n: nat, q: nat, p: nat)
    requires IsMatcher(at, n) && q <= p < n && at(p).Some?
    requires forall r: nat :: q <= r < p && at(r).Some? ==> at(r).value.End() <= p
    ensures at(p).value in ScanWith(at, n, q)
    decreases p - q
  {
    if q < p {
      match at(q)
      case Some(h) =>
        ScanWithReaches(at, n, h.End(), p);
      case None =>
        ScanWithReaches(at, n, q + 1, p);
    }
  }

  /**
    The scan from `q` reports the match the pattern makes at `p`, when no
    match it makes in between reaches past `p`.
   */
  lemma ScanReaches(g: Pattern, t: string, q: nat, p: nat)
    requires q <= p < |t| && HitAt(g, t, p).Some?
    requires forall r: nat :: q <= r < p && HitAt(g, t, r).Some? ==> HitAt(g, t, r).value.End() <= p
    ensures HitAt(g, t, p).value in Scan(g, t, q)
  {
    var at := MatcherOf(g, t);
    PatternMatcher(g, t);
    forall r: nat | q <= r < p && at(r).Some? ensures at(r).value.End() <= p {
      assert at(r) == HitAt(g, t, r);
    }
    assert at(p) == HitAt(g, t, p);
    ScanWithReaches(at, |t|, q, p);
  }

  /** A bracketed pattern's scan reports exactly the matches the pattern makes. */
  lemma BracketedScanMembers(g: Pattern, t: string, h: Hit)
    requires IsBracketed(g)
    ensures h in Scan(g, t, 0) <==> h.start < |t| && HitAt(g, t, h.start) == Some(h)
  {
    ScanMatches(g, t, 0);
    if h.start < |t| && HitAt(g, t, h.start) == Some(h) {
      BracketedOpensOnce(g, t, h.start);
      forall r: nat | r < h.start && HitAt(g, t, r).Some? ensures HitAt(g, t, r).value.End() <= h.start {
        BracketedOpensOnce(g, t, r);
      }
      ScanReaches(g, t, 0, h.start);
    }
  }

  /** The union scan reports exactly the matches of the three separate scans. */
  lemma AnyBracketedMembers(t: string, h: Hit)
    ensures h in Scan(AnyBracketed, t, 0) <==>
      h in Scan(AddressPattern, t, 0) || h in Scan(BlockNumberPattern, t, 0) || h in Scan(BlockHashPattern, t, 0)
  {
    BracketedScanMembers(AnyBracketed, t, h);
    BracketedScanMembers(AddressPattern, t, h);
    BracketedScanMembers(BlockNumberPattern, t, h);
    BracketedScanMembers(BlockHashPattern, t, h);
    if h.start < |t| {
      AnyBracketedHit(t, h.start, h);
    }
  }

  /** A bracketed pattern matches only at a `[`. */
  lemma BracketedLeads(g: Pattern, t: string, p: nat)
    requires IsBracketed(g) && p <= |t|
    ensures HitAt(g, t, p).Some? ==> t[p] == '['
  {
    if HitAt(g, t, p).Some? {
      BracketedOpensOnce(g, t, p);
    }
  }

  /** The scan passes over positions where `at` reports nothing. */
  lemma {:induction false} ScanWithSkips(at: nat -> Option<Hit>, n: nat, p: nat, q: nat)
    requires IsMatcher(at, n) && p <= q <= n
    requires forall r: nat :: p <= r < q ==> at(r).None?
    ensures ScanWith(at, n, p) == ScanWith(at, n, q)
    decreases q - p
  {
    if p < q {
      assert at(p).None?;
      ScanWithSkips(at, n, p + 1, q);
    }
  }

  /** A bracketed scan passes over text without `[` and reports nothing in it. */
  lemma ScanSkipsPlainText(g: Pattern, t: string, p: nat, q: nat)
    requires IsBracketed(g) && p <= q <= |t|
    requires forall k :: p <= k < q ==> t[k] != '['
    ensures Scan(g, t, p) == Scan(g, t, q)
  {
    var at := MatcherOf(g, t);
    PatternMatcher(g, t);
    forall r: nat | p <= r < q ensures at(r).None? {
      BracketedLeads(g, t, r);
    }
    ScanWithSkips(at, |t|, p, q);
  }
}
