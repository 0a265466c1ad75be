/**
  The repository's first example, `[cb7147879011ea207df5b35a24ca6f0859dcfb145999@cb]`:
  its address, the facts about its case and shape, the scanner's answer on
  it, and the link each plugin makes of it under its default options.
 */
module Sample {
  import opened Wrappers
  import opened Ascii
  import opened Display
  import opened Tokens
  import opened Mdast
  import DistPlugin
  import SrcPlugin

  /** The address of the repository's first example: its first four, middle thirty-six and last four characters. */
  const ExampleAddress: string := "cb71" + ExampleMiddle + "5999"
  const ExampleToken: string := "[" + ExampleAddress + "@cb]"
  const ExampleMiddle: string := "47879011ea207df5b35a24ca6f0859dcfb14"

  /** The middle of the example: thirty-six lower-case hexadecimal digits. */
  lemma ExampleMiddleHex()
    ensures |ExampleMiddle| == 36
    ensures forall i :: 0 <= i < 36 ==> IsHex(ExampleMiddle[i]) && !IsUpper(ExampleMiddle[i])
  {
    var m := ExampleMiddle;
    forall i | 0 <= i < 36 ensures IsHex(m[i]) && !IsUpper(m[i]) { }
  }

  lemma LowerAppend(a: string, b: string)
    ensures Lower(a + b) == Lower(a) + Lower(b)
  {
    assert forall i :: 0 <= i < |a + b| ==> (a + b)[i] == if i < |a| then a[i] else b[i - |a|];
  }

  /** The example address is all lower case and digits. */
  lemma ExampleCase()
    ensures Lower(ExampleAddress) == ExampleAddress
  {
    var a, m, b := "cb71", ExampleMiddle, "5999";
    ExampleMiddleHex();
    forall i | 0 <= i < |m| ensures Lower(m)[i] == m[i] { }
    forall i | 0 <= i < 4 ensures Lower(a)[i] == a[i] && Lower(b)[i] == b[i] { }
    LowerAppend(a, m);
    LowerAppend(a + m, b);
  }

  /** `cb` is one of the three network codes. */
  lemma CbIsNetworkCode()
    ensures Lower("cb") == "cb" && IsNetworkCode("cb")
  {
    var c := "cb";
    assert Lower(c)[0] == 'c' && Lower(c)[1] == 'b';
    assert Lower(c) == c;
  }

  /** The example is a well-formed address payload on the CB network. */
  lemma ExamplePayload()
    ensures IsAddressPayload(ExampleAddress) && ExampleAddress[..2] == "cb"
  {
    var p := ExampleAddress;
    assert p[0] == 'c' && p[1] == 'b' && p[2] == '7' && p[3] == '1';
    assert p[..2] == "cb";
    CbIsNetworkCode();
    ExampleMiddleHex();
    forall i | 0 <= i < 40 ensures IsHex(p[4..][i]) {
      assert p[4..][i] == p[i + 4];
      if i < 36 { assert p[i + 4] == ExampleMiddle[i]; }
    }
  }

  /** The match of the example's token: an address on the CB network spanning all 49 characters. */
  const ExampleHit: Hit := Hit(Address, 0, 49, false, Some("cb"), ExampleAddress)

  /** The example's token, `[<address>@cb]`, is found whole as an address. */
  lemma ExampleFound()
    ensures AddressAt(ExampleToken, 0) == Some(ExampleHit)
  {
    var t := ExampleToken;
    ExamplePayload();
    assert t[1..45] == ExampleAddress && t[45..49] == "@cb]";
    assert t[1..3] == ExampleAddress[..2];
    assert t[1] == ExampleAddress[0] == 'c';
    AddressAtFinds(t, 0, false);
  }

  /** The ends of the example upper-cased, as the shorteners show them. */
  lemma ExampleEnds()
    ensures Upper(ExampleAddress[..4]) == "CB71" && Upper(ExampleAddress[40..]) == "5999"
    ensures Upper(ExampleAddress[..4]) + [Ellipsis] + Upper(ExampleAddress[40..]) == "CB71\U{2026}5999"
  {
    var p := ExampleAddress;
    assert p[..4] == "cb71" && p[40..] == "5999";
    var a, b := Upper("cb71"), Upper("5999");
    assert a[0] == 'C' && a[1] == 'B' && a[2] == '7' && a[3] == '1';
    assert b[0] == '5' && b[1] == '9' && b[2] == '9' && b[3] == '9';
    assert a == "CB71" && b == "5999";
  }

  /**
    `dist/index.js` under its default options: the first example becomes a
    link to the address as typed, titled with the whole address upper-cased
    and labelled `CB71…5999@cb`.
   */
  lemma DistExampleLink(isValid: string -> bool)
    requires isValid(ExampleAddress)
    ensures DistPlugin.TransformMatch(DistPlugin.MatchOf(ExampleHit, DistPlugin.Defaults), DistPlugin.Defaults, isValid)
      == Link("https://blockindex.net/" + "address/" + ExampleAddress, Some(Upper(ExampleAddress)),
              [Text("CB71\U{2026}5999@cb")])
  {
    ExamplePayload();
    ExampleCase();
    ExampleEnds();
    assert Upper("cb")[0] == 'C' && Upper("cb")[1] == 'B';
    assert Upper("cb") == "CB";
    DistPlugin.DefaultAddressLink(ExampleHit, isValid);
    var d := "CB71\U{2026}5999";
    assert d + "@cb" == "CB71\U{2026}5999@cb";
  }

  /**
    `src/index.ts` under its default options: the first example becomes a
    link to the address as typed, titled `CB71…5999` and labelled
    `CB71…5999@cb`.
   */
  lemma SrcExampleLink(isValid: string -> bool)
    requires isValid(ExampleAddress)
    ensures SrcPlugin.SrcNode(ExampleHit, SrcPlugin.Defaults, isValid)
      == Link("https://blockindex.net/" + "address" + "/" + ExampleAddress,
              Some("CB71\U{2026}5999"), [Text("CB71\U{2026}5999@cb")])
  {
    ExamplePayload();
    ExampleEnds();
    CbIsNetworkCode();
    assert SrcPlugin.ChooseNetwork(ExampleHit.network) == "cb";
    SrcPlugin.DefaultAddressLink(ExampleHit, isValid);
    var d := "CB71\U{2026}5999";
    assert d + "@cb" == "CB71\U{2026}5999@cb";
  }
}
