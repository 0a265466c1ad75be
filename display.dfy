/**
  The shorteners that turn a payload into its display form. Both copies of
  the plugin define them with the same bodies.
 */
module Display {
  import opened Ascii

  /** `shortenId`: the first four characters, an ellipsis, the last four. */
  function ShortenId(id: string): (r: string)
    ensures |id| >= 4 ==> |r| == 9 && r[..4] == id[..4] && r[4] == Ellipsis && r[5..] == id[|id| - 4..]
    ensures |id| < 4 ==> r == id + [Ellipsis] + id
  {
    Head(id, 4) + [Ellipsis] + Tail(id, 4)
  }

  /** `shortenBlock`: numbers of up to nine digits stay as they are, longer ones are shortened like an id. */
  function ShortenBlock(block: string): (r: string)
    ensures |block| <= 9 ==> r == block
    ensures |block| > 9 ==> |r| == 9 && r[..4] == block[..4] && r[4] == Ellipsis && r[5..] == block[|block| - 4..]
  {
    if |block| > 9 then Head(block, 4) + [Ellipsis] + Tail(block, 4) else block
  }

  /** `shortenHash`: the first six characters (the `0x` and four digits), an ellipsis, the last four. */
  function ShortenHash(hash: string): (r: string)
    ensures |hash| >= 6 ==> |r| == 11 && r[..6] == hash[..6] && r[6] == Ellipsis && r[7..] == hash[|hash| - 4..]
  {
    Head(hash, 6) + [Ellipsis] + Tail(hash, 4)
  }
}
