# remark-corebc in Dafny

remark-corebc is a remark plugin. It finds inline Core Blockchain tokens in the
text nodes of a Markdown syntax tree: addresses such as `[cb71…@cb]`, block
numbers such as `[5999@cb]` or `[ab:5999@cb]`, and block hashes such as
`[0x…@cb]`. It replaces each text node, in its parent's child list, by a run of
nodes. These are plain text for what lies between tokens, plus one node per
token: an explorer link, a reference pair (a `[label]` text and a
link definition), or struck-through text for an address whose ICAN checksum
fails.

The repository has two copies of the plugin, and they behave differently.
This project models each one in its own module:

- `DistPlugin` covers `dist/index.js`. It runs three separate global
  regular-expression scans and concatenates their results. An options record
  drives a decision per match. A cursor loop builds the new nodes, and a
  splice puts them in place of the text node.
- `SrcPlugin` covers `src/index.ts`. It runs one combined pattern through
  `String.prototype.replace` with a callback that builds the nodes. It splices
  only when the rebuilt run is non-empty.

The shared modules are:

- `Ascii`: JavaScript string operations and the character classes of regular
  expressions.
- `Display`: the `shorten*` helpers.
- `Slug`: `slugify`.
- `Mdast`: the node shapes, the `make*Node` builders, and the parent whose
  children are spliced in place.
- `Tokens`: hand-written scanners for every regular expression, and the global
  scan.
- `Cursor`: the gap-and-match loop that both transformers run, with its
  reconstruction property.
- `Sample`: the first example of the repository's tests, the address token
  `[cb7147879011ea207df5b35a24ca6f0859dcfb145999@cb]`, and what the scanner
  makes of it, and the link each plugin makes of it under its default options.

The modules `DistFindings` and `SrcFindings` hold the two defects listed under
"## Findings". Each has a concrete input that shows the code as written, and
a corrected version with its property proved.

The main results:

- Every slug `slugify` makes is a slug (lower-case word characters and single
  inner dashes), and a slug is a fixpoint, so `slugify` is idempotent.
- Each scanner reports exactly the matches of its pattern, left to right,
  without overlap, and skips no position where its pattern matches. Each
  pattern matches at a position exactly when the token of its shape stands
  there.
- The three bracketed patterns never match at the same position. Their
  matches open with `[` and hold no other `[`. The union scan finds exactly
  the matches of the three separate scans.
- Both cursor loops are proved against a function of their input; the nodes
  they emit are those of `Render(Segments(...))`.
- Whenever the matches are in text order, the gaps and matched spans rebuild
  the text exactly. For `src/index.ts` this always holds. For `dist/index.js`
  it holds when the concatenated list happens to be sorted, and always for the
  corrected extraction.
- The per-match decision is stated as a table of outcomes: struck through,
  raw text, a reference pair whose identifier is a slug, or a link with its
  url, title and text. For `src/index.ts` both directions of each outcome are
  proved.

## Model

| member | source | states |
|---|---|---|
| Ascii.UpperChar | dist/index.js:39 | the upper-case form of a character is no lower-case letter and keeps word-ness; a lower-case letter becomes the upper-case letter 32 code points below it, and any other character is left alone |
| Ascii.LowerChar | dist/index.js:53 | the lower-case form of a character is no upper-case letter and keeps word-ness and digit-ness; an upper-case letter becomes the lower-case letter 32 code points above it, and any other character is left alone |
| Ascii.Upper | dist/index.js:39 | `toUpperCase` keeps the length and maps every character through the ASCII upper-case map |
| Ascii.Lower | dist/index.js:53 | `toLowerCase` keeps the length and maps every character through the ASCII lower-case map |
| Ascii.Head | dist/index.js:50 | `slice(0, n)` is the prefix of length `min(n, length)` |
| Ascii.Tail | dist/index.js:50 | `slice(-n)` is the suffix of length `min(n, length)` |
| Ascii.Drop | dist/index.js:95 | `substring(n, length)` is the suffix after the first `n` characters, empty when `n` reaches the length |
| Ascii.Slice | dist/index.js:201 | `slice(a, b)` inside the string is exactly `s[a..b]`, and empty when `b <= a` |
| Ascii.IndexOf | dist/index.js:73 | `indexOf` returns the first occurrence at or after `from`, or none when there is no occurrence there |
| Ascii.ReplaceFirst | dist/index.js:73 | `replace` with a string pattern leaves a string without the pattern unchanged, and otherwise replaces exactly the first occurrence |
| Display.ShortenId | dist/index.js:50 | for ids of at least four characters: the first four, an ellipsis, the last four (nine characters); a shorter id appears twice around the ellipsis |
| Display.ShortenBlock | dist/index.js:51 | numbers of up to nine characters are unchanged; longer ones keep their first four and last four around an ellipsis |
| Display.ShortenHash | dist/index.js:52 | hashes of at least six characters keep their first six and last four around an ellipsis (eleven characters) |
| Slug.DropSpacesShape | dist/index.js:54 | dropping leading whitespace leaves a suffix that starts with a non-space |
| Slug.DashSpacesNoUpper | dist/index.js:54 | replacing whitespace runs with `-` introduces no upper-case letter |
| Slug.DashSpacesFixed | dist/index.js:54 | text without whitespace is unchanged by the whitespace step |
| Slug.KeepWordChars | dist/index.js:55 | after deleting non-word characters only word characters and `-` remain |
| Slug.KeepWordSlugChars | dist/index.js:55 | on text without upper-case letters, what remains is in the slug alphabet |
| Slug.KeepWordFixed | dist/index.js:55 | text made only of word characters and `-` is unchanged by the deletion step |
| Slug.CollapseDashesShape | dist/index.js:56 | after collapsing dash runs no two dashes are adjacent, and the first character is kept |
| Slug.CollapseDashesSlugChars | dist/index.js:56 | collapsing dash runs keeps the slug alphabet |
| Slug.CollapseDashesFixed | dist/index.js:56 | text without a double dash is unchanged by collapsing |
| Slug.DropDashesShape | dist/index.js:57 | trimming leading dashes leaves a suffix that does not start with `-` |
| Slug.TrimEndShape | dist/index.js:58 | trimming trailing dashes leaves a prefix that does not end with `-` |
| Slug.SuffixPrefixInside | dist/index.js:57-58 | trimming both ends of a text without double dashes keeps its alphabet and its lack of double dashes |
| Slug.PipelineIsSlug | dist/index.js:53-58 | the five replace steps after lower-casing always produce a slug |
| Slug.Slugify | dist/index.js:53-58 | the result of `slugify` is a slug: lower-case word characters and dashes, no double dash, no dash at either end |
| Slug.SlugFixpoint | src/index.ts:92-97 | `slugify` returns every slug unchanged |
| Slug.SlugIdempotent | src/index.ts:92-97 | applying `slugify` twice gives the same result as applying it once |
| Mdast.MakeText | dist/index.js:9-12 | a text node holding exactly the given text |
| Mdast.MakeLink | dist/index.js:3-8 | a link node with the url, one text child, and a title that is null exactly when the given title is empty |
| Mdast.MakeReference | dist/index.js:13-27 | a paragraph of `[text]` and a definition whose identifier and url are the reference and whose label is the text |
| Mdast.MakeStrikethrough | dist/index.js:28-31 | a text node holding the text between `~~` markers |
| Mdast.Spliced | dist/index.js:214 | the child list with the element at `index` replaced by the new nodes: the prefix and the suffix stay as they were |
| Mdast.Parent.constructor | dist/index.js:194 | a parent holds the given child list |
| Mdast.Parent.Splice | dist/index.js:214 | `splice(index, 1, ...nodes)` changes the parent's children to the spliced list |
| Tokens.DigitRun | dist/index.js:65 | `\d+` is greedy: the run lies in the text, holds only digits, and is followed by a non-digit or the end |
| Tokens.AddressAt | dist/index.js:64 | an address match opens with `[`, has the `!` marker exactly when the next character is `!`, carries a 44-character payload of a network code, two digits and forty hex digits, and ends with `@cb]`; its network is the payload's code |
| Tokens.BlockNumberAt | dist/index.js:65 | a block-number match is `[`, an optional network code and `:`, a non-empty run of digits, then `@cb]`; its length and payload agree with that layout |
| Tokens.BlockHashAt | dist/index.js:66 | a block-hash match is `[`, an optional network code and `:`, `0x` and 64 hex digits, then `@cb]`; 71 or 74 characters |
| Tokens.BareNumberAt | src/index.ts:103 | the number alternative matches digits, optionally after a network code and `:`, between two word boundaries, with no bracket and no `@cb` |
| Tokens.TrailingHashAt | src/index.ts:103 | the hash alternative matches an optional network code and `:`, `0x` and 64 hex digits, then `@cb]`, with no leading bracket |
| Tokens.DigitRunExact | dist/index.js:65 | a run of `n` digits followed by a non-digit or the end is exactly what the greedy `\d+` takes |
| Tokens.AddressAtFinds | dist/index.js:64 | conversely, wherever `[`, an optional `!`, a 44-character address payload and `@cb]` stand, the address pattern matches there, with that payload, marker, network code and length |
| Tokens.BlockNumberAtFinds | dist/index.js:65 | conversely, wherever `[`, an optional network code and `:`, a digit run and `@cb]` stand, the block-number pattern matches there with those digits, that network and that length |
| Tokens.BlockHashAtFinds | dist/index.js:66 | conversely, wherever `[`, an optional network code and `:`, a 66-character hash and `@cb]` stand, the block-hash pattern matches there with that hash, network and length |
| Tokens.BareNumberAtFinds | src/index.ts:103 | conversely, a digit run, optionally after a network code and `:`, with a word boundary on both sides, is matched by the number alternative with those digits and that network |
| Tokens.TrailingHashAtFinds | src/index.ts:103 | conversely, an optional network code and `:`, a 66-character hash and `@cb]` are matched by the hash alternative with that hash and network |
| Tokens.HitAt | src/index.ts:103 | every match starts at its position, is non-empty and lies in the text; a single pattern answers with its own scanner; the combined pattern gives the address alternative wherever it matches, otherwise the number alternative wherever that matches, otherwise the trailing-hash alternative; the union of the three bracketed patterns tries address, then block number, then block hash |
| Tokens.ScanWith | dist/index.js:67 | the global scan with a matcher: from the cursor, the first position where the matcher reports a match gives that match, and the scan resumes at its end; the properties are those of the `ScanWith...` lemmas below |
| Tokens.Scan | dist/index.js:67 | `matchAll` of one pattern over the text from a position, as `ScanWith` of the pattern's matcher; the properties are those of the `Scan...` lemmas below |
| Tokens.PatternMatcher | dist/index.js:64-66 | every pattern reports, at each position, only a non-empty match starting there and ending inside the text |
| Tokens.ScanWithMatches | dist/index.js:67 | every match a global scan reports is one its matcher reports at that match's start |
| Tokens.ScanMatches | dist/index.js:67 | every match `matchAll` reports is one the pattern makes at its start, inside the scanned text |
| Tokens.ScanWithAscending | dist/index.js:67 | a global scan's matches are non-empty and each ends at or before the start of the next |
| Tokens.ScanAscending | dist/index.js:67 | the matches `matchAll` reports come in ascending order without overlap |
| Tokens.ScanWithLeftmost | dist/index.js:67 | each position where the matcher reports a match lies inside some match of the scan |
| Tokens.ScanLeftmost | dist/index.js:67 | leftmost first and nothing skipped: each position where the pattern matches lies inside a reported match |
| Tokens.AddressOpensOnce | dist/index.js:64 | an address match opens with `[` and contains no other `[` |
| Tokens.BlockNumberOpensOnce | dist/index.js:65 | a block-number match opens with `[` and contains no other `[` |
| Tokens.BlockHashOpensOnce | dist/index.js:66 | a block-hash match opens with `[` and contains no other `[` |
| Tokens.BracketedOpensOnce | dist/index.js:64-66 | every match of a bracketed pattern opens with `[` and contains no other `[` |
| Tokens.AddressLead | dist/index.js:64 | after the `[` of an address comes `!`, or a letter with a digit two places further on |
| Tokens.BlockNumberLead | dist/index.js:65 | after the `[` of a block number come digits then `@`, or a network code, `:` and digits |
| Tokens.BlockHashLead | dist/index.js:66 | after the `[` of a block hash comes `0` and a letter, or a network code, `:`, `0` and a letter |
| Tokens.BracketedExclusive | dist/index.js:64-66 | no two of the three patterns match at the same position |
| Tokens.AnyBracketedHit | dist/index.js:64-66 | at a position, trying the three patterns in turn gives a match exactly when the pattern for that match's kind gives it |
| Tokens.ScanWithReaches | dist/index.js:67 | a scan reports the match at a position when no earlier match reaches past that position |
| Tokens.ScanReaches | dist/index.js:67 | `matchAll` reports the pattern's match at a position when no earlier match of the pattern reaches past it |
| Tokens.BracketedScanMembers | dist/index.js:67 | a bracketed pattern's scan reports a match if and only if the pattern makes that match at its start |
| Tokens.AnyBracketedMembers | dist/index.js:67-100 | the single scan over the three patterns reports exactly the matches of the three separate scans |
| Tokens.BracketedLeads | dist/index.js:64-66 | a bracketed pattern matches only at a `[` |
| Tokens.ScanWithSkips | dist/index.js:67 | a scan passes over positions where its matcher reports nothing |
| Tokens.ScanSkipsPlainText | dist/index.js:67 | a bracketed scan over text without `[` reports nothing there and resumes after it |
| Cursor.Segments | dist/index.js:199-213 | the pieces the cursor loop emits for a match list: the gap before each match when it starts after the cursor, the match, then the rest from the match's end with the cursor moved there, and finally the text after the cursor when any is left; its properties are `RenderStep`, `Reconstruction` and `GapsNonEmpty` |
| Cursor.GapBefore | dist/index.js:200-202 | the gap text from the cursor to a match's start, present only when the match starts after the cursor |
| Cursor.Render | dist/index.js:199-213 | one node per piece: a text node for each gap, the match's node for each match |
| Cursor.RenderAppend | dist/index.js:204 | the nodes of two runs of pieces are the nodes of each run, concatenated |
| Cursor.RenderStep | dist/index.js:200-209 | for the first match: the gap node when the match starts after the cursor, the match's node, then the nodes for the rest from the match's end |
| Cursor.Advance | dist/index.js:199-209 | one turn of the loop keeps "emitted so far plus the nodes still to come" equal to the whole result |
| Cursor.RenderEnd | dist/index.js:211-213 | after the last match: one text node for the rest when the cursor is short of the end, otherwise none |
| Cursor.CoverAppend | dist/index.js:199-213 | the text that two runs of pieces stand for is that of each run, concatenated |
| Cursor.Reconstruction | dist/index.js:199-213 | when the matches lie in the text in order, the gaps and matched spans the loop emits are the text from the cursor on, character for character |
| Cursor.GapsNonEmpty | dist/index.js:200-201 | every gap the loop emits holds at least one character |
| Cursor.NoMatchSegments | dist/index.js:211-213 | without matches, the loop emits the whole value as one gap, or nothing for an empty value |
| DistPlugin.TransformName | dist/index.js:35-49 | the result is `network:` when a network is given, then the text re-cased character by character for its mode (upper-case address; hash with its first two characters lower-cased; number unchanged), then `@cb` when the suffix is asked for |
| DistPlugin.MatchOf | dist/index.js:67-100 | the record keeps the match's kind, payload as typed, start and length; its network is the upper-cased code or `CB`, and only an address can skip the checksum; its url is the option's path for its kind with `${1}` replaced by the lower-cased payload; its display form is the shortened payload, upper-cased for an address and re-cased after the `0x` for a hash |
| DistPlugin.MatchDisplay | dist/index.js:72-95 | the display forms: an address shows its first four and last four characters upper-cased around an ellipsis, a block number of up to nine digits shows itself and a longer one its first four and last four digits, and a hash its lower-cased `0x`, the next four and the last four digits upper-cased |
| DistPlugin.MatchesOf | dist/index.js:67-100 | one record per match, in the order of the matches |
| DistPlugin.Extracted | dist/index.js:62-102 | what `extractMatches` returns: the records of the address scan, then of the block-number scan, then of the block-hash scan; the properties are those of `ExtractMatches`, `ExtractedPlaced` and `ExtractedOrder` |
| DistPlugin.ExtractMatches | dist/index.js:62-102 | the three loops return the address records, then the block-number records, then the block-hash records, each in scan order |
| DistPlugin.WithSlash | dist/index.js:108-109 | the explorer url ends with `/`, and a url that already does is unchanged |
| DistPlugin.TransformMatch | dist/index.js:104-171 | the callback of `transformMatchesIntoNodes` for one record, with its network switch, checksum test and per-kind branches; its outcomes are stated by `TransformMatchCases` |
| DistPlugin.TransformMatchCases | dist/index.js:105-170 | a rejected address becomes struck-through shortened text whatever the other options say; a kind whose check is off keeps its raw payload; otherwise the result is a reference pair `NETWORK-slug` when networks are not linked or the network is neither CB nor AB, and otherwise an explorer link whose title is the full re-cased payload |
| DistPlugin.TransformMatchesIntoNodes | dist/index.js:103-104 | the `flatMap` gives exactly one node per match, the callback's node for that match |
| DistPlugin.EmitNodes | dist/index.js:196-213 | the cursor loop and the trailing slice produce exactly the rendered pieces of the match list, in list order |
| DistPlugin.Rewritten | dist/index.js:196-213 | the nodes the transformer builds for a text value: the rendered pieces of the cursor loop over the list `extractMatches` returns; `RewriteText` computes it, and `NoMatchUnchanged`, `SortedReconstruction` and `UnsortedRepeatsText` state what it is |
| DistPlugin.RewriteText | dist/index.js:196-213 | the new nodes for a text node are the rendered pieces of the concatenated match list |
| DistPlugin.Transformer | dist/index.js:191-214 | a text child is replaced in place by its new nodes, and every other child is left as it was |
| DistPlugin.AddressPlaced | dist/index.js:64 | an address record lies in the text as `[`…`@cb]`, with its payload right before the terminator, its network from its own code, its skip flag from the `!`, and a nine-character display form |
| DistPlugin.BlockNumberPlaced | dist/index.js:65 | a block-number record lies in the text as `[`…`@cb]` with its digits right before the terminator, and names `CB` unless a `net:` prefix is written |
| DistPlugin.NumberShapePlaced | dist/index.js:79-88 | a record that carries a block-number match's kind, span, payload and network is placed in the text |
| DistPlugin.BlockHashPlaced | dist/index.js:66 | a block-hash record lies in the text as `[`…`@cb]` with its hash right before the terminator |
| DistPlugin.MatchOfPlaced | dist/index.js:67-100 | the record of any match of one of the three patterns is placed and bracketed |
| DistPlugin.ScanListOrder | dist/index.js:67-100 | each of the three lists holds only its own kind, in ascending order without overlap |
| DistPlugin.ScanListPlaced | dist/index.js:67-100 | every entry of each of the three lists is placed and bracketed |
| DistPlugin.ExtractedPlaced | dist/index.js:62-102 | every record `extractMatches` returns lies in the text as a bracketed token |
| DistPlugin.KindOrderedAppend | dist/index.js:67-100 | appending a list of a higher-ranked kind keeps the order by kind and by position within a kind |
| DistPlugin.KindOrderedConcat | dist/index.js:67-100 | addresses, then numbers, then hashes, each ordered, concatenate into a list ordered by kind |
| DistPlugin.ExtractedOrder | dist/index.js:62-102 | the returned list is ordered by kind (addresses, numbers, hashes) and by position within a kind, not by position overall |
| DistPlugin.NoMatchUnchanged | dist/index.js:196-214 | without a match, a value comes back as one identical text node, and an empty value as nothing |
| DistPlugin.EmptyValueDropsChild | dist/index.js:211-214 | the splice for an empty text node removes the node and keeps the other children in order |
| DistPlugin.AscendingInOrder | dist/index.js:199-209 | records with increasing starts whose spans are bracketed follow the text without overlap |
| DistPlugin.SortedReconstruction | dist/index.js:196-213 | when the concatenated list happens to be sorted by start, the gaps and matched spans rebuild the value exactly |
| DistPlugin.DefaultPaths | dist/index.js:181-183 | the default path templates give `address/` or `block/` followed by the substituted payload |
| DistPlugin.DefaultAddressLink | dist/index.js:175-189 | under the default options, a CB address the checksum accepts becomes the link `https://blockindex.net/address/<lower-cased payload>`, titled with the whole payload upper-cased, whose text is the first four and last four characters upper-cased around an ellipsis, then `@cb` |
| DistFindings.SampleAddressScan | dist/index.js:67 | on the sample, the address scan finds the one address, at offset 6 |
| DistFindings.SampleNumberScan | dist/index.js:79 | on the sample, the block-number scan finds the one number, at offset 0 |
| DistFindings.SampleHashScan | dist/index.js:90 | on the sample, the block-hash scan finds nothing |
| DistFindings.SampleExtracted | dist/index.js:62-102 | on the sample, the returned list has the address, which comes second in the text, first |
| DistFindings.ReversedPairSegments | dist/index.js:199-213 | two adjacent matches listed in reverse order make the loop emit the earlier gap, both matches, and the later match's span again as trailing text |
| DistFindings.ReversedPair | dist/index.js:199-213 | for two adjacent matches listed in reverse order, the emitted pieces stand for the value twice |
| DistFindings.UnsortedRepeatsText | dist/index.js:196-213 | on the sample as written, the output stands for the text twice: four nodes, and the trailing text node repeats the address token |
| DistFindings.InOrderPlaced | dist/index.js:62-102 | every entry of the corrected single-scan list is placed and bracketed |
| DistFindings.InOrderAscending | dist/index.js:62-102 | the corrected list's starts strictly increase |
| DistFindings.InOrderSameMatches | dist/index.js:62-102 | the corrected list holds exactly the records of the list as written |
| DistFindings.InOrderReconstruction | dist/index.js:196-213 | with the corrected list the gaps and matched spans always rebuild the value |
| SrcPlugin.ChooseNetwork | src/index.ts:76-90 | the network is always `cb`, `ab` or `ce`: the lower-cased code when it is one of them, and `cb` when the code is absent, empty or anything else |
| SrcPlugin.DisplayName | src/index.ts:147-161 | the display name: for an address its first four and last four characters upper-cased around an ellipsis; a block number of up to nine digits itself, a longer one its first four and last four digits; for a hash its `0x` as typed, the next four and the last four digits upper-cased |
| SrcPlugin.SrcNode | src/index.ts:142-179 | the node the callback pushes for one match, as a decision table; its outcomes are stated by `NodeKind`, `LinkShape` and `ReferenceShape`, and `MatchNode` computes it |
| SrcPlugin.MatchNode | src/index.ts:142-179 | the callback's locals yield exactly the node of the decision table for the match |
| SrcPlugin.NodeKind | src/index.ts:146-179 | the node is struck text if and only if the checksum rejects an address; a link if and only if the match is valid and its network linked; a reference pair if and only if it is valid and not linked; block numbers and hashes are never struck |
| SrcPlugin.LinkShape | src/index.ts:163-174 | a valid match on a linked network becomes a link to `<explorer><address or block>/<payload as typed>` whose text is its title plus `@cb`; the title has an `ab:` prefix exactly on the test network |
| SrcPlugin.DisplayNonEmpty | src/index.ts:147-161 | a non-empty payload has a non-empty display name |
| SrcPlugin.ReferenceShape | src/index.ts:168-176 | any other valid match becomes `[network:display@cb]` with a definition whose identifier and url are a slug |
| SrcPlugin.EmitNodes | src/index.ts:126-187 | the callback run over the matches in the order found, then the trailing slice, produces exactly the rendered pieces |
| SrcPlugin.Rewritten | src/index.ts:126-187 | the nodes the transformer builds for a text value: the rendered pieces of the cursor loop over the combined pattern's scan; `RewriteText` computes it, and `SrcReconstruction` and `NoMatchUnchanged` state what it is |
| SrcPlugin.RewriteText | src/index.ts:121-187 | the new nodes for a text node are the rendered pieces of the combined pattern's scan |
| SrcPlugin.Transformer | src/index.ts:118-190 | a text child is replaced in place by its new nodes when there are any; otherwise the children stay as they are |
| SrcPlugin.SrcReconstruction | src/index.ts:126-187 | the combined pattern's matches follow the text, so the gaps and matched spans always rebuild the value |
| SrcPlugin.SplicedExactlyWhenNonEmpty | src/index.ts:185-190 | the new run is empty exactly when the value is, so only an empty text node is left unspliced |
| SrcPlugin.NoMatchUnchanged | src/index.ts:185-190 | without a match, a non-empty value is replaced by one text node holding the identical value |
| SrcPlugin.DefaultAddressLink | src/index.ts:110-114 | under the default options, a CB address the checksum accepts becomes the link `https://blockindex.net/address/<payload as typed>`, titled with its first four and last four characters upper-cased around an ellipsis, and showing that title with `@cb` |
| Sample.ExampleCase | test/remarkCorebc.test.ts:21 | the repository's first example address is its own lower case |
| Sample.ExamplePayload | test/remarkCorebc.test.ts:21 | the first example is a well-formed address payload with the code `cb` |
| Sample.ExampleFound | test/remarkCorebc.test.ts:21 | the address pattern matches the first example's token whole, as a CB address of 49 characters |
| Sample.ExampleEnds | test/remarkCorebc.test.ts:23 | the first example's ends upper-cased around an ellipsis read `CB71…5999` |
| Sample.DistExampleLink | dist/index.js:175-189 | under the default options of `dist/index.js`, the repository's first example becomes the link to `https://blockindex.net/address/cb7147879011ea207df5b35a24ca6f0859dcfb145999` titled with the whole address upper-cased and labelled `CB71…5999@cb` |
| Sample.SrcExampleLink | src/index.ts:110-114 | under the default options of `src/index.ts`, the repository's first example becomes the link to `https://blockindex.net/address/cb7147879011ea207df5b35a24ca6f0859dcfb145999` titled `CB71…5999` and labelled `CB71…5999@cb`, as the test at test/remarkCorebc.test.ts:20-24 expects |
| SrcFindings.TokenChars | src/index.ts:103 | the sample token `[5999@cb]` is a bracket, four digits and `@cb]`, with no network code |
| SrcFindings.WrittenHit | src/index.ts:103 | as written, the combined pattern matches the four digits of `[5999@cb]` after the bracket |
| SrcFindings.WrittenMissesBracket | src/index.ts:103 | as written, the combined pattern does not match at the token's `[` |
| SrcFindings.WrittenMissesSuffix | src/index.ts:103 | as written, the combined pattern matches nowhere in the token's `@cb]` |
| SrcFindings.WrittenScan | src/index.ts:103 | as written, the scan of `[5999@cb]` finds only the digits |
| SrcFindings.BlockNode | src/index.ts:163-174 | block 5999 on the main network becomes the explorer link `https://blockindex.net/block/5999` titled `5999` |
| SrcFindings.WrittenSegments | src/index.ts:139-141 | as written, the loop's pieces for the token are `[`, the digits, and `@cb]` |
| SrcFindings.WrittenNodes | src/index.ts:185-187 | those pieces render as a text node, the link, and a text node |
| SrcFindings.BracketsSurvive | src/index.ts:126-187 | as written, `[5999@cb]` becomes the text `[`, the link, and the text `@cb]` |
| SrcFindings.WholeTokens | src/index.ts:103 | every match of the corrected scan is a whole token that opens with `[` and closes with `@cb]` |
| SrcFindings.BracketedReconstruction | src/index.ts:126-187 | with the corrected scan the gaps and matched spans still rebuild the value |
| SrcFindings.BracketedHit | src/index.ts:103 | with the bracketed patterns, the whole token matches at its `[` |
| SrcFindings.BracketedScan | src/index.ts:103 | the corrected scan of the token finds the whole token |
| SrcFindings.TokenReplaced | src/index.ts:126-187 | corrected, `[5999@cb]` becomes the link alone |

## Left out

- Tree traversal: `unist-util-visit` is not modelled. `Transformer` is the visitor's callback for one child of one parent. The order of visits, and how the visitor resumes after a splice, are not modelled.
- Checksum: `Ican.isValid` from `@blockchainhub/ican` is foreign code. It is a parameter `isValid` of every operation that needs it.
- Debug output: the `console.log`/`console.dir` output under the `debug` option is I/O and is not modelled. The option is kept in the record.
- Markdown: parsing and serialisation by remark, and the Markdown text the tests compare, are not modelled. The model stops at the syntax-tree nodes.
- Type declarations: `index.d.ts` and `types/index.d.ts` declare types only.
- Option merging: the `{...defaults, ...options}` merge is not modelled. The operations take the merged record. An option the caller sets to `undefined` or to a non-string would give `undefined` in the explorer url or path; the model types every option.
- Case mapping: `toUpperCase`/`toLowerCase` are modelled on ASCII letters only. The strings they are applied to are ASCII payloads and network codes, apart from the ellipsis, which has no case. A string is a sequence of Unicode scalar values, so every offset and length in the model counts scalar values where JavaScript counts UTF-16 code units; the ellipsis is one of either.
- Astral characters and lone surrogates: a character outside the Basic Multilingual Plane is one element in the model and two code units in JavaScript, so the gap offsets around it differ by one; a text holding an unpaired surrogate is not representable, because `char` holds scalar values only. Both counts step over the same characters, so gaps are cut at the same characters and the emitted text nodes are the same; only the offset numbers differ.
- Dollar patterns: the `$` patterns that `String.prototype.replace` interprets in a replacement string are not modelled. The replacement inserted is a lower-cased payload, which holds no `$`.
- Unreachable default: the `default` branch of `transformMatchesIntoNodes` and the case in `src/index.ts` where no payload group is set cannot happen. Every match has one of the three kinds, with a non-empty payload.
- Tokens.AddressAt: its own contract states the shape of what it reports; the converse, that every token of that shape is found, is `Tokens.AddressAtFinds`.
- Tokens.BlockNumberAt: its own contract states the shape of what it reports; the converse is `Tokens.BlockNumberAtFinds`.
- Tokens.BlockHashAt: its own contract states the shape of what it reports; the converse is `Tokens.BlockHashAtFinds`.
- Tokens.BareNumberAt: its own contract states the shape of what it reports; the converse is `Tokens.BareNumberAtFinds`.
- Tokens.TrailingHashAt: its own contract states the shape of what it reports; the converse is `Tokens.TrailingHashAtFinds`.
- Ascii.Slice: the contract does not speak of a start inside the string with an end past it. The plugin never slices that way.
- Display.ShortenHash: the contract speaks only of hashes of six characters or more. Every hash payload has 66.
- SrcPlugin.LinkShape: requires a non-empty payload, so that the title is not `null`. Every match of the pattern has one.
- Tests against the code: in several places the repository's tests expect output that neither copy produces as written. The model follows the code:
  - the tests expect the shortened address as the link title, but `dist/index.js:146` uses the full re-cased payload;
  - they expect no `ab:` prefix on a test-network address, which `src/index.ts:167` adds;
  - they expect a lower-case `ab:` on test-network blocks, where `dist/index.js:154` writes `AB:`.
- Order of matches: the cursor loop at `dist/index.js:199-213` emits a gap only when `match.originalIndex > lastIndex` (line 200) and moves `lastIndex` to the end of each match (line 209), so it rebuilds the text only from a list in text order. `extractMatches` (lines 67-101) appends all address matches, then all block-number matches, then all block-hash matches, which is no such order. The model follows the code (see "## Findings"). The corrected extraction is one scan that tries all three patterns at each position, which yields text order; since the three patterns never match at the same position, it keeps every match.

## Findings

| source | as written | input that shows it | evidently intended | confidence | as-written member | corrected member |
|---|---|---|---|---|---|---|
| dist/index.js:67-101 | `extractMatches` concatenates all address matches, then all block-number matches, then all block-hash matches, and the cursor loop at lines 199-213 walks that list as if it followed the text | `[1@cb]` followed by `[cb` + 42 zeros + `@cb]`: the loop emits the number token as gap text, the address link, the number link, and then the address token again as trailing text | the matches are processed in text order, so that the output stands for the text exactly once | not executed | DistFindings.UnsortedRepeatsText | DistFindings.InOrderReconstruction |
| src/index.ts:103 | of the three alternatives of `cbPattern`, only the address one includes the brackets: the number alternative has neither the `\[` nor the `@cb\]`, only word boundaries, and the hash alternative has no leading `\[` | `[5999@cb]`: the match is `5999` alone, so the output is the text `[`, the link, and the text `@cb]`, where the test at test/remarkCorebc.test.ts:44-48 expects the link alone | each alternative matches the whole bracketed token, as the three patterns of dist/index.js do | not executed | SrcFindings.BracketsSurvive | SrcFindings.TokenReplaced |
