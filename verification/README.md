# CMHoC map maker: the vote-projection pipeline in Dafny

This project models the projection core of `CMHoCMap/MapMaker.py`. The program
reads historical per-riding vote shares, scales each party's share by the
ratio of a national target to that party's national average (a proportional
swing), picks the projected winner of every riding and colours the riding on
an SVG map by winner and margin. All I/O is left out. The rest is modelled as
pure functions over strings, sequences and maps of `real`:

- `Text`: Python's `str.replace`, `str.split`, `str.strip`/`lstrip`.
- `Names`: `normalize_riding_name`. Em dash, en dash, minus sign and the
  mis-decoded `â€”` all become `-`.
- `ResultStore`: the `riding_results` dictionary, as an association list with
  distinct names. It keeps Python's insertion order: overwriting a name keeps
  its position, and a new name is appended.
- `Rows`: the body of the `parse_results` loop as a decision per line
  (`Stored`, `TooFewFields`, `WrongFieldCount`, `BadNumber`), folded over the
  lines in file order.
- `Parties`: the party list, year count and year slicing.
- `Averages`: `calculate_party_averages_per_year`. This is a mean over the
  non-zero shares only.
- `Projection`: the swing `share * (target / average)`, guarded by
  `average > 0`.
- `Ranking`: the stable descending `sorted` over the seven parties, the
  winner and the margin.
- `Colour`: `lighten_color`, which parses `#rrggbb`, blends each channel
  toward white and formats the result. Also the colour table and the
  margin-to-colour rule.
- `Blend`: `calculate_weighted_average`, a dot product truncated by `zip`.
- `Render`: the element loop of `update_svg_fill` over a document given as a
  sequence of attribute maps.

Where the docstring of `lighten_color` (line 43) says it multiplies each
component by `1 - factor`, the model follows the code on line 46. The code
blends toward white: `int((1 - f) * c + f * 255)`.

Python `float` is modelled as `real`. Number parsing (`float()`) is a parameter
`NumberParser = string -> Option<real>`, with `None` where `float` raises.

## Model

| member | source | states |
|---|---|---|
| Names.Normalize | CMHoCMap/MapMaker.py:4-7 | the normalised name contains no em dash, en dash or minus sign, and no `â€”` sequence |
| Names.DashesToHyphens | CMHoCMap/MapMaker.py:5 | the first three replacements keep the length and turn exactly the dash glyphs into hyphens, position by position |
| Names.NormalizeIdempotent | CMHoCMap/MapMaker.py:4-7 | normalising twice is the same as normalising once |
| Names.NormalizeKeepsClean | CMHoCMap/MapMaker.py:4-7 | a name with none of the four dash spellings is returned unchanged |
| Names.NormalizeDashInsensitive | CMHoCMap/MapMaker.py:5 | two names that differ only in which dash glyph they use normalise to the same name |
| Names.NormalizeMojibakeInsensitive | CMHoCMap/MapMaker.py:5 | writing `â€”` in place of any dash glyph gives the same normalised name, whatever text surrounds it |
| Names.MojibakeAsHyphen | CMHoCMap/MapMaker.py:5 | the last replacement treats `â€”` exactly as a hyphen standing in its place, whatever surrounds it |
| Names.DashesAround | CMHoCMap/MapMaker.py:5 | the first three replacements turn a dash glyph between two texts into a hyphen and leave `â€”` as it is |
| Names.NormalizeGlyphExamples | CMHoCMap/MapMaker.py:5 | `A—B`, `A–B` and `A−B` all normalise to `A-B` |
| Names.NormalizeMojibakeExample | CMHoCMap/MapMaker.py:5 | `Aâ€”B` normalises to `A-B` |
| Text.Replace | CMHoCMap/MapMaker.py:5 | `str.replace` leaves a string without the pattern unchanged |
| Text.ReplaceRemovesAll | CMHoCMap/MapMaker.py:5 | after replacing a pattern by a character it does not contain, the pattern no longer occurs |
| Text.ReplaceCharPointwise | CMHoCMap/MapMaker.py:5 | replacing one character acts on each position independently and keeps the length |
| Text.ReplaceIntroducesOnly | CMHoCMap/MapMaker.py:5 | every output character of `str.replace` comes from the input or from the replacement |
| Text.ReplaceAppend | CMHoCMap/MapMaker.py:5 | `str.replace` on a concatenation is the concatenation of the replaced parts when no occurrence straddles the join |
| Text.LeadBlocksStraddle | CMHoCMap/MapMaker.py:5 | no occurrence straddles a join whose next character appears in the pattern only as its first character |
| Text.Split | CMHoCMap/MapMaker.py:16 | `split(',')` gives at least one field, and no field contains a comma |
| Text.JoinSplit | CMHoCMap/MapMaker.py:16 | joining the fields with the separator gives back the line |
| Text.SplitCount | CMHoCMap/MapMaker.py:16 | there is one field more than there are commas |
| Text.TrimLeft | CMHoCMap/MapMaker.py:44 | `lstrip` removes exactly the longest prefix of stripped characters |
| Text.TrimRight | CMHoCMap/MapMaker.py:25 | the trailing half of `strip` removes exactly the longest suffix of stripped characters |
| Rows.Fields | CMHoCMap/MapMaker.py:16 | `line.strip().split(',')` gives at least one field, no field holds a comma, and joining the fields with commas gives back the stripped line |
| Rows.Percent | CMHoCMap/MapMaker.py:25 | one share field as a fraction; its property is carried by `Rows.ParseFractions` and the `strip('%')` lemmas below |
| Text.StripIdempotent | CMHoCMap/MapMaker.py:16 | stripping twice is the same as stripping once |
| Rows.StripTrailingPercent | CMHoCMap/MapMaker.py:25 | `strip('%')` turns `20%` into `20` |
| Rows.StripPercentBothEnds | CMHoCMap/MapMaker.py:25 | `strip('%')` removes every `%` at both ends: `%%5%` becomes `5` |
| Rows.StripKeepsInnerPercent | CMHoCMap/MapMaker.py:25 | `strip('%')` keeps a `%` that is not at either end: `1%2` is unchanged |
| Rows.ParseFractions | CMHoCMap/MapMaker.py:24-29 | the share list exists exactly when every field parses after `strip('%')`; it then has one entry per field, equal to the parsed value divided by 100 |
| Rows.Classify | CMHoCMap/MapMaker.py:16-30 | a line is skipped as incomplete exactly when it has fewer than 8 fields; it is stored exactly when it has 22 fields that all parse; what is stored is 21 fractions under the normalised field 0 |
| Rows.ParseRow | CMHoCMap/MapMaker.py:16-30 | one line's fate; its properties are carried by `Rows.Classify`, `Rows.WrongWidthSkipped` and `Rows.BadFieldSkipsRow` |
| Rows.WrongWidthSkipped | CMHoCMap/MapMaker.py:21-23 | a line with at least 8 fields but not exactly 22 is skipped for its column count |
| Rows.BadFieldSkipsRow | CMHoCMap/MapMaker.py:24-29 | one unreadable share field among 22 fields skips the whole line, with no partial row |
| Rows.Ingest | CMHoCMap/MapMaker.py:30 | a skipped line leaves the store as it was; a stored line sets its name's row and no other name's |
| Rows.IngestOtherName | CMHoCMap/MapMaker.py:30 | a line not stored under a name leaves that name's entry unchanged |
| Rows.IngestAll | CMHoCMap/MapMaker.py:15-30 | the parsing loop keeps the store's names distinct and its rows 21 wide |
| Rows.ParseResults | CMHoCMap/MapMaker.py:10-31 | the parsed store has distinct names and 21 shares in every row |
| Rows.IngestAllSnoc | CMHoCMap/MapMaker.py:15-30 | the lines are consumed in file order, one step per line |
| Rows.LastRowWins | CMHoCMap/MapMaker.py:15-30 | a name holds the row of the last line accepted under it |
| Rows.IngestAllOtherName | CMHoCMap/MapMaker.py:15-30 | lines none of which is accepted under a name leave that name's entry as it was before the loop |
| Rows.NeverStoredAbsent | CMHoCMap/MapMaker.py:15-30 | a name no line is accepted under is absent from the store |
| ResultStore.Find | CMHoCMap/MapMaker.py:96 | the position found is the first entry with that name, and there is none exactly when no entry has it |
| ResultStore.FindAppend | CMHoCMap/MapMaker.py:30 | appending an entry changes the lookup only for a name that was not stored |
| ResultStore.Put | CMHoCMap/MapMaker.py:30 | after `store[name] = row`, the name maps to the row and every other name keeps its entry; every existing entry keeps its position, and a new name is appended at the end |
| ResultStore.PutValid | CMHoCMap/MapMaker.py:30 | storing a 21-wide row keeps the names distinct and the rows full |
| Parties.Index | CMHoCMap/MapMaker.py:12 | each party's index in the party list points back to that party |
| Parties.YearSlice | CMHoCMap/MapMaker.py:56-58 | year slice `y` holds fields `7y` to `7y+6` of the row |
| Averages.TotalsAppend | CMHoCMap/MapMaker.py:55-66 | the non-zero total and count over two groups of ridings are the sums of the groups' totals and counts |
| Averages.ZeroIgnored | CMHoCMap/MapMaker.py:64-68 | a riding with a zero share changes neither the total, nor the count, nor the mean |
| Averages.TotalsBounded | CMHoCMap/MapMaker.py:64-66 | the non-zero total lies between `lo` and `hi` times the count when every counted share does |
| Averages.MeanBetween | CMHoCMap/MapMaker.py:68 | when some share counts, the mean lies between the least and the greatest counted share |
| Averages.MeanOfZeros | CMHoCMap/MapMaker.py:68 | with no non-zero share the average is 0 |
| Averages.TotalsZeroCount | CMHoCMap/MapMaker.py:64-66 | an all-zero column counts nothing |
| Averages.MeanExample | CMHoCMap/MapMaker.py:64-68 | shares 0.10, 0 and 0.30 average to 0.20, not 0.40/3 |
| Averages.TotalsPermutation | CMHoCMap/MapMaker.py:55 | the non-zero total and count do not depend on the order the ridings are visited in |
| Averages.MeanPermutation | CMHoCMap/MapMaker.py:55-68 | the average does not depend on the order the ridings are visited in |
| Averages.PartyAverages | CMHoCMap/MapMaker.py:50-70 | there is one average per party; party `p`'s is 0 when no riding has a non-zero share for it in year `y`, and otherwise lies between two ridings' non-zero shares for it |
| Averages.Mean | CMHoCMap/MapMaker.py:68 | the mean is 0 when every share is 0; otherwise it times the non-zero count is the non-zero total, and it lies between two non-zero shares of the column |
| Averages.NonzeroSum | CMHoCMap/MapMaker.py:64-65 | the running total; `Averages.TotalsAppend`, `Averages.TotalsBounded` and `Averages.TotalsPermutation` state its properties |
| Averages.NonzeroCount | CMHoCMap/MapMaker.py:64-66 | the running count; `Averages.NonzeroCounted` and `Averages.TotalsZeroCount` tie it to the non-zero shares |
| Averages.NonzeroCounted | CMHoCMap/MapMaker.py:64-66 | a column with any non-zero share has a positive count |
| Averages.ExtremeNonzero | CMHoCMap/MapMaker.py:64-68 | a column with a non-zero share has a least and a greatest non-zero share |
| Averages.RatioBetween | CMHoCMap/MapMaker.py:68 | with a non-zero share present, total over count lies between the least and greatest non-zero share |
| Averages.ZeroRidingKeepsAverage | CMHoCMap/MapMaker.py:55-68 | adding a new riding whose share for a party is 0 leaves that party's average unchanged |
| Projection.ProjectShare | CMHoCMap/MapMaker.py:111-118 | with a positive average, projection times average equals share times target; otherwise the projection is 0 |
| Projection.ProjectScales | CMHoCMap/MapMaker.py:111-113 | a target of `k` times the average multiplies the share by `k` |
| Projection.ProjectAtAverage | CMHoCMap/MapMaker.py:111-113 | a target equal to the average leaves the share unchanged |
| Projection.ProjectNonnegative | CMHoCMap/MapMaker.py:111-118 | non-negative shares and targets project to non-negative shares |
| Projection.NoBaselineProjectsZero | CMHoCMap/MapMaker.py:111-118 | a zero or negative average projects to 0 whatever the target |
| Projection.Project | CMHoCMap/MapMaker.py:105-118 | for each party with a positive average, projection times average equals share times target; a party with no positive average, or with no target, projects to 0 |
| Projection.UntargetedProjectsZero | CMHoCMap/MapMaker.py:107-113 | a party absent from the targets projects to 0 |
| Projection.ProjectExample | CMHoCMap/MapMaker.py:111-113 | share 0.20, average 0.20 and target 0.40 give 0.40 |
| Projection.ProjectProportional | CMHoCMap/MapMaker.py:112-113 | the swing keeps the ratio between two ridings' shares of one party |
| Ranking.Insert | CMHoCMap/MapMaker.py:126 | insertion adds exactly the one vote to the votes |
| Ranking.InsertRanked | CMHoCMap/MapMaker.py:126 | inserting a vote later in list order than all of a ranking keeps it ranked by share, ties in list order |
| Ranking.SortDesc | CMHoCMap/MapMaker.py:126 | the stable descending sort is a permutation, ordered by share from highest to lowest, with equal shares in party-list order |
| Ranking.RankingUnique | CMHoCMap/MapMaker.py:126 | only one ordering of the votes is ranked, so any stable descending sort gives this result |
| Ranking.Tally | CMHoCMap/MapMaker.py:103-118 | the party votes are the seven projected shares paired with their parties, in list order |
| Ranking.Decide | CMHoCMap/MapMaker.py:126-135 | the winner and margin from the sorted tally; `Ranking.DecideIsFirstMaximum` states what they are |
| Ranking.RankingHeads | CMHoCMap/MapMaker.py:126-135 | the first two entries of the sorted tally are two different parties: every other party has at most the second's share, and trails the first or ties it from later in the list |
| Ranking.DecideIsFirstMaximum | CMHoCMap/MapMaker.py:126-135 | the winner has the greatest share and is the earliest party in list order with it; the margin is non-negative and is the gap to the best share among the other parties |
| Ranking.AllZeroGoesToFirstParty | CMHoCMap/MapMaker.py:126-135 | when all projected shares are 0, the Liberals win with margin 0 |
| Colour.Format | CMHoCMap/MapMaker.py:47 | the formatted colour is `#` followed by six characters |
| Colour.DigitValue | CMHoCMap/MapMaker.py:45 | a hex digit is worth less than 16 |
| Colour.ParsePair | CMHoCMap/MapMaker.py:45 | a slice of at most two characters reads as hex exactly when it is non-empty and all its characters are hex digits |
| Colour.SliceDigits | CMHoCMap/MapMaker.py:45 | the slice `[i:i+2]` reads as hex exactly when it starts inside the string and every character it keeps is a hex digit |
| Colour.ParseColor | CMHoCMap/MapMaker.py:44-45 | after `lstrip('#')`, a colour reads exactly when at least five characters remain and every one of the first six is a hex digit |
| Colour.Slice | CMHoCMap/MapMaker.py:45 | a clamped slice is no longer than its bounds allow |
| Colour.DigitRoundTrip | CMHoCMap/MapMaker.py:45-47 | a formatted hex digit reads back as its value |
| Colour.PairRoundTrip | CMHoCMap/MapMaker.py:45-47 | a channel's two-digit hex form reads back as the channel |
| Colour.ParseFormat | CMHoCMap/MapMaker.py:44-47 | formatting a colour and parsing it back gives the colour |
| Colour.LightenChannel | CMHoCMap/MapMaker.py:46 | the channel is `(1 - factor) * c + factor * 255` truncated to an integer: at most that blend and more than the blend minus 1; it lies between the original channel and 255, factor 0 keeps it and factor 1 makes it 255 |
| Colour.Lighten | CMHoCMap/MapMaker.py:46 | no channel gets darker; factor 0 keeps the colour and factor 1 gives white |
| Colour.LightenColor | CMHoCMap/MapMaker.py:42-47 | `lighten_color` succeeds exactly when the colour reads, and its result reads back as the channel-wise blend of that colour |
| Colour.LightenFormatted | CMHoCMap/MapMaker.py:42-47 | `lighten_color` on a formatted colour is the formatted channel-wise blend |
| Colour.LightenMonotone | CMHoCMap/MapMaker.py:46 | a larger factor never gives a darker channel |
| Colour.LightenEnds | CMHoCMap/MapMaker.py:46-47 | factor 0 keeps every colour, and factor 1 gives `#ffffff` |
| Colour.BaseRgb | CMHoCMap/MapMaker.py:77-84 | the channels of the seven party colours; `Colour.BaseColorTable` states the strings |
| Colour.BaseColor | CMHoCMap/MapMaker.py:77-84 | each party's colour string reads back as its channels |
| Colour.BaseColorTable | CMHoCMap/MapMaker.py:77-86 | the colour strings are `#ff0000` (LPC), `#0000ff` (CPC), `#ffa500` (NDP), `#00ff00` (GRN), `#800080` (BLOC), `#ff1493` (PPC) and `#808080` (IND) |
| Colour.FormatTable | CMHoCMap/MapMaker.py:78-84 | the seven channel triples print as the strings of the table |
| Colour.Fade | CMHoCMap/MapMaker.py:138-141 | the blend factor a margin selects is between 0 and 0.5 |
| Colour.FillColor | CMHoCMap/MapMaker.py:136-141 | the fill is the base colour at a margin of 0.10 or more, `lighten_color(base, 0.3)` from 0.05 up to 0.10, and `lighten_color(base, 0.5)` below 0.05 |
| Colour.WiderMarginNeverLighter | CMHoCMap/MapMaker.py:138-141 | a wider margin never gives a lighter fill in any channel |
| Colour.FillExampleClose | CMHoCMap/MapMaker.py:138-139 | a Liberal win by 0.04 is drawn `#ff7f7f` |
| Colour.FillExampleNarrow | CMHoCMap/MapMaker.py:140-141 | a Liberal win by 0.07 is drawn `#ff4c4c` |
| Colour.FillExampleWide | CMHoCMap/MapMaker.py:136-141 | a Liberal win by 0.40 keeps `#ff0000` |
| Blend.DotPrefixFront | CMHoCMap/MapMaker.py:38 | an index sum of products splits into its first product plus the rest |
| Blend.WeightedAverage | CMHoCMap/MapMaker.py:38 | the sum over `zip`; `Blend.WeightedAverageIsDot` states it against the index-sum reference |
| Blend.WeightedAverageIsDot | CMHoCMap/MapMaker.py:34-40 | the weighted average is the sum of `values[i] * weights[i]` over the indices both sequences have |
| Blend.DotPrefixAgree | CMHoCMap/MapMaker.py:38 | index sums over values that agree up to `n` are equal |
| Blend.TruncatedToWeights | CMHoCMap/MapMaker.py:38 | values beyond the last weight do not contribute |
| Blend.SevenSharesThreeWeights | CMHoCMap/MapMaker.py:121-122 | called with seven party shares and the three year weights, only the first three parties contribute |
| Blend.BlendExample | CMHoCMap/MapMaker.py:34-40 | blending 0.4, 0.3 and 0.2 gives `0.4*0.50 + 0.3*0.333 + 0.2*0.167` |
| Render.RidingOutcome | CMHoCMap/MapMaker.py:98-135 | the projected winner and margin of one stored row: the year slice, projected by `Projection.Project` and decided by `Ranking.Decide`; `Ranking.DecideIsFirstMaximum` states that the winner is the earliest party with the greatest projected share and the margin its lead over the best other party |
| ResultStore.Lookup | CMHoCMap/MapMaker.py:96-97 | the membership test and the read of `riding_results`; `ResultStore.Find` states that the entry found is the first with that name and that absence means no entry has it |
| Text.Strip | CMHoCMap/MapMaker.py:16 | `str.strip`, here and in `x.strip('%')` at line 25: `Text.TrimLeft` and `Text.TrimRight` state that exactly the longest stripped prefix and suffix go, and `Text.StripBetween` that the characters between them are kept |
| Colour.HexPair | CMHoCMap/MapMaker.py:47 | `'{:02x}'`: `Colour.PairRoundTrip` states that the two digits read back as the channel, and `Colour.HexPairTable` pins the pairs the colour table uses |
| Render.LookupFull | CMHoCMap/MapMaker.py:96-98 | a row found in the parsed store has all 21 shares, so every year slice exists |
| Render.ElementRow | CMHoCMap/MapMaker.py:94-97 | an element without `data-riding` has no row; otherwise it has one exactly when some stored entry carries its normalised name, and the row is that entry's shares, all 21 of them |
| Render.RidingFill | CMHoCMap/MapMaker.py:98-141 | the fill of a stored row; `Render.SingleRidingScenario` and `Colour.FillColor` state what it is |
| Render.UpdateElement | CMHoCMap/MapMaker.py:94-144 | an unmatched element is returned as it is; a matched one gains `fill`, set to the riding's fill, and keeps every other attribute |
| Render.UpdateFills | CMHoCMap/MapMaker.py:91-144 | an element whose normalised `data-riding` is a stored riding gets that riding's computed fill and keeps every other attribute; every other element is unchanged |
| Render.SingleRidingAverages | CMHoCMap/MapMaker.py:50-70 | with one riding, each party's average is that riding's own share |
| Render.SingleRidingHitsTargets | CMHoCMap/MapMaker.py:91-118 | with one riding, a party with a positive share projects exactly to its target, and any other party to 0 |
| Ranking.LastComesLast | CMHoCMap/MapMaker.py:103-126 | the last party in list order comes after every other party, however the others are arranged |
| Ranking.RankedHeadsAgree | CMHoCMap/MapMaker.py:126 | two rankings of the same votes start with the same vote |
| Ranking.RankedTail | CMHoCMap/MapMaker.py:126 | the rest of a ranking after its first vote is a ranking of the other votes |
| Render.ScenarioProjection | CMHoCMap/MapMaker.py:105-118 | in the single-riding scenario the Liberals project to 0.40, the Conservatives to 0.30 and the rest to 0 |
| Render.ScenarioDecision | CMHoCMap/MapMaker.py:126-135 | projected shares 0.40, 0.30 and five zeros give a Liberal win by 0.10 |
| Render.SingleRidingScenario | CMHoCMap/MapMaker.py:91-141 | one riding at 20/30/10/5/5/5/5 with targets LPC 0.40 and CPC 0.30 goes to the Liberals by 0.10, drawn `#ff0000` |

## Left out

- File reading and every `print` (lines 13-15 and throughout): I/O with no effect on the result.
- The interactive prompt and validation loop in `main` (lines 155-170): user I/O. The targets are a given map.
- The year loop and output names in `main` (lines 172-175): it runs year index 0 only. `UpdateFills` takes the year index as a parameter.
- `ET.parse`, `findall`, `elem.set` and `tree.write` (lines 75, 94, 144-145): XML handling and file output in a foreign library. The document is a sequence of elements, each a map of attribute names to values. An element without `data-riding`, which `findall` does not return, is left unchanged. The program calls `tree.write` once per found element, each time on the tree with one more element processed; only the last write matches the `UpdateFills` result, and the intermediate files are not modelled.
- No output when no element matches (lines 94-145): `tree.write` sits inside the loop, so a document with no `data-riding` element writes no file at all. `UpdateFills` still returns the unchanged document.
- The root element (line 94): `findall(".//*[@data-riding]")` searches descendants only, so a root that itself carries `data-riding` is never filled. `UpdateFills` takes the descendant elements as its sequence and does not represent the root.
- Python's `float()` grammar (signs, exponents, `inf`, `nan`, surrounding blanks, underscores): the number parser is a parameter.
- IEEE floating point: shares, averages, ratios and blends are exact `real`s. Sums in different orders agree exactly here but not always in binary floating point. A blend that lands within rounding error of an integer may truncate differently. The margin tests at lines 138 and 140 compare against 0.05 and 0.10 exactly: in binary64, `0.15 - 0.10` is just below 0.05 and the program lightens by 0.5, where the exact model gets 0.05 and lightens by 0.3.
- Colour.ParsePair: reads only hex digits; `int(_, 16)` also accepts surrounding blanks, a sign and non-ASCII Unicode decimal digits (such as Arabic-Indic or fullwidth digits). Only the fixed colour table reaches it.
- Colour.LightenChannel: requires a factor in [0, 1]. The only callers pass 0.3 and 0.5. Other factors would push channels outside 0-255, which the formatting does not handle.
- The `'others'` colour and the `'#d3d3d3'` default of `color_map.get` (lines 85, 136): the winner is always one of the seven parties, so neither is reachable.
- The unused `total_votes` accumulator (lines 102, 115) and the unused result of `calculate_weighted_average` (line 122). `Blend` models the function on its own.
- Averages.PartyAverages: states each party's average through the bounds of `Averages.Mean`; the exact value (mean times count is total) is stated on `Averages.Mean`. It requires every row to have 21 shares and the year index to be 0, 1 or 2. Python raises `IndexError` for a shorter slice, and the parser only stores 21-share rows.
