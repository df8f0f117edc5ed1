# Prompt Bubbles: the prompt micro-language engine

Prompt Bubbles is a Stable Diffusion WebUI extension. It shows the prompt
textarea as a row of editable "bubbles", one per tag. The prompt is a
comma- and newline-separated list. It supports emphasis pairs `(tag)` and
`[tag]` with optional explicit values `(tag:1.2)`, resource references
`<lora:x:1>`, exclusive groups `!!a/b!!`, dynamic choices `a {b|c} d`, and
an inline translation annotation `tag@@translation@@`.

This project models the engine behind the bubbles:

- the tokenizer `tokenize`, as a functional scan and as the imperative loop
  proved against it;
- the classifier `identifyToken` and the translation codec `parseTag`;
- the weight codec `calculateWeight`, with its JavaScript `parseFloat` made
  explicit;
- the dynamic and group sub-parsers;
- `createBubbleElement` and the serializer `updateTextarea`, which write the
  bubbles back as text;
- the translation writer `applyTranslation`, `addTagToPrompt`, and the
  auto-parenthesis rule of the bubble editor.

It also models the Python side of the extension:

- the prompt cleanup of `before_process`, which expands groups and deletes
  `@@…@@` spans before generation;
- the tag-list loader with its row mapping, colours and count sort;
- the autocomplete search `search_tags`;
- the dictionary update `save_dict`, as a class holding the dictionary.

Modules, one per file:

| file | module | models |
|---|---|---|
| strings.dfy | `Strings` | JavaScript `trim`, Python `strip`, `indexOf`, `split`, `join`, `replace`, `substring`, `lower`, `in` |
| numbers.dfy | `Numbers` | JavaScript `parseFloat`, with NaN as `None` |
| translation.dfy | `Translation` | `parseTag` and the `tr ? t@@tr@@ : t` join |
| classifier.dfy | `Classifier` | `identifyToken` |
| tokenizer.dfy | `Tokenizer` | `tokenize` |
| weight.dfy | `WeightCodec` | `calculateWeight` |
| subparse.dfy | `SubParse` | the `{…}`, `@@…@@` and `!!…!!` splits of the bubble builder |
| serializer.dfy | `Serializer` | `createBubbleElement` (what the serializer reads back) and `updateTextarea` |
| rewrite.dfy | `Rewrite` | `applyTranslation` |
| addtag.dfy | `AddTag` | `addTagToPrompt` |
| autoparen.dfy | `AutoParen` | the `tag:1.2` to `(tag:1.2)` rule |
| cleanup.dfy | `PromptCleanup` | `expand_groups` and the translation stripping of `before_process` |
| tagload.dfy | `TagLoad` | `load_file` and `load_tags_from_csv` |
| tagsearch.dfy | `TagSearch` | `search_tags` |
| dictstore.dfy | `DictStore` | `save_dict` |

A few behaviours of the code are easy to misread. The model follows the
code in each of them:

- An explicit value is accepted when `!isNaN(parseFloat(…))` holds, so a
  literal such as `Infinity` is accepted too. `Numbers.Num` therefore has
  infinite values.
- `identifyToken` runs its dynamic test on the whole trimmed token, before
  the translation is removed. Only the later tests look at the base without
  its translation.
- The tokenizer closes a token at any `>` that leaves the angle and round
  depths at zero outside a group, whatever the curly and square depths are
  (`Tokenizer.CloseAngleStep`).
- A weight without an explicit value is written back in one pair of its
  own kind, `(t)` or `[t]`, however many pairs it had
  (`Serializer.NestedRoundTrip`).

The functions named after the source's functions (`Serializer.Build`,
`Serializer.Render`, `Rewrite.Rewrite`, `Rewrite.ApplyTranslation`) model
the code as written, defects included. Where the code evidently means
something else, a separate corrected function (`Serializer.BuildCorrected`,
`Serializer.RenderCorrected`, `Rewrite.RewriteCorrected`) states the
intended behaviour. The section "Findings" pairs each defect with both.

## Model

| member | source | states |
|---|---|---|
| Strings.TrimIdempotent | javascript/prompt_bubbles.js:405 | a trimmed token has no white space at either end, and trimming it again changes nothing |
| Strings.ReplaceCharSplit | scripts/prompt_bubbles.py:147 | `replace('/', ', ')` equals splitting on `/` and joining with `, ` |
| Strings.IndexFrom | javascript/prompt_bubbles.js:395 | `indexOf('@@')` finds the first occurrence at or after the start, and none is reported when there is none |
| Strings.LastIndexOf | javascript/prompt_bubbles.js:2662 | `lastIndexOf(':')` finds a colon exactly when there is one, with no colon after it |
| Strings.SplitOn | javascript/prompt_bubbles.js:1986 | splitting the options on the bar gives at least one piece, and no piece holds the separator |
| Strings.JoinSplit | javascript/prompt_bubbles.js:1986 | splitting on a character and joining with it gives the text back |
| Strings.SplitJoin | javascript/prompt_bubbles.js:1447 | joining separator-free options and splitting again gives the options back |
| Strings.Contains | scripts/prompt_bubbles.py:200-202 | the test is Python's `in`: it holds exactly when the query occurs in the field |
| Strings.Lower | scripts/prompt_bubbles.py:195 | lower-casing keeps the length and maps each character on its own |
| Numbers.NumericPrefixMeans | javascript/prompt_bubbles.js:2665 | `!isNaN(parseFloat(s))` holds exactly when a literal is read after the leading white space; that literal starts with a digit, a sign, a point or `I` |
| Numbers.ParseFloatReadsLiteral | javascript/prompt_bubbles.js:2665-2666 | `parseFloat` depends only on the literal it reads: reading that literal alone gives the same number, or NaN for both |
| Numbers.DecimalLiteral | javascript/prompt_bubbles.js:2253 | a text matching `\d+(\.\d+)?` is read whole by `parseFloat`, is a number, and holds no colon, `@` or brace |
| Numbers.ParseDecimalExample | javascript/prompt_bubbles.js:2666 | `parseFloat("1.2")` is 1.2 |
| Numbers.ParseZeroExample | javascript/prompt_bubbles.js:2666 | `parseFloat("0")` is 0 |
| Numbers.ParsePrefixExample | javascript/prompt_bubbles.js:2666 | leading space is skipped and trailing text ignored: `parseFloat(" 5x")` is 5 |
| Numbers.ParseNaNExample | javascript/prompt_bubbles.js:2665 | `parseFloat("abc")` is NaN |
| Numbers.ParsePointExample | javascript/prompt_bubbles.js:2665 | a lone point is not a number |
| Translation.SplitTranslation | javascript/prompt_bubbles.js:445 | a match found has the form prefix, `@@`, a non-empty `@`-free translation, `@@`, with a one-line prefix |
| Translation.SplitTranslationComplete | javascript/prompt_bubbles.js:445 | the match is unique: every way of reading the token as annotated is the one found |
| Translation.ParseTag | javascript/prompt_bubbles.js:442-452 | a translation comes back exactly when the token matches the annotation pattern, and is then `@`-free with a trimmed text; otherwise the token comes back whole as the text |
| Translation.ParseTagAnnotated | javascript/prompt_bubbles.js:445-449 | `parseTag(b@@t@@)` is the trimmed `b` with the translation `t` |
| Translation.ParseJoinTag | javascript/prompt_bubbles.js:1497-1499 | attaching a translation and parsing it back gives the tag and translation again (round trip) |
| Translation.EndsWithoutAt | javascript/prompt_bubbles.js:445 | a token that does not end with `@` carries no translation |
| Translation.ParseTagTextAbsent | javascript/prompt_bubbles.js:445-451 | the text `parseTag` returns holds no character that the token lacks |
| Translation.AnnotatedHasAt | javascript/prompt_bubbles.js:445 | only a token containing `@` can carry a translation |
| Classifier.HasChoiceBracesMeans | javascript/prompt_bubbles.js:424 | the dynamic test holds exactly when some `{` comes before some `}` |
| Classifier.Classify | javascript/prompt_bubbles.js:421-439 | a dynamic label means the trimmed token holds both braces; a weight, reference or group label means the base is enclosed by that kind of pair; a plain label means it is enclosed by none of them |
| Classifier.BaseOfAnnotated | javascript/prompt_bubbles.js:429-433 | the base of `b@@t@@` is the trimmed `b` |
| Classifier.BracesOfAnnotated | javascript/prompt_bubbles.js:424 | a brace-free annotation does not change the dynamic test |
| Classifier.ClassifyIgnoresTranslation | javascript/prompt_bubbles.js:421-439 | adding a brace-free translation to a token does not change its label |
| Classifier.ClassifyBare | javascript/prompt_bubbles.js:421-439 | a trimmed token without translation is labelled by the dynamic test, then by the shape of its ends |
| Classifier.WeightShape | javascript/prompt_bubbles.js:435-436 | a base enclosed by `()` or `[]` is a weight |
| Classifier.EmptyIsPlain | javascript/prompt_bubbles.js:439 | the empty token is plain |
| Tokenizer.Track | javascript/prompt_bubbles.js:380-387 | a character moves only its own counter; an opener adds exactly one to the total depth, a closer never adds to it, and the flag and token text are untouched |
| Tokenizer.TrackAt | javascript/prompt_bubbles.js:380-387 | the counter updates of the loop body compute `Track` |
| Tokenizer.PlaceAt | javascript/prompt_bubbles.js:404-416 | the separator, `<`, `>` and append branches of the loop body compute `Place` |
| Tokenizer.ScanAt | javascript/prompt_bubbles.js:369-416 | one pass of the loop body gives the next index and state of the scan `Step` |
| Tokenizer.Tokenize | javascript/prompt_bubbles.js:362-420 | the imperative tokenizer returns exactly the tokens of the functional scan `Tokens` |
| Tokenizer.Tokens | javascript/prompt_bubbles.js:362-420 | every token the scan returns is non-empty and trimmed |
| Tokenizer.SeparatorStep | javascript/prompt_bubbles.js:404-407 | a `,` or line feed ends the token exactly at the top level and is kept inside the token otherwise |
| Tokenizer.SpanStep | javascript/prompt_bubbles.js:389-401 | a closed `@@…@@` span is copied whole; no counter moves and no token ends inside it |
| Tokenizer.UnclosedMarkerStep | javascript/prompt_bubbles.js:389-402 | an `@@` with no later `@@` is an ordinary character |
| Tokenizer.GroupMarkerStep | javascript/prompt_bubbles.js:373-377 | `!!` flips the group flag, is kept verbatim, and changes nothing else |
| Tokenizer.OpenAngleStep | javascript/prompt_bubbles.js:408-411 | a top-level `<` ends the current token and starts a new one with itself |
| Tokenizer.CloseAngleStep | javascript/prompt_bubbles.js:412-415 | a `>` leaving angle and round depth at zero outside a group ends the token right after itself |
| Tokenizer.TokensUnmarked | javascript/prompt_bubbles.js:362-420 | reference definition: on text without brackets, `!` or `@`, tokenizing is splitting on `,` and line feeds, trimming and dropping blanks |
| Tokenizer.TokensOfJoin | javascript/prompt_bubbles.js:362-420 | round trip: simple tags joined with `", "` tokenize back to the same list |
| WeightCodec.CalculateWeight | javascript/prompt_bubbles.js:2639-2684 | the peeling loop and the value rules compute `Decode` |
| WeightCodec.PeelShape | javascript/prompt_bubbles.js:2644-2655 | peeling removes `depth` characters from each end and stops at a text enclosed by neither `()` nor `[]` |
| WeightCodec.MultiplierIsPow | javascript/prompt_bubbles.js:2680 | the multiplier is `1.1^rounds * 0.9^squares` |
| WeightCodec.BoostIsProduct | javascript/prompt_bubbles.js:2674 | an explicit value is scaled by the same factor a bare tag gets |
| WeightCodec.WeighBare | javascript/prompt_bubbles.js:2675-2681 | without an explicit value the text is kept whole and every pair counts |
| WeightCodec.WeighExplicit | javascript/prompt_bubbles.js:2662-2674 | with an explicit value the text is cut at the last colon, what follows parses to the value, and one round pair is absorbed |
| WeightCodec.WeighSyntax | javascript/prompt_bubbles.js:2659 | syntax is round when a round pair was peeled, else square when a square pair was, else plain; depth is the number of pairs |
| WeightCodec.WeighExplicitWhen | javascript/prompt_bubbles.js:2662-2665 | an explicit value is taken exactly when there is a colon and the text after the last one has a numeric prefix |
| WeightCodec.PeelNested | javascript/prompt_bubbles.js:2644-2655 | `k` nested pairs around a text that is not itself enclosed are all peeled, and nothing more |
| WeightCodec.DecodeNested | javascript/prompt_bubbles.js:2639-2684 | `k` round pairs weigh `1.1^k`, `k` square pairs `0.9^k`, with the matching syntax and depth `k` |
| WeightCodec.DecodePair | javascript/prompt_bubbles.js:2639-2684 | `(t)` weighs 1.1 with round syntax and `[t]` weighs 0.9 with square syntax |
| WeightCodec.WeighAtColon | javascript/prompt_bubbles.js:2662-2674 | the full result when the last colon is at `c` and `parseFloat` reads `n` after it |
| WeightCodec.DecodeExplicit | javascript/prompt_bubbles.js:2639-2684 | `(t:lit)` decodes to `t` with the value `lit` reads as, round syntax, depth 1 |
| WeightCodec.DecodeRoundExample | javascript/prompt_bubbles.js:2680 | `((tag))` weighs 1.21 with round syntax and depth 2 |
| WeightCodec.DecodeSquareExample | javascript/prompt_bubbles.js:2680 | `[tag]` weighs 0.9 with square syntax |
| WeightCodec.DecodeExplicitExample | javascript/prompt_bubbles.js:2674 | `(tag:1.2)` weighs 1.2: the one round pair carries the explicit value |
| SubParse.NextChoice | javascript/prompt_bubbles.js:1979-1980 | the match found is the leftmost `{[^{}]+}`: no match starts before it |
| SubParse.PiecesOdd | javascript/prompt_bubbles.js:1980 | the split yields an odd number of parts, literals around the matches |
| SubParse.DynamicPartsConcat | javascript/prompt_bubbles.js:1980 | the parts concatenate back to the token |
| SubParse.DynamicPartsShape | javascript/prompt_bubbles.js:1980-1984 | every captured part is a `{…}` choice with no brace inside |
| SubParse.ChoiceOptions | javascript/prompt_bubbles.js:1985-1986 | no option holds the bar separator |
| SubParse.ChoiceOptionsCount | javascript/prompt_bubbles.js:1985-1986 | a choice has one option more than it has bars, and the options joined with bars inside braces give the part again |
| SubParse.NoteEnd | javascript/prompt_bubbles.js:2100 | a match of `@{2}[^@]+@{2}` is `@@t@@` with a non-empty `@`-free `t` |
| SubParse.NotePiecesConcat | javascript/prompt_bubbles.js:2100 | the pieces of the split concatenate back to the part |
| SubParse.RenderSegmentsOf | javascript/prompt_bubbles.js:1453-1468 | the span text rebuilt from the segments is the concatenation of the pieces |
| SubParse.LiteralSegmentsRender | javascript/prompt_bubbles.js:2100-2114 | a literal part shown as text and translation segments is written back exactly as it was |
| SubParse.GroupOptions | javascript/prompt_bubbles.js:2149-2150 | corrected: options are read from the base without its translation, and none holds `/` |
| SubParse.GroupOptionsJoin | javascript/prompt_bubbles.js:2149-2150 | the options joined with `/` are the inside of the base between the `!!` markers |
| SubParse.GroupOptionsIgnoreTranslation | javascript/prompt_bubbles.js:2149-2150 | corrected: a trailing translation does not change the options |
| SubParse.GroupOptionsAsWrittenLeak | javascript/prompt_bubbles.js:2149-2150 | as written, `!!a/b!!@@x@@` gives the options `a` and `b!!@@x` |
| SubParse.GroupOptionsNoLeak | javascript/prompt_bubbles.js:2149-2150 | corrected, the same group gives the options `a` and `b` |
| Serializer.BuildAll | javascript/prompt_bubbles.js:1928 | one bubble per token, each built from its own token |
| Serializer.Build | javascript/prompt_bubbles.js:1928-2150 | each label of the base gives its own kind of bubble, a weight bubble exactly for the weight label; references and groups keep the raw token and a dynamic bubble the translation split off the token |
| Serializer.Finish | javascript/prompt_bubbles.js:1952-1955 | the bubble shows the text `parseTag` leaves; a translation found there wins, and a bubble is left without translation only when none was passed and the dictionary has none |
| Serializer.RenderStandard | javascript/prompt_bubbles.js:1478-1499 | `null` exactly for an empty tag without weight; a weight comes back in one pair, round for an explicit value or round syntax, square otherwise; an unweighted `<...>` tag comes back without its translation |
| Serializer.Render | javascript/prompt_bubbles.js:1476-1499 | `null` exactly for an empty group or an empty unweighted tag; a reference and a non-empty group come back as their raw token |
| Serializer.Kept | javascript/prompt_bubbles.js:1503 | the filter keeps no empty text and no more texts than bubbles |
| Serializer.KeptOne | javascript/prompt_bubbles.js:1503 | one bubble keeps its text exactly when it is neither `null` nor empty |
| Serializer.KeptAppend | javascript/prompt_bubbles.js:1503 | the filter works bubble by bubble in order: filtering a concatenation concatenates the results |
| Serializer.LoraRoundTrip | javascript/prompt_bubbles.js:1476 | a `<…>` token is written back exactly as typed, translation included |
| Serializer.GroupRoundTrip | javascript/prompt_bubbles.js:2145-2147 | a `!!…!!` token is written back exactly as typed |
| Serializer.PlainRoundTrip | javascript/prompt_bubbles.js:2286-2292 | a plain `@`-free token comes back unchanged, with the dictionary's translation attached when there is one |
| Serializer.AnnotatedPlainRoundTrip | javascript/prompt_bubbles.js:1497-1499 | `b@@t@@` is written back as it was |
| Serializer.WeightBranch | javascript/prompt_bubbles.js:1944-1950 | a brace-free token enclosed by `()` or `[]` goes through the weight branch with no external translation |
| Serializer.BareWeight | javascript/prompt_bubbles.js:1949-1963 | when the decoded text has no `@` it is the tag, with the dictionary's translation and the decoded weight fields |
| Serializer.AnnotatedWeight | javascript/prompt_bubbles.js:1952-1955 | when the decoded text is `t@@tr@@`, the tag is `t` and the translation `tr` |
| Serializer.NestedBubble | javascript/prompt_bubbles.js:1949-1963 | nested pairs around a bare tag give that tag, the syntax of the pairs and no explicit value |
| Serializer.NestedRoundTrip | javascript/prompt_bubbles.js:1486-1494 | nested pairs come back as one pair of the same kind: `(t)` and `[t]` are kept, `((t))` collapses to `(t)` |
| Serializer.ExplicitBubble | javascript/prompt_bubbles.js:1949-1963 | as written, the bubble of `(t:lit)` with a non-zero value holds `t`, round syntax and the explicit value |
| Serializer.ExplicitRoundTrip | javascript/prompt_bubbles.js:1490 | as written, `(t:lit)` with a non-zero value is written back as typed, with the dictionary translation inside |
| Serializer.ExplicitRoundTripCorrected | javascript/prompt_bubbles.js:1490 | corrected: `(t:lit)` is written back as typed whatever number `lit` reads as, zero included |
| Serializer.ExplicitBubbleAt | javascript/prompt_bubbles.js:1949-1963 | the bubble of `(t:lit)` or `[t:lit]` holds `t` and the syntax of its pair; as written the value is stored only when non-zero, corrected always |
| Serializer.SquareExplicitBecomesRound | javascript/prompt_bubbles.js:1490 | as written, `[t:lit]` is written back as `(t:lit)`, so the value scaled by 0.9 under the square pair is read back unscaled |
| Serializer.SquareExplicitExample | javascript/prompt_bubbles.js:1490 | as written, `[tag:1.2]` weighs 1.08 and is written back as `(tag:1.2)`, which weighs 1.2 |
| Serializer.SquareExplicitKept | javascript/prompt_bubbles.js:1490-1494 | corrected: `[t:lit]` is written back in its square pair, as typed when the dictionary has no entry for `t` |
| Serializer.RenderCorrectedAgrees | javascript/prompt_bubbles.js:1486-1494 | the corrected serializer differs from the code only on an explicit value in square syntax |
| Serializer.AnnotatedExplicitShape | javascript/prompt_bubbles.js:1944-1950 | `(t@@tr@@:lit)` is a brace-free round pair, so it takes the weight branch |
| Serializer.AnnotatedExplicitDecode | javascript/prompt_bubbles.js:2639-2684 | decoding `(t@@tr@@:lit)` keeps `t@@tr@@` as the text and reads the explicit value of `lit` |
| Serializer.AnnotatedExplicitBubble | javascript/prompt_bubbles.js:1949-1963 | the bubble of `(t@@tr@@:lit)` with a non-zero value shows `t`, the translation `tr` and the explicit value |
| Serializer.AnnotatedExplicitRoundTrip | javascript/prompt_bubbles.js:1486-1494 | `(t@@tr@@:lit)` with a non-zero value is written back exactly as it is |
| Serializer.ZeroBubbleAsWritten | javascript/prompt_bubbles.js:1961 | as written, the bubble of `(t:0)` keeps round syntax but no explicit value |
| Serializer.ZeroWeightDropped | javascript/prompt_bubbles.js:1961 | as written, `(t:0)` is written back as `(t)`, which weighs 1.1 instead of 0 |
| Serializer.SubTagsBare | javascript/prompt_bubbles.js:1442-1446 | `@`-free options are written back as they were split off |
| Serializer.PartRoundTrip | javascript/prompt_bubbles.js:1436-1469 | an `@`-free part is written back as it was split off |
| Serializer.PartsRoundTrip | javascript/prompt_bubbles.js:1472 | the `@`-free parts are written back as their concatenation |
| Serializer.DynamicBaseRoundTrip | javascript/prompt_bubbles.js:1979-1986 | the children built from an `@`-free base write that base back |
| Serializer.DynamicRoundTrip | javascript/prompt_bubbles.js:1433-1475 | an `@`-free dynamic token is written back as typed |
| Serializer.BuildDynamicAnnotated | javascript/prompt_bubbles.js:1936-1942 | `b@@t@@` with a dynamic trimmed `b` builds the dynamic bubble of `trim(b)` carrying `t` |
| Serializer.DynamicDropsTranslation | javascript/prompt_bubbles.js:1433-1475 | a translation attached to a whole dynamic token is not written back |
| Serializer.DynamicRender | javascript/prompt_bubbles.js:1433-1475 | a dynamic bubble is written back as its base, whatever translation it carries |
| Serializer.KeptRendered | javascript/prompt_bubbles.js:1503 | bubbles that each render a non-empty text keep exactly those texts, in order |
| Serializer.SerializeFaithful | javascript/prompt_bubbles.js:1503-1505 | tokens that each come back as themselves serialize to the tokens joined with `", "` |
| Serializer.PromptRoundTrip | javascript/prompt_bubbles.js:1505 | a prompt of simple tags without dictionary entries is unchanged by tokenize, build and serialize |
| Serializer.LoraStable | javascript/prompt_bubbles.js:1476 | a reference written back and built again is written back the same |
| Serializer.GroupStable | javascript/prompt_bubbles.js:2145-2147 | a group written back and built again is written back the same |
| Serializer.PlainStable | javascript/prompt_bubbles.js:1495-1499 | a plain `@`-free token is stable, with or without a dictionary translation |
| Serializer.AnnotatedPlainStable | javascript/prompt_bubbles.js:1495-1499 | an annotated plain token `b@@t@@` is stable |
| Serializer.AnnotatedPairBubble | javascript/prompt_bubbles.js:1949-1963 | the bubble of `(t@@tr@@)` or `[t@@tr@@]` shows `t`, `tr` and the syntax of the pair |
| Serializer.AnnotatedPairRoundTrip | javascript/prompt_bubbles.js:1486-1494 | `(t@@tr@@)` and `[t@@tr@@]` are written back exactly as they are |
| Serializer.PairRoundTrip | javascript/prompt_bubbles.js:1486-1494 | one pair around a bare tag and its dictionary translation is written back exactly as it is |
| Serializer.WeightStable | javascript/prompt_bubbles.js:1486-1494 | nested pairs around a bare tag are stable: they collapse to one pair, which is written back as it is |
| Serializer.ExplicitStable | javascript/prompt_bubbles.js:1490 | `(t:lit)` and `[t:lit]` are stable, whatever the value and the dictionary translation |
| Serializer.DynamicStable | javascript/prompt_bubbles.js:1433-1475 | a dynamic token whose base has no `@` is stable |
| Serializer.DynamicTwiceAnnotated | javascript/prompt_bubbles.js:1936-1942 | a dynamic token whose base ends in an annotation is not stable: `{a}@@x@@@@y@@` is written back as `{a}@@x@@`, which is written back as `{a}` |
| Serializer.KeptStable | javascript/prompt_bubbles.js:1503 | the texts kept from stable tokens are each written back as themselves |
| Serializer.PromptStable | javascript/prompt_bubbles.js:1503-1505 | a prompt of stable tokens that the tokenizer reads back as the texts it was written from is unchanged by a second tokenize, build and serialize |
| Rewrite.Merge | javascript/prompt_bubbles.js:1273 | the merged map has the keys of both, and the later map wins on a shared key |
| Rewrite.Rewrite | javascript/prompt_bubbles.js:1275-1327 | references and groups are kept; a plain token is kept or gets its key's translation, and gets it whenever that is non-empty and differs from the text; a weight without a translation is kept |
| Rewrite.RewriteCorrected | javascript/prompt_bubbles.js:1306-1322 | corrected: only weights are rewritten differently, and a weight without a translation is still kept |
| Rewrite.ApplyTranslation | javascript/prompt_bubbles.js:1271-1331 | with two empty maps the new prompt is the tokens joined with `", "` |
| Rewrite.AnnotateParses | javascript/prompt_bubbles.js:1279-1281 | an annotated plain token parses back to its text and the new translation |
| Rewrite.Untouched | javascript/prompt_bubbles.js:1275-1327 | every token, whatever its label, is left unchanged when no key has a translation |
| Rewrite.AllUntouched | javascript/prompt_bubbles.js:1275-1327 | all tokens are unchanged when no key has a translation |
| Rewrite.PlainUntouched | javascript/prompt_bubbles.js:1277-1281 | a plain token is unchanged when its key has no translation |
| Rewrite.DynamicUntouched | javascript/prompt_bubbles.js:1282-1305 | the parts of a dynamic token rejoin to it when no key has a translation |
| Rewrite.WeightUntouched | javascript/prompt_bubbles.js:1306-1308 | a weight token is unchanged when its key has no translation |
| Rewrite.OptionsUntouched | javascript/prompt_bubbles.js:1291-1296 | options are unchanged when no key has a translation |
| Rewrite.PartUntouched | javascript/prompt_bubbles.js:1286-1304 | a part is unchanged when no key has a translation |
| Rewrite.PartsUntouched | javascript/prompt_bubbles.js:1305 | the rewritten parts are their concatenation when no key has a translation |
| Rewrite.PlainTranslated | javascript/prompt_bubbles.js:1277-1281 | a plain token gets its key's translation, and its rebuilt bubble shows that tag and translation |
| Rewrite.PlainRetranslated | javascript/prompt_bubbles.js:1277-1281 | a new translation replaces the one a plain token had |
| Rewrite.WeightWithColon | javascript/prompt_bubbles.js:1314-1319 | with a colon past the start of the inside, the translation goes before the `:value` |
| Rewrite.WeightWithoutColon | javascript/prompt_bubbles.js:1320-1322 | without a colon the translation goes at the end of the inside |
| Rewrite.ExplicitTranslated | javascript/prompt_bubbles.js:1314-1319 | `(t:lit)` becomes `(t@@tr@@:lit)` |
| Rewrite.ExplicitTranslatedBubble | javascript/prompt_bubbles.js:1314-1319 | `(t:lit)` with a non-zero value becomes `(t@@tr@@:lit)`, which the serializer writes back exactly as it is |
| Rewrite.SquareBecomesRound | javascript/prompt_bubbles.js:1319-1322 | as written, the token `[t]` is rewritten as `(t@@tr@@)`, turning the weight 0.9 into 1.1 |
| Rewrite.SquareKept | javascript/prompt_bubbles.js:1319-1322 | corrected, the token `[t]` is rewritten as `[t@@tr@@]`, which still weighs 0.9 with square syntax |
| Rewrite.RewrittenOptionsBarFree | javascript/prompt_bubbles.js:1291-1297 | rewritten options stay free of the bar when the options and translations are |
| Rewrite.ChoiceRewritten | javascript/prompt_bubbles.js:1288-1297 | a rewritten choice is braced and has exactly the rewritten options, one for one |
| AddTag.TrimmedPartsShape | javascript/prompt_bubbles.js:1339 | every part kept is trimmed and non-empty |
| AddTag.TextToAdd | javascript/prompt_bubbles.js:1337-1344 | a tag with commas becomes a comma-free `!!...!!` group; any other tag is kept at the front, and alone when it has no translation or is a `<...>` reference |
| AddTag.AddTagToPrompt | javascript/prompt_bubbles.js:1403-1405 | the old prompt is kept in front, followed by `, ` only when it holds text, and then by the text to add |
| AddTag.AddPlainText | javascript/prompt_bubbles.js:1403-1405 | a comma-free, untranslated tag is appended after `, ` when the prompt holds text, directly otherwise |
| AddTag.AddedToEmpty | javascript/prompt_bubbles.js:1403-1405 | adding to an empty prompt gives the tag alone |
| AddTag.AddedPrompt | javascript/prompt_bubbles.js:1403-1405 | adding to a prompt of simple tags gives the prompt of one more tag |
| AddTag.AddSimpleTag | javascript/prompt_bubbles.js:1333-1405 | the new prompt tokenizes to the old tokens followed by the tag |
| AddTag.AddTranslatedTag | javascript/prompt_bubbles.js:1343-1344 | a translated tag is appended so that `parseTag` gives back the tag and the translation |
| AddTag.AddCommaTag | javascript/prompt_bubbles.js:1337-1341 | a tag with commas becomes a group whose options are its trimmed, non-empty comma parts |
| AutoParen.AutoParenParts | javascript/prompt_bubbles.js:2253 | a match is a tag with no pair character, a colon, and a literal that `parseFloat` reads whole |
| AutoParen.AutoParen | javascript/prompt_bubbles.js:2449-2450 | a token whose text does not match is kept; a matching text comes first, in round brackets |
| AutoParen.AutoParenAnnotated | javascript/prompt_bubbles.js:2449-2450 | `s@@tr@@` with a matching `s` becomes `(s)@@tr@@` |
| AutoParen.AutoParenWeight | javascript/prompt_bubbles.js:2253-2254 | the bracketed text decodes to the tag with the explicit value of the digits |
| AutoParen.AutoParenBare | javascript/prompt_bubbles.js:2037-2038 | an untranslated match is put in round brackets |
| AutoParen.AutoParenTranslated | javascript/prompt_bubbles.js:2449-2450 | `tag:1.2@@tr@@` becomes `(tag:1.2)@@tr@@`, and `parseTag` finds the translation outside the brackets |
| PromptCleanup.ExpandPrefix | scripts/prompt_bubbles.py:149 | text before the first `!` is kept as it is |
| PromptCleanup.ExpandGroups | scripts/prompt_bubbles.py:142-149 | text without two `!` in a row is unchanged |
| PromptCleanup.GroupCloseAt | scripts/prompt_bubbles.py:149 | the non-greedy match closes at the first `!!` after the content |
| PromptCleanup.ExpandGroup | scripts/prompt_bubbles.py:145-149 | `!!x!!` is replaced by `x` with every `/` turned into `, ` |
| PromptCleanup.ExpandJoined | scripts/prompt_bubbles.py:145-149 | `!!a/b!!` expands to `a, b` |
| PromptCleanup.ExpandAddedGroup | scripts/prompt_bubbles.py:142-149 | the group `addTagToPrompt` writes for a tag with commas expands to its comma parts joined with `, ` |
| PromptCleanup.StripPrefix | scripts/prompt_bubbles.py:157 | text before the first `@` is kept as it is |
| PromptCleanup.StripTranslations | scripts/prompt_bubbles.py:153-157 | deleting never lengthens the text, and text without two `@` in a row is unchanged |
| PromptCleanup.StripSpan | scripts/prompt_bubbles.py:153-157 | an `@@t@@` span is deleted, the empty span `@@@@` included |
| PromptCleanup.StripWrittenTag | scripts/prompt_bubbles.py:157 | a tag written with its translation keeps only its text |
| PromptCleanup.StripPrompt | scripts/prompt_bubbles.py:155-164 | a prompt of tags with translations reaches the generator as the tags alone, joined as before |
| PromptCleanup.CleanupTranslatedGroup | scripts/prompt_bubbles.py:155-157 | `!!a/b!!@@tr@@` reaches the generator as `a, b` |
| PromptCleanup.Cleanup | scripts/prompt_bubbles.py:155-157 | a prompt with neither `!!` nor `@@` reaches the generator unchanged |
| DictStore.Updated | scripts/prompt_bubbles.py:282-287 | a `None` entry removes the tag, any other is stored under it, and every other tag is unchanged |
| DictStore.UpdatedIdempotent | scripts/prompt_bubbles.py:282-287 | saving the same entry twice is saving it once |
| DictStore.UpdatedOverwrites | scripts/prompt_bubbles.py:282-287 | the last save of a tag decides its entry |
| DictStore.UpdatedCommute | scripts/prompt_bubbles.py:282-287 | saves of two different tags commute |
| DictStore.RemoveAbsent | scripts/prompt_bubbles.py:283-285 | removing a tag the dictionary lacks changes nothing |
| DictStore.Store.constructor | scripts/prompt_bubbles.py:273-277 | the store holds the dictionary read from the file |
| DictStore.Store.SaveDict | scripts/prompt_bubbles.py:256-287 | a missing or empty tag is an error and changes nothing; otherwise the dictionary becomes the update and is returned |
| TagLoad.RowToRecord | scripts/prompt_bubbles.py:24-65 | a row gives a record exactly when its first cell is not blank, and that record is well formed: stripped, with a non-empty tag and no empty colour |
| TagLoad.DecimalValue | scripts/prompt_bubbles.py:42-43 | `int` reads back the digits a count is written as |
| TagLoad.RowRoundTrip | scripts/prompt_bubbles.py:24-65 | the row written for a well-formed record loads back as that record |
| TagLoad.RecordOfRow | scripts/prompt_bubbles.py:57-64 | the same, with the colour the file was loaded with |
| TagLoad.RecordsShape | scripts/prompt_bubbles.py:24-65 | a file gives no more records than rows, each one well formed |
| TagLoad.RecordsRoundTrip | scripts/prompt_bubbles.py:24-65 | the rows written for well-formed records of one colour load back as those records |
| TagLoad.LoadRows | scripts/prompt_bubbles.py:23-65 | the row loop collects exactly `Records` of the rows |
| TagLoad.ColorRoundTrip | scripts/prompt_bubbles.py:97-98 | `tags_c.csv` has the colour `c`, and only such names have a colour |
| TagLoad.ColorOf | scripts/prompt_bubbles.py:97-98 | a name with a colour is `tags_` followed by the colour and `.csv` |
| TagLoad.Insert | scripts/prompt_bubbles.py:105 | inserting adds exactly that record: the multiset grows by it |
| TagLoad.SortByCount | scripts/prompt_bubbles.py:105 | sorting is a permutation |
| TagLoad.InsertOrdered | scripts/prompt_bubbles.py:105 | inserting into a list ordered by count keeps it ordered |
| TagLoad.SortOrdered | scripts/prompt_bubbles.py:105 | the sorted list has counts that never increase |
| TagLoad.InsertStable | scripts/prompt_bubbles.py:105 | inserting keeps the order among equal counts and puts the new record after them |
| TagLoad.SortStable | scripts/prompt_bubbles.py:105 | among the records of any one count the sorted list keeps the original order |
| TagLoad.LoadExtra | scripts/prompt_bubbles.py:95-100 | the scan collects the records of every `tags_*.csv` file, with its colour, in listing order |
| TagLoad.LoadTags | scripts/prompt_bubbles.py:77-106 | the loaded list is `tags.csv`, then the extra files, sorted by count |
| TagLoad.LoadedShape | scripts/prompt_bubbles.py:85-105 | the loaded list is ordered by count and holds every record of every file, once |
| TagSearch.SearchTags | scripts/prompt_bubbles.py:171-208 | the loop returns the first `limit` matches in list order, and nothing for an empty query |
| TagSearch.Search | scripts/prompt_bubbles.py:177-208 | nothing for an empty query; otherwise at most `limit` records of the list, each matching, forming a prefix of the matches in list order, and every match when fewer than `limit` come back |
| TagSearch.MatchingSound | scripts/prompt_bubbles.py:190-206 | every match is a record of the list that matches the query |
| TagSearch.MatchingComplete | scripts/prompt_bubbles.py:190-206 | every record of the list that matches is among the matches |
| TagSearch.NormalizeChars | scripts/prompt_bubbles.py:195-197 | normalising keeps the length, turns spaces into `_` and lower-cases ASCII capitals |
| TagSearch.NormalizeIdempotent | scripts/prompt_bubbles.py:180-181 | normalising twice is normalising once |
| TagSearch.SearchNormalized | scripts/prompt_bubbles.py:180-181 | `Blue Hair` and `blue_hair` find the same tags |

## Left out

- The DOM, event listeners, drag and drop, context menus, the edit modal, selection handling and duplicate marking are left out. A bubble is modelled by the fields the serializer reads back.
- The bubble colouring by known tags, categories and dictionary preference is left out. Only the dictionary's translation, used when a bubble has none, is modelled.
- The serializer's `tempOverride` and `editing` bubbles are left out. So are the `INPUT` and `TEXTAREA` children it skips.
- Serializer.Render: writes an explicit value back as the literal `parseFloat` read. The source writes JavaScript's text for the number, so `(t:1.20)` comes back as `(t:1.2)` there. The two agree on literals already in that form, such as `1.2` and `0.5`.
- Serializer.ExplicitRoundTrip: holds for the literal as read, for the same reason as `Serializer.Render`. So does `Serializer.ExplicitRoundTripCorrected`.
- Classifier.Classify: its postconditions go from the label to the shape of the token only. The converse for the dynamic test is `Classifier.HasChoiceBracesMeans`, and the order of the tests is `Classifier.ClassifyBare`.
- Rewrite.Rewrite: its postconditions do not describe dynamic tokens or weights that get a translation. Those are stated by `Rewrite.ChoiceRewritten`, `Rewrite.WeightWithColon` and `Rewrite.WeightWithoutColon`.
- Serializer.PromptStable: assumes as a hypothesis that the tokenizer reads the serialized prompt back as the texts it was written from. That is proved only for prompts of simple tags (`Serializer.PromptRoundTrip`), not for prompts holding pairs, groups, references or choices.
- Serializer.WeightStable: holds only for translations without `@`, brace or colon, and so do the other stability lemmas that involve a translation. A translation holding a colon would be read back as an explicit value.
- Serializer.DynamicStable: needs a base without `@`. `Serializer.DynamicTwiceAnnotated` shows a token outside that case that changes on every write-back.
- WeightCodec.Decode: carries no postcondition of its own. Its meaning is stated by `WeightCodec.CalculateWeight` and by the lemmas beside it, such as `WeightCodec.PeelShape`, `WeightCodec.WeighExplicit` and `WeightCodec.DecodeNested`.
- WeightCodec.Decode: values are exact reals. Rounding to 64-bit floats is not modelled, so `((tag))` weighs exactly 1.21.
- Numbers.ParseFloat: gives the exact decimal value, not the nearest double.
- The weight bubble's `weightValue` and its strong/weak class are left out. The serializer does not read them.
- Characters are Dafny characters, not UTF-16 code units. Surrogate pairs are not modelled.
- Rewrite.Key: the string keys `${idx}_-1`, `${idx}_-2`, `${idx}_dyn_${p}_${o}` and `${idx}_txt_${p}` are a datatype. The source's keys are distinct for distinct fields, so nothing is lost.
- The translation requests of the proxy and the browser, `fetch` and `localStorage` are left out. Their results are the two maps `applyTranslation` receives.
- `applyTranslation`'s `input` event is left out, and so is `addTagToPrompt`'s `input` event.
- AddTag.AddTagToPrompt: models the append at the end of the prompt only. Inserting into a selected group bubble is left out.
- PromptCleanup.Cleanup: models one prompt. `before_process` applies it to the prompt, the negative prompt and every entry of `all_prompts` and `all_negative_prompts`. The `enabled` switch is left out.
- Strings.Lower: lower-cases ASCII letters only, where Python's `str.lower()` also maps other scripts.
- TagLoad.CountOf: reads ASCII digits only, where Python's `str.isdigit()` also accepts other digit characters.
- The file reads are left out: the encoding fallback, `os.path.exists`, `os.listdir`, CSV quoting and the error paths. Each file is modelled by its rows, and the listing by a sequence of named files.
- The `loaded_tags` cache, `force_reload` and the reload endpoints are left out. `TagSearch.SearchTags` is given the loaded list.
- TagLoad.SortByCount: Python's sort is modelled by its result, a stable insertion sort by count.
- DictStore.Store.SaveDict: a tag that is not a string, and entries that are arbitrary JSON values, are left out. The JSON file read and write are replaced by the `entries` field.
- The translate and dictionary-reload endpoints are left out, and so is `get_all_tags`.
- The legacy `[[translation]]` syntax is left out. It is only mentioned in comments of the serializer.
- The batching and asynchronous scheduling of translation requests are left out.

## Findings

| source | as written | input that shows it | evidently intended | confidence | as-written member | corrected member |
|---|---|---|---|---|---|---|
| javascript/prompt_bubbles.js:1961 | `if (explicitVal)` stores the explicit value only when it is truthy, so a value of 0 is dropped | `(tag:0)` is written back as `(tag)`, which weighs 1.1 instead of 0 | store any explicit value that was read, so `(tag:0)` comes back as typed | high; not executed | Serializer.ZeroWeightDropped | Serializer.ExplicitRoundTripCorrected |
| javascript/prompt_bubbles.js:1319-1322 | the weight branch of `applyTranslation` always writes `(`…`)` | `[tag]` with a translation `tr` becomes `(tag@@tr@@)`, turning 0.9 into 1.1 | keep the kind of pair the token had: `[tag@@tr@@]` | high; not executed | Rewrite.SquareBecomesRound | Rewrite.SquareKept |
| javascript/prompt_bubbles.js:2149-2150 | group options are cut from the raw token, translation suffix included | `!!a/b!!@@x@@` gives the options `a` and `b!!@@x` | read the options from the base `!!a/b!!`, giving `a` and `b` | medium; not executed | SubParse.GroupOptionsAsWrittenLeak | SubParse.GroupOptionsNoLeak |
| javascript/prompt_bubbles.js:1490 | an explicit value is always written back in round brackets, `(t:value)` | `[tag:1.2]` weighs 0.9 times 1.2, that is 1.08, and is written back as `(tag:1.2)`, which weighs 1.2 | write the value back in the pair it was read from: `[tag:1.2]` | medium; not executed | Serializer.SquareExplicitExample | Serializer.SquareExplicitKept |
