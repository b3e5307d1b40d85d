# Legato harmonic core in Dafny

Legato is a planner for DJ mixes. It works on musical keys written in
Open Key notation: a wheel position from 1 to 12 followed by `d` (major) or `m`
(minor). This project models the application's key handling and proves properties of
that model. The modelled parts are:

- **Open Key values** (`OpenKeys`, from `app/core/openKey.ts`):
  - the `isOpenKey` type guard over arbitrary JavaScript values;
  - the lenient `openKeyFromString` parser. It enforces a length limit of 3 before trimming. It accepts one or two digits and a letter from `abdmABDM`, and reads Camelot's `a`/`b` as `m`/`d`;
  - `formatOpenKey`;
  - `generateAllRootKeys`, modelled as a method with the source's nested loops.
- **The transition catalogue** (`Transitions`, from `app/core/transitions.ts`):
  - `wrapNumber`, `adjustNumber` and `setLetter`;
  - the nine harmonic rules in their declared order. Each rule's transform is a small datatype (`Identity`, `Shift(delta)`, `SetTo(letter)`);
  - the `ruleMap` fold and `getHarmonicRule`.
- **Suggestions and matching** (`Rules`, from `app/core/rules.ts`):
  - the suggestion list for a root key;
  - projecting a rule from a key;
  - `matchHarmonicRule`, which in the source is `Array.prototype.find` over the catalogue. It is proved to name exactly the rule that the wheel distance and the letters predict;
  - the route's energy badge (`suggestionEnergy`).
- **Mix storage** (`MixStorage`, from `app/core/mix-storage.ts`):
  - key normalisation with the `8m` default, and mix creation;
  - the append, rename, update and remove operations;
  - normalisation of stored records, where `normalizeMix` is a method with the source's `forEach`/`push` loop;
  - `loadMixes`/`saveMixes` over abstract serialisers. The main property is that loading what was saved gives back every well-formed mix.
- **Traktor NML import** (`NmlParser`, from `app/core/nml-parser.ts`):
  - the Traktor key table, proved to be a bijection from the codes 0..23 onto the valid keys;
  - `parseNmlFile` as a method with the source's two loops, over an already extracted document. The first loop builds the collection index, and the last entry with a given file key wins. The second loop joins the playlist in order and drops unresolved references.
- **Share links** (`MixShare`, from `app/core/mix-share.ts`):
  - the payload built from a mix;
  - the URL-safe base64 rewrite: no `+`, no `/`, no trailing `=`;
  - the decoder: undo the rewrite, re-pad, check the shape and sanitise the tracks;
  - a round trip: decoding a mix's token gives back its name and every track, provided the JSON and base64 codings invert each other.
- **Key colours** (`KeyColors`, from `app/core/key-colors.ts`):
  - the strict colour normaliser and `getKeyColor`. Every valid key gets its wheel position's colour, and grey is returned exactly when the name does not normalise.
- **The legacy core** (`LegacyOpenKey` and `LegacyRules`, from `src/core/openKey.ts` and `src/core/rules.ts`). These are kept apart from the application's catalogue:
  - the strict parser `/^(\d+)([dm])$/`;
  - the seven-rule `nextRootKey`, with JavaScript's truncating `%`.

Supporting modules:

- `Wrappers` holds `Option`/`Result`.
- `JsRuntime` holds the pieces of JavaScript the code relies on:
  - dynamically typed values;
  - truthiness and property reads;
  - `%` that truncates toward zero;
  - `trim`, ASCII `toLowerCase`, `parseInt` and `String(n)`.

Four behaviours of the source are worth noting. The model keeps each of them:

- The Traktor table's comments name minor keys for codes 0..11, but the entries give them the letter `d` (major). For example, the entry at app/core/nml-parser.ts:20 maps code 0 to 1d under the comment "A minor". The model keeps the table's values.
- `appendTrack` and `removeTrack` (app/core/mix-storage.ts:96-104 and 201-207) never change `startKey`, even when the first track is removed.
- Creating a mix without keys (app/core/mix-storage.ts:70-93) gives a single `8m` "Opening Track" rather than an empty timeline.
- An NML entry whose key code is missing or not in the table keeps an undefined key (app/core/nml-parser.ts:85-90); it does not get the default key.

## Model

| member | source | states |
|---|---|---|
| JsRuntime.Get | app/core/mix-share.ts:66-67 | a property read gives `undefined` on a non-object and for a missing property |
| JsRuntime.JsRem12 | src/core/rules.ts:25 | JavaScript's `% 12` lies strictly between -12 and 12, is congruent to its operand, and takes the operand's sign |
| JsRuntime.Trim | app/core/openKey.ts:35 | the trimmed string is no longer than the input and has no surrounding whitespace; an already trimmed string is unchanged |
| JsRuntime.TrimDropsWhitespace | app/core/openKey.ts:35 | the trimmed string is an infix of the input, and everything before and after it is whitespace |
| JsRuntime.TrimStart | app/core/openKey.ts:35 | removing leading whitespace leaves a suffix of the input that does not start with whitespace |
| JsRuntime.TrimStartDropsWhitespace | app/core/openKey.ts:35 | every character removed from the front is whitespace |
| JsRuntime.TrimEnd | app/core/openKey.ts:35 | removing trailing whitespace leaves a prefix of the input that does not end with whitespace |
| JsRuntime.TrimEndDropsWhitespace | app/core/openKey.ts:35 | every character removed from the back is whitespace |
| JsRuntime.LowerChar | app/core/openKey.ts:46 | upper-case ASCII letters become lower-case letters; every other character is kept |
| JsRuntime.ToLower | app/core/key-colors.ts:34 | lower-casing keeps the length and maps each character on its own |
| JsRuntime.ToLowerIdempotent | app/core/key-colors.ts:34 | lower-casing twice is the same as lower-casing once |
| JsRuntime.ToLowerTrimmed | app/core/key-colors.ts:34 | lower-casing keeps a trimmed string trimmed |
| JsRuntime.NatToString | app/core/openKey.ts:80-82 | the decimal text of a number is a non-empty run of digits; it is one digit exactly below 10 and at most two below 100 |
| JsRuntime.IntToString | app/core/mix-storage.ts:116 | for an integer, `String(n)` is non-empty; it is all digits when `n` is non-negative and starts with `-` otherwise |
| JsRuntime.ParseNatToString | app/core/openKey.ts:41 | `parseInt` reads back the decimal text of every natural number |
| OpenKeys.LetterText | app/core/openKey.ts:1-5 | each letter is written as one character that is neither whitespace nor a digit |
| OpenKeys.KeyOf | app/core/openKey.ts:8-21 | an object the type guard accepts stands for a valid key with the same `letter` and `number` fields |
| OpenKeys.IsOpenKeyOfKey | app/core/openKey.ts:8-21 | the guard accepts a key's object form exactly when the key is valid, and then reads the same key back |
| OpenKeys.LetterMap | app/core/openKey.ts:23-28 | `a` and `m` map to minor, `b` and `d` to major, and nothing else maps |
| OpenKeys.ParseKey | app/core/openKey.ts:30-61 | a parsed key is valid and its trimmed input matches the pattern; the empty string and inputs longer than 3 are refused |
| OpenKeys.ParseTrimmed | app/core/openKey.ts:36-60 | after trimming, only a pattern match with a number in range yields a key, and that key is valid |
| OpenKeys.ParseTrimmedDigits | app/core/openKey.ts:36-60 | one or two digits with value 1..12 and a key letter yield that number, with `a`/`m` (either case) read as minor and the rest as major |
| OpenKeys.DigitsLetterTrimmed | app/core/openKey.ts:35 | digits followed by a key letter have no surrounding whitespace |
| OpenKeys.ParseTrimmedInput | app/core/openKey.ts:31-35 | on short input without surrounding whitespace, trimming changes nothing |
| OpenKeys.ParseKeyValue | app/core/openKey.ts:31 | a value that is not a string parses to nothing; a string parses as `ParseKey` does |
| OpenKeys.FormatOpenKey | app/core/openKey.ts:80-82 | a valid key is written in 2 or 3 characters without surrounding whitespace and ending in its letter |
| OpenKeys.ParseFormatRoundTrip | app/core/openKey.ts:30-61 | parsing a formatted valid key gives the key back |
| OpenKeys.ParseNormalises | app/core/openKey.ts:30-61 | whatever the parser returns survives format-then-parse unchanged |
| OpenKeys.ParseDigitsLetter | app/core/openKey.ts:30-61 | any one- or two-digit number 1..12 followed by any of `abdmABDM` parses to that key |
| OpenKeys.ParseAliases | app/core/openKey.ts:23-28 | the Camelot and upper-case aliases of every number read as the expected letter |
| OpenKeys.ParseRejectsLetter | app/core/openKey.ts:36-39 | a final character other than a key letter is refused |
| OpenKeys.ParseRejectsRange | app/core/openKey.ts:41-44 | numbers outside 1..12 are refused, whatever the letter |
| OpenKeys.ParseLeadingBlank | app/core/openKey.ts:31-35 | because the length is checked before trimming, one leading blank on a one-digit key is accepted and two are refused |
| OpenKeys.ParseCamelotMinor | app/core/openKey.ts:23-28 | "8a" reads as 8m |
| OpenKeys.ParseUpperCase | app/core/openKey.ts:46 | "8A" reads as 8m |
| OpenKeys.ParseLeadingZero | app/core/openKey.ts:36-41 | "01d" is accepted as 1d |
| OpenKeys.FormatNoLeadingZero | app/core/openKey.ts:80-82 | 1d is written "1d", so format-then-parse does not restore "01d" |
| OpenKeys.ParseRejectsZero | app/core/openKey.ts:42-44 | "0d" is refused |
| OpenKeys.ParseRejectsThirteen | app/core/openKey.ts:42-44 | "13m" is refused |
| OpenKeys.ParseRejectsNonDigitStart | app/core/openKey.ts:36-39 | trimmed input that does not start with a digit is refused |
| OpenKeys.ParseRejectsLetterFirst | app/core/openKey.ts:36-39 | "d1" is refused |
| OpenKeys.ParseRejectsUnknownLetter | app/core/openKey.ts:36-39 | "8x" is refused |
| OpenKeys.GenerateAllRootKeys | app/core/openKey.ts:64-77 | the 24 keys, the minor ones 1..12 first and then the major ones; all valid, pairwise distinct, and every valid key is among them |
| Transitions.WrapNumber | app/core/transitions.ts:27-30 | the result is a wheel position 1..12 congruent to the input modulo 12; positions already in range are kept |
| Transitions.WrapSmall | app/core/transitions.ts:27-30 | within one turn either side of the wheel, wrapping adds or removes at most one turn of 12 |
| Transitions.AdjustNumber | app/core/transitions.ts:32-35 | the letter is kept and the new number is a valid position congruent to the old one plus the delta |
| Transitions.SetLetter | app/core/transitions.ts:37-40 | the number is kept and the letter is replaced |
| Transitions.Apply | app/core/transitions.ts:51-128 | every rule transform keeps a key valid; a number shift makes any key valid |
| Transitions.Ids | app/core/transitions.ts:42-130 | the catalogue's ids are listed in catalogue order |
| Transitions.CatalogueShape | app/core/transitions.ts:42-130 | the catalogue holds the nine rules in declared order, and `maintain` leaves every key unchanged |
| Transitions.CatalogueIdsDistinct | app/core/transitions.ts:3-12 | the nine rule ids are pairwise distinct |
| Transitions.BuildRuleMap | app/core/transitions.ts:132-139 | the reduce has exactly the rules' ids as keys, and each key holds a rule of the list with that id |
| Transitions.BuildRuleMapIndexes | app/core/transitions.ts:132-139 | when the ids are distinct, each rule is found under its own id |
| Transitions.GetHarmonicRule | app/core/transitions.ts:141-143 | a lookup succeeds exactly for catalogue ids and returns a catalogue rule with that id |
| Transitions.GetHarmonicRuleOfCatalogue | app/core/transitions.ts:132-143 | looking up any catalogue rule by its id gives that rule back |
| Transitions.Transforms | app/core/transitions.ts:42-130 | the catalogue's transforms are listed in catalogue order |
| Transitions.CatalogueTransforms | app/core/transitions.ts:51-128 | the transforms are identity, +1, -1, set d, set m, +7, +2, -3 and +3, in that order |
| Transitions.CatalogueTransformAt | app/core/transitions.ts:51-128 | the transform at each catalogue position is the listed one |
| Transitions.ShiftsAgree | app/core/transitions.ts:32-35 | on a valid key, two shifts give the same key exactly when their amounts agree modulo 12 |
| Transitions.TransformDeltasDistinct | app/core/transitions.ts:60-128 | the number-moving transforms move by amounts that differ pairwise modulo 12 |
| Transitions.NumberDeltasDistinct | app/core/transitions.ts:60-128 | the rules that move only the number do so by pairwise different amounts modulo 12 |
| Transitions.DeltaTransformsDiffer | app/core/transitions.ts:32-35 | two shifts with amounts not congruent modulo 12 never agree on a valid key |
| Transitions.NumberRulesDistinctTargets | app/core/transitions.ts:60-128 | no two number-moving rules take a valid key to the same key |
| Transitions.ShiftInverse | app/core/transitions.ts:32-35 | shifting by `a` and then by `b`, with `a + b` a multiple of 12, restores a valid key |
| Transitions.InverseRules | app/core/transitions.ts:53-129 | number uplift and downlift undo each other, and so do parallel-key-minor and parallel-key-major |
| Transitions.LetterRules | app/core/transitions.ts:72-89 | the letter rules set d and m respectively, keep the number, and are idempotent |
| Rules.Suggestions | app/core/rules.ts:35 | one suggestion per rule, in order: the rule without its transform |
| Rules.GetHarmonicSuggestions | app/core/rules.ts:27-36 | no suggestions exactly when the key does not parse; otherwise the metadata of all nine catalogue rules, in order |
| Rules.SuggestionsIgnoreRoot | app/core/rules.ts:27-36 | the suggestions are the same for every parsable key |
| Rules.ProjectHarmonicSuggestion | app/core/rules.ts:38-54 | a projection exists exactly when the key parses and the rule id is known; it is the rule's transform applied to the parsed key, formatted, and it parses back to that key |
| Rules.SuggestionsProject | app/core/rules.ts:27-54 | every suggestion offered for a key can be projected from that key |
| Rules.FirstMatch | app/core/rules.ts:66-69 | the position of the first hit: a hit there and no hit before it |
| Rules.FindRule | app/core/rules.ts:66-69 | nothing exactly when no rule hits; otherwise a hitting rule with no hit before it |
| Rules.MatchKeys | app/core/rules.ts:66-69 | over the catalogue: nothing exactly when no rule takes `from` to `to`, else the first one that does |
| Rules.MatchHarmonicRule | app/core/rules.ts:56-70 | an unparsable key gives no match; a match is the first catalogue rule taking the parsed `from` to the parsed `to` |
| Rules.MatchHarmonicRuleOfParsed | app/core/rules.ts:60-69 | matching two strings is matching the keys they parse to |
| Rules.ShiftHits | app/core/transitions.ts:32-35 | between valid keys, a shift hits exactly when the letters agree and the wheel distance matches modulo 12 |
| Rules.TransformHits | app/core/rules.ts:67-68 | the condition under which each kind of transform takes one valid key to another, stated by wheel distance and letters |
| Rules.RulesHit | app/core/rules.ts:66-69 | for valid keys, each rule hits exactly when that condition holds for its transform |
| Rules.FirstMatchAt | app/core/rules.ts:66-69 | a hit with no hit before it is the first match |
| Rules.CatalogueHitVector | app/core/rules.ts:66-69 | which of the nine catalogue transforms hit, computed from wheel distance and letters |
| Rules.ExpectedIndexFirstHit | app/core/rules.ts:66-69 | the predicted position is the first hitting transform |
| Rules.FirstMatchIsExpected | app/core/rules.ts:66-69 | over the catalogue's transforms, `find` stops at the predicted position |
| Rules.ExpectedIdAtIndex | app/core/transitions.ts:42-130 | the predicted rule id is the id at the predicted position |
| Rules.MatchKeysClassifies | app/core/rules.ts:56-70 | between valid keys the match names exactly the predicted rule: maintain, a number step of +1/-1/+7/+2/-3/+3, a letter change, or none |
| Rules.MatchSelfIsMaintain | app/core/rules.ts:66-69 | a key matched against itself is `maintain`, although a letter rule also takes it to itself |
| Rules.MatchBothChangedIsNone | app/core/rules.ts:56-70 | a move that changes both number and letter matches no rule |
| Rules.MatchHarmonicRuleClassifies | app/core/rules.ts:56-70 | matching strings names the rule predicted for their parsed keys |
| Rules.ProjectThenMatch | app/core/rules.ts:38-70 | projecting a rule from a key and matching the result names a rule that reaches the same key |
| Rules.SuggestionEnergy | app/routes/mix.tsx:83-88 | the badge is tension exactly for the tension mood, impact for other impact rules, and smooth otherwise |
| Rules.CatalogueEnergies | app/routes/mix.tsx:83-88 | the badge of each of the nine catalogue rules, in order |
| MixStorage.DefaultKeyParses | app/core/mix-storage.ts:31-34 | "8a" parses, so the default key is 8m and the written fallback is never used |
| MixStorage.DescribeTransition | app/core/mix-storage.ts:43-54 | no previous key gives no rule; a described rule is a catalogue rule |
| MixStorage.DescribeTransitionMatches | app/core/mix-storage.ts:43-54 | between valid keys, describing a transition is matching the keys themselves |
| MixStorage.DescribeTransitionClassifies | app/core/mix-storage.ts:43-54 | between valid keys, the described rule is the one predicted by wheel distance and letters |
| MixStorage.NormalizeKey | app/core/mix-storage.ts:56-69 | the result is valid: the object when the guard accepts it, else the parsed string, else 8m |
| MixStorage.NormalizeKeyKeeps | app/core/mix-storage.ts:56-69 | a valid key survives normalisation as an object and as its formatted string |
| MixStorage.NormalizeKeyIdempotent | app/core/mix-storage.ts:56-69 | normalising the object form of a normalised key changes nothing |
| MixStorage.NormalizeKeys | app/core/mix-storage.ts:71-76 | at least one key, all valid: each given key normalised in order, or 8m alone when none are given |
| MixStorage.MixName | app/core/mix-storage.ts:84 | the trimmed name when it is not blank, else "Untitled Mix"; never empty and always trimmed |
| MixStorage.MixNameStable | app/core/mix-storage.ts:84 | naming a mix by its own name keeps that name |
| MixStorage.CreateMixRecord | app/core/mix-storage.ts:78-94 | one track per normalised key with the given ids; only the first is titled "Opening Track"; the start key is the first track's key |
| MixStorage.CreateWithoutKeys | app/core/mix-storage.ts:71-94 | without keys, a mix gets a single 8m opening track |
| MixStorage.AppendTrack | app/core/mix-storage.ts:96-105 | one untitled track is added at the end; nothing else changes, the start key included |
| MixStorage.RenameMix | app/core/mix-storage.ts:184-186 | only the name changes, to the trimmed name or "Untitled Mix" |
| MixStorage.RenameMixIdempotent | app/core/mix-storage.ts:184-186 | renaming twice with the same name is renaming once, and renaming to the current name changes nothing |
| MixStorage.UpdateTrackInfo | app/core/mix-storage.ts:188-199 | tracks with the id take the supplied fields; all other tracks and mix fields are unchanged |
| MixStorage.UpdateTrackInfoLaws | app/core/mix-storage.ts:188-199 | an unknown id changes nothing, and applying the same update twice is applying it once |
| MixStorage.WithoutTrack | app/core/mix-storage.ts:202 | exactly the tracks with another id survive; the length is kept exactly when no track has the id |
| MixStorage.WithoutTrackConcat | app/core/mix-storage.ts:202 | filtering distributes over concatenation, so the surviving tracks keep their order |
| MixStorage.RemoveTrack | app/core/mix-storage.ts:201-207 | the tracks with the id are removed; an unknown id returns the same mix; nothing else changes |
| MixStorage.RemoveAfterAppend | app/core/mix-storage.ts:96-207 | removing a freshly appended track with a new id gives back the original mix |
| MixStorage.AppendWithout | app/core/mix-storage.ts:202 | filtering out a new last track leaves the earlier tracks |
| MixStorage.StoredDetails | app/core/mix-storage.ts:114-117 | the stored details when non-empty, else "N BPM" for a numeric bpm, else "" |
| MixStorage.NormalizeTrack | app/core/mix-storage.ts:112-128 | each field of a stored track is filled in: the id or a fresh one, a normalised key, the title or the index-dependent fallback, and the details |
| MixStorage.NormalizedTracks | app/core/mix-storage.ts:131-137 | one normalised track per stored track, in order |
| MixStorage.StoredName | app/core/mix-storage.ts:141-144 | a string name that is not blank is kept untrimmed; otherwise "Untitled Mix" |
| MixStorage.StoredStartKey | app/core/mix-storage.ts:145 | a present start key is normalised; otherwise the first track's key, or 8m when there are no tracks |
| MixStorage.NormalizedMix | app/core/mix-storage.ts:130-149 | the whole normalised record: the tracks, the id or a fresh one, the name, the start key, and `createdAt` or the current time |
| MixStorage.NormalizedTracksSnoc | app/core/mix-storage.ts:133-136 | normalising one more stored track appends its normalised form |
| MixStorage.NormalizeMix | app/core/mix-storage.ts:130-149 | the loop produces exactly the normalised record |
| MixStorage.LoadTrackAfterSave | app/core/mix-storage.ts:112-128 | a stored well-formed track normalises back to itself |
| MixStorage.StoreTracks | app/core/mix-storage.ts:178 | each track is written in its stored form, in order |
| MixStorage.LoadTracksAfterSave | app/core/mix-storage.ts:131-137 | the stored tracks of a well-formed mix normalise back to the same tracks |
| MixStorage.LoadAfterSave | app/core/mix-storage.ts:130-149 | normalising the stored form of a well-formed mix gives the mix back |
| MixStorage.StoreMixes | app/core/mix-storage.ts:178 | each mix is written in its stored form, in order |
| MixStorage.LoadMixes | app/core/mix-storage.ts:151-170 | nothing for a missing or empty entry or a failed parse; otherwise every stored mix normalised, in order |
| MixStorage.SaveMixes | app/core/mix-storage.ts:172-182 | the text written is the serialisation of a list holding the stored form of each mix, in order |
| MixStorage.LoadMixesAfterSave | app/core/mix-storage.ts:151-182 | loading what `saveMixes` wrote gives back the same well-formed mixes |
| MixStorage.CreatedMixWellFormed | app/core/mix-storage.ts:78-94 | a created mix with non-empty ids and a set timestamp is well formed |
| MixStorage.AppendKeepsWellFormed | app/core/mix-storage.ts:96-105 | appending a valid key to a non-empty well-formed mix keeps it well formed |
| MixStorage.RenameKeepsWellFormed | app/core/mix-storage.ts:184-186 | renaming keeps a mix well formed |
| MixStorage.UpdateKeepsWellFormed | app/core/mix-storage.ts:188-199 | an update with a non-empty title, if any, keeps a mix well formed |
| MixStorage.RemoveKeepsWellFormed | app/core/mix-storage.ts:201-207 | removing a track keeps a mix well formed when all tracks are titled |
| NmlParser.TraktorKeyToOpenKey | app/core/nml-parser.ts:49-51 | a code has a key exactly when the table has an entry for it, and the key is that entry |
| NmlParser.TraktorDomain | app/core/nml-parser.ts:19-44 | the table covers exactly the codes 0..23; the first twelve are d keys and the rest m keys, all valid |
| NmlParser.TraktorCodeOfTable | app/core/nml-parser.ts:19-44 | every code is recovered from its key |
| NmlParser.TableOfTraktorCode | app/core/nml-parser.ts:19-44 | every valid key has a code that maps back to it, so the table is a bijection onto the valid keys |
| NmlParser.TraktorInjective | app/core/nml-parser.ts:19-44 | distinct codes give distinct keys |
| NmlParser.TraktorWheelSteps | app/core/nml-parser.ts:19-44 | within each half of the table the next code is seven wheel steps on, and the m half trails the d half by three |
| NmlParser.EntryTrack | app/core/nml-parser.ts:77-91 | a collection entry's title and artist, or "" when absent; its bpm; and the table key of its code, if any, which is valid |
| NmlParser.CollectionIndexLastWins | app/core/nml-parser.ts:76-103 | a file key is indexed exactly when some entry with a location has it, and it maps to the last such entry's track |
| NmlParser.JoinPlaylist | app/core/nml-parser.ts:115-130 | the joined playlist has at most one track per reference |
| NmlParser.JoinPlaylistConcat | app/core/nml-parser.ts:115-130 | the join distributes over concatenation, so the playlist order is kept |
| NmlParser.JoinPlaylistSingle | app/core/nml-parser.ts:117-128 | one reference contributes its collection track when it resolves and nothing otherwise |
| NmlParser.JoinPlaylistAllResolve | app/core/nml-parser.ts:115-130 | when every reference resolves, there is one track per reference, each the indexed track |
| NmlParser.PlaylistName | app/core/nml-parser.ts:106-107 | the node's non-empty name, else "Imported Mix" |
| NmlParser.ParseNmlFile | app/core/nml-parser.ts:63-136 | fails exactly on a parse error; otherwise the two loops yield the indexed tracks of the playlist's references, in order, with valid keys |
| NmlParser.IndexKeysValid | app/core/nml-parser.ts:76-103 | every key in the collection index is valid |
| NmlParser.JoinedKeysValid | app/core/nml-parser.ts:115-130 | every key in the joined playlist is valid |
| NmlParser.ImportWithoutPlaylist | app/core/nml-parser.ts:106-135 | without a playlist node the import is empty and named "Imported Mix" |
| MixShare.NonEmpty | app/core/mix-share.ts:25-26 | `value \|\| undefined` drops exactly the empty string |
| MixShare.EncodeTracks | app/core/mix-share.ts:23-27 | one encoded track per track, in order |
| MixShare.BuildPayload | app/core/mix-share.ts:21-28 | the payload carries the mix name and, for each track, its formatted key and its non-empty title and details |
| MixShare.TracksValue | app/core/mix-share.ts:30 | one JSON object per encoded track, in order |
| MixShare.ToUrlAlphabet | app/core/mix-share.ts:36 | the rewrite keeps the length and leaves no `+` or `/` |
| MixShare.StripPadding | app/core/mix-share.ts:36 | only the trailing run of `=` is removed |
| MixShare.UrlSafe | app/core/mix-share.ts:36 | a token has no `+`, no `/` and no trailing `=` |
| MixShare.EncodeMixSharePayload | app/core/mix-share.ts:20-37 | every share token is URL-safe: no `+`, no `/`, no trailing `=` |
| MixShare.FromUrlAlphabet | app/core/mix-share.ts:43 | the rewrite keeps the length and leaves no `-` or `_` |
| MixShare.Repeat | app/core/mix-share.ts:44-47 | a run of `n` copies of the padding character |
| MixShare.Pad | app/core/mix-share.ts:44-47 | padding reaches the next multiple of 4 with at most three `=`, keeping the input as a prefix |
| MixShare.PadAligned | app/core/mix-share.ts:44-47 | an aligned string is not padded |
| MixShare.StripPaddingRun | app/core/mix-share.ts:36 | stripping removes exactly an appended run of `=` |
| MixShare.PadBy | app/core/mix-share.ts:44-47 | a string `n` short of a multiple of 4 gets exactly `n` padding characters |
| MixShare.UrlAlphabetInverse | app/core/mix-share.ts:36-43 | on the standard base64 alphabet, the two alphabet rewrites are inverse |
| MixShare.UrlAlphabetPadding | app/core/mix-share.ts:36 | the alphabet rewrite leaves padding alone |
| MixShare.RestoreBase64 | app/core/mix-share.ts:36-47 | undoing the URL-safe rewrite and re-padding gives back any standard base64 string |
| MixShare.SanitizeTrack | app/core/mix-share.ts:59-69 | a null or undefined entry throws; otherwise the entry is kept exactly when its key parses, and a kept key is valid |
| MixShare.SanitizeTracksSnoc | app/core/mix-share.ts:58-73 | sanitising one more entry is one more step of `map`/`filter` |
| MixShare.SanitizeTracks | app/core/mix-share.ts:58-73 | the kept tracks are at most as many as the entries, and every kept key is valid |
| MixShare.SanitizeTracksThrows | app/core/mix-share.ts:58-73 | sanitising fails exactly when some entry is null or undefined |
| MixShare.SanitizeStepAppends | app/core/mix-share.ts:70-73 | a sanitising step only appends to what was kept before |
| MixShare.SanitizeTracksConcat | app/core/mix-share.ts:58-73 | sanitising distributes over concatenation, so the kept tracks keep their order |
| MixShare.DecodeMixSharePayload | app/core/mix-share.ts:39-83 | a token that does not base64-decode gives nothing; a payload is decoded exactly when the text parses to a truthy value with a `tracks` array whose entries sanitise, and it carries those sanitised tracks and the string name |
| MixShare.DecodeRejectsShape | app/core/mix-share.ts:53-56 | a value that fails to parse, is falsy, or has no `tracks` array decodes to nothing |
| MixShare.DecodedTracks | app/core/mix-share.ts:64-68 | one decoded track per track |
| MixShare.EncodedValuesSnoc | app/core/mix-share.ts:23-27 | encoding one more track appends its JSON object |
| MixShare.DecodedTracksSnoc | app/core/mix-share.ts:64-68 | decoding one more track appends its decoded form |
| MixShare.TrackValueFields | app/core/mix-share.ts:60-67 | the key, title and details read back from an encoded track object are the ones written |
| MixShare.SanitizeEncodedTrack | app/core/mix-share.ts:23-27 | an encoded track with a valid key sanitises back to its key, title and details |
| MixShare.SanitizeEncodedTracks | app/core/mix-share.ts:58-73 | an encoded mix's tracks all sanitise back, in order |
| MixShare.ShareRoundTrip | app/core/mix-share.ts:20-83 | when JSON and base64 invert each other, decoding a mix's token gives back its name and each track's key, title and details |
| KeyColors.KeyColorEntry | app/core/key-colors.ts:1-26 | every colour in the record is a palette colour |
| KeyColors.CamelotToOpen | app/core/key-colors.ts:28-31 | `a` becomes `m`, `b` becomes `d`, and other letters are kept |
| KeyColors.NormalizeColorKey | app/core/key-colors.ts:33-43 | a name that normalises is always one of the record's keys |
| KeyColors.NormalizeTrimmed | app/core/key-colors.ts:35-42 | a name normalises exactly when it matches the pattern, and then becomes its number followed by the mapped letter, which is a key of the record |
| KeyColors.EntryOfColorNumber | app/core/key-colors.ts:1-26 | a number the pattern accepts, followed by `m` or `d`, names that position's palette colour |
| KeyColors.GetKeyColor | app/core/key-colors.ts:45-51 | grey exactly when the name does not normalise; otherwise a palette colour |
| KeyColors.PaletteNotGrey | app/core/key-colors.ts:1-26 | no palette colour is the grey fallback |
| KeyColors.PaletteDistinct | app/core/key-colors.ts:2-13 | the twelve wheel positions have twelve different colours |
| KeyColors.NormalizeDigitsLetter | app/core/key-colors.ts:33-43 | how digits followed by a key letter in either case normalise |
| KeyColors.ColorNumberOfNat | app/core/key-colors.ts:35 | the decimal text of 1..12 is a number the pattern accepts |
| KeyColors.ColorOfNotation | app/core/key-colors.ts:33-51 | every number 1..12 followed by a key letter, in any case and alias, gets its position's colour |
| KeyColors.ColorOfKey | app/core/key-colors.ts:45-51 | every formatted valid key gets its position's colour, which is not grey |
| KeyColors.ColorIgnoresLetter | app/core/key-colors.ts:1-26 | a key's minor and major forms share a colour |
| KeyColors.CanonicalFixed | app/core/key-colors.ts:34 | a trimmed, lower-cased name stays the same when trimmed and lower-cased again |
| KeyColors.ColorIgnoresCaseAndBlanks | app/core/key-colors.ts:33-51 | the normalisation, and so the colour, ignores surrounding whitespace and letter case |
| KeyColors.GreyDigits | app/core/key-colors.ts:35-38 | digits the pattern refuses are grey whatever the letter |
| KeyColors.ColorRejectsLeadingZero | app/core/key-colors.ts:35 | "01m" is grey, although the key parser accepts it as 1m |
| KeyColors.ColorRejectsZero | app/core/key-colors.ts:35 | "0m" is grey |
| KeyColors.ColorRejectsAboveTwelve | app/core/key-colors.ts:35 | "13m" is grey |
| KeyColors.KeyColorsDomain | app/core/key-colors.ts:1-26 | the record holds exactly the 24 names made of a number 1..12 in plain decimal followed by `m` or `d` |
| KeyColors.CanonicalDigits | app/core/key-colors.ts:35 | one or two digits without a leading zero are the decimal text of their value |
| LegacyOpenKey.ParseStrict | src/core/openKey.ts:23-48 | a parsed key is valid and accepted by the guard; the empty string and inputs longer than 3 are refused; it succeeds exactly on a run of digits with value 1..12 followed by a lower-case `d` or `m` |
| LegacyOpenKey.ParseStrictValue | src/core/openKey.ts:23-27 | a non-string gives nothing |
| LegacyOpenKey.ParseStrictDigits | src/core/openKey.ts:23-48 | digits with value 1..12 and `d` or `m` parse to that key |
| LegacyOpenKey.ParseStrictFormat | src/core/openKey.ts:23-48 | the strict parser reads back every formatted valid key |
| LegacyOpenKey.StrictRefinesApp | src/core/openKey.ts:23-48 | whatever the strict parser accepts, the application's parser accepts with the same result |
| LegacyOpenKey.StrictRefusesBlank | src/core/openKey.ts:23-48 | a leading blank, which the application trims away, is refused by the strict parser |
| LegacyOpenKey.StrictRefusesAliases | src/core/openKey.ts:23-48 | Camelot letters and upper case, which the application reads, are refused by the strict parser |
| LegacyOpenKey.ParseStrictAccepts | src/core/openKey.test.ts:38-42 | "1d", "12m" and "6d" parse to the expected keys |
| LegacyOpenKey.ParseStrictRefusesShapes | src/core/openKey.test.ts:44-52 | "", "d", "1" and "d1" are refused |
| LegacyOpenKey.ParseStrictRefusesValues | src/core/openKey.test.ts:44-52 | "13d", "0d" and "1a" are refused |
| LegacyOpenKey.ParseStrictRefusesNonStrings | src/core/openKey.test.ts:54-59 | null, undefined, a number and an object give nothing |
| LegacyOpenKey.IsOpenKeyAccepts | src/core/openKey.test.ts:5-21 | the guard accepts 1d, 12m and 6d and refuses the numbers 0, 13 and -1 |
| LegacyOpenKey.IsOpenKeyRefusesLetters | src/core/openKey.test.ts:11-15 | the guard refuses every letter other than "d" and "m", "a", "D" and "M" included |
| LegacyOpenKey.IsOpenKeyRefusesShapes | src/core/openKey.test.ts:23-34 | the guard refuses non-objects and objects missing a property |
| LegacyRules.NextRootKey | src/core/rules.ts:14-59 | every legacy rule keeps a key valid |
| LegacyRules.MaintainIsIdentity | src/core/rules.ts:19-20 | `maintain` copies the key |
| LegacyRules.UpliftSteps | src/core/rules.ts:22-26 | `adjacent-uplift` steps one position up, from 12 back to 1, and keeps the letter |
| LegacyRules.DownliftFlips | src/core/rules.ts:28-32 | `adjacent-downlift` flips the letter and keeps the number; applied twice it is the identity |
| LegacyRules.UpliftMatchesApp | src/core/rules.ts:22-26 | `adjacent-uplift` is the application's +1 wheel step |
| LegacyRules.BoostOneMatchesApp | src/core/rules.ts:34-38 | `boost-one-semitone` is the application's +7 wheel step |
| LegacyRules.BoostTwoMatchesApp | src/core/rules.ts:40-44 | `boost-two-semitone` is the application's +2 wheel step |
| LegacyRules.WrapStepMatches | src/core/rules.ts:22-44 | the legacy wrap `((n + c) % 12) + 1` equals the application's wheel step by `c + 1` |
| LegacyRules.ParallelMinorSteps | src/core/rules.ts:46-50 | `parallel-key-minor` sets m and steps three positions down |
| LegacyRules.ParallelMajorSteps | src/core/rules.ts:52-56 | as written, `parallel-key-major` sets d and steps four positions up, not three |
| LegacyRules.ParallelRoundTripAsWritten | src/core/rules.ts:46-56 | as written, 1d goes to 10m under parallel-key-minor and then to 2d under parallel-key-major, not back to 1d |
| LegacyRules.IntendedParallelMajor | src/core/rules.ts:52-56 | the corrected rule keeps keys valid |
| LegacyRules.IntendedMajorUndoesMinor | src/core/rules.ts:46-56 | the corrected parallel-key-major undoes parallel-key-minor on every major key |
| LegacyRules.MinorUndoesIntendedMajor | src/core/rules.ts:46-56 | parallel-key-minor undoes the corrected parallel-key-major on every minor key |

## Left out

- Browser and runtime effects are not modelled:
  - the `typeof window` checks and `localStorage`;
  - `console.error`;
  - `generateId` with `crypto.randomUUID`, `Date.now` and `Math.random`.

  Ids and the current time are parameters (`mixId`, `trackId`, `mixIds`, `trackIds`, `now`, `createdAt`).
- JSON is abstract. `saveMixes` and `loadMixes` take `serialize` and `parse` as parameters. In `LoadMixes`, a `None` from `parse` stands for every path that ends with an empty list: invalid JSON, a non-array, or an entry that makes `normalizeMix` throw. Stored records are modelled on their declared types, and non-string fields are not modelled.
- Base64 is abstract: `toBase64`/`fromBase64` are parameters, standing for whichever branch runs, and UTF-8 and URI encoding are not modelled. The Node `Buffer` branch and the browser `btoa(encodeURIComponent(...))` branch produce different tokens. The model does not compare them: the round trip holds for any pair of codings that invert each other.
- `DOMParser` and the XML selectors are not modelled. `parseNmlFile` works on a document already reduced to its collection entries, their locations, and the playlist node's entries; the `parsererror` node is a flag.
- Numbers are integers only. `NaN`, `Math.round(parseFloat(bpm))` and fractional tempo text are not modelled: a bpm is an optional integer. The `MUSICAL_KEY` code is an optional integer, so `parseInt` of non-numeric text is not modelled.
- Strings are sequences of code points. JavaScript's UTF-16 lengths and `toLowerCase` beyond ASCII are not modelled. Neither can change which inputs match the key patterns, because those patterns accept only ASCII.
- JsRuntime.IntToString: numbers are unbounded integers. JavaScript's exponent form (`String(1e21)` is "1e+21") and the loss of precision above 2^53 are not modelled, so the "N BPM" text of `MixStorage.StoredDetails` is exact only for integers written in plain decimal.
- Property lookups on plain objects in the catalogue map and the colour record are not modelled: inherited prototype names such as `constructor` are not looked up. `getHarmonicRule` therefore succeeds exactly on catalogue ids.
- MixStorage.UpdateTrackInfo: an update object that explicitly sets a field to `undefined` is not modelled. An absent field is left alone, and a supplied one must be a string.
- MixStorage.StoredStartKey: when the stored start key is missing, the first track's key is used directly rather than normalised again. `NormalizeKeyKeeps` shows the two are the same, because normalised track keys are already valid.
- `customHarmonicSuggestion` and `CUSTOM_HARMONIC_RULE_ID` are re-exported by `app/core/rules.ts`, but `app/core/transitions.ts` does not define them; they are not part of this model. The same goes for `EnergyLevel`, which `app/routes/mix.tsx` imports from `app/core/mix-storage.ts`: the model declares its three values itself.
- `moveTrack`, `clearMixTimeline` and `createMixFromNml` are imported by `app/routes/layout.tsx`, but no file of the model's scope defines them; they are not part of this model.
- `isOpenKey` of `src/core/openKey.ts` is the same function as in `app/core/openKey.ts`. `LegacyOpenKey` reuses `OpenKeys.IsOpenKey` for it rather than declaring it twice.
- The `keyColors` record is modelled as a function from names to palette entries. `KeyColorsDomain` proves that it holds exactly the 24 names of the record. The Traktor record is a sequence indexed by code, and `TraktorDomain` proves its domain is 0..23.
- Within `app/core/mix-storage.ts`, `STORAGE_KEY` is not modelled: storage is passed in as the raw text. This model does not cover the React components, routes or scripts.

## Findings

| source | as written | input that shows it | evidently intended | confidence | as-written member | corrected member |
|---|---|---|---|---|---|---|
| src/core/rules.ts:52-56 | `parallel-key-major` computes `((n + 3) % 12) + 1`, four positions up the wheel | 1d under `parallel-key-minor` gives 10m (C major to C minor); `parallel-key-major` then gives 2d (G major) rather than 1d | `((n + 2) % 12) + 1`, three positions up the wheel. This is the inverse of `parallel-key-minor`'s three steps down, and matches the +3 of the application's catalogue | not executed | LegacyRules.ParallelRoundTripAsWritten | LegacyRules.IntendedParallelMajor |
