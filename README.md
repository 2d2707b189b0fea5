# Game-item OCR: text parsing and in-browser stores, modelled in Dafny

The system reads screenshots of game items: it crops them and runs OCR. It then
turns the recognised text into a set name, a type name and up to four skills
with levels. It also keeps the regions, templates and results of the browser
tool in memory. This project models the text side and those stores. It leaves
out the recognizer, pixels and the DOM.

Each module follows one part of the program:

- `Text` (`text.dfy`) holds the character classes and string helpers the
  regexes and JS string methods rely on:
  - the `\s` and `\d` classes and the Hangul syllable block;
  - whitespace collapse and strip, substring search and split/join;
  - decimal text and `parseInt`;
  - subsequences and the first index of an element.
- `JsRuntime` (`js_runtime.dfy`) holds the JavaScript semantics the code depends
  on: the truncating `%`, `Array.prototype.splice(i, 1)` and `Math.round`.
- `EditDistance` (`edit_distance.dfy`) is the Levenshtein table. Both copies of
  it (`run-test.py`, `js/skill-data.js`) fill the same table, so one
  definition serves both.
- `Matching` (`matching.dfy`) is the shared cascade: exact match, then
  substring in either direction, then nearest by edit distance, kept only
  when `2·d <= max(len)`.
- `SkillParser` (`skill_parser.dfy`) covers `match_exact`, `is_ignored`,
  `clean_skill_name`, `match_skill`, `parse_type_name` and `parse_skill_line`.
  Their regexes are written as scanners with `re.search` semantics: leftmost
  start, then lazy or greedy as the pattern says.
- `RawSearch` (`raw_search.dfy`) covers `find_skills_in_raw` and
  `collect_levels`.
- `FullText` (`full_text.dfy`) covers `parse_full_text`: the merged lines, the
  structured pass, the recovery pass, the fallback pass and the raw
  substring search.
- `SkillData` (`skill_data.dfy`) covers the class dictionary and
  `getAllSkills`, `getSkillsByClass`, `getClassNames` and `matchSkill` of
  `js/skill-data.js`.
- `RegionSelector` (`regions.dfy`) is a class over the region list, its
  counter and the drag state.
- `TemplateManager` (`templates.dfy`) is a class over the storage slot that
  holds the template object.
- `ResultTable` (`result_table.dfy`) is a class over `columns` and `rows`,
  plus `escapeAttr`.
- `ExportManager` (`csv_export.dfy`) builds the CSV text and holds an RFC 4180
  reader that proves the round trip.
- `OcrEngine` (`ocr_engine.dfy`) is the busy flag, the once-only worker
  set-up, the per-region result loop, the page segmentation mode and the
  upscale factor.
- `ImageManager` (`images.dfy`) is the image list, the selection, the crop
  sliders and the crop rectangle. It also holds the crop box of `run-test.py`'s
  `crop_image`, with Python's half-to-even `round`.

Loops in the source are methods with loop invariants. Each is proved equal to
a specification function, and the source's promises are proved about that
function as lemmas. Objects whose state the source updates in place are
classes with `modifies` clauses.

## Model

| member | source | states |
|---|---|---|
| Text.Strip | run-test.py:109 | `strip()`: the result has no whitespace at either end; it is empty exactly when the input is all whitespace; it keeps every non-space character in order |
| Text.TrimStart | js/ocr-engine.js:112 | the result is a suffix of the input, every dropped character is whitespace, and the result does not start with whitespace |
| Text.TrimEnd | js/ocr-engine.js:112 | the result is a prefix of the input, every dropped character is whitespace, and the result does not end with whitespace |
| Text.StripIsSlice | run-test.py:146 | the stripped text is one contiguous slice of the input |
| Text.Collapse | run-test.py:64 | `re.sub(r'\s+', ' ', s)`: every whitespace in the result is a single space followed by a non-space; the result is empty only for empty input and starts with whitespace exactly when the input does; CollapseWords gives the result exactly |
| Text.Squish | run-test.py:84 | collapse then strip: only single inner spaces remain; the result is empty iff the input is all whitespace; the non-space characters are unchanged; SquishWords gives the result exactly |
| Text.SquishWords | run-test.py:84 | `re.sub(r'\s+', ' ', s).strip()` equals the words of `s` (`s.split()`) joined by single spaces, so a whitespace run between words becomes exactly one space |
| Text.CollapseWords | run-test.py:64 | `re.sub(r'\s+', ' ', s)` is the words joined by single spaces, with one space in front when `s` starts with whitespace and one behind when it ends with it; all-whitespace text becomes one space |
| Text.WordsShape | run-test.py:64 | every word is non-empty and holds no whitespace |
| Text.StripCollapsed | run-test.py:84 | stripping a collapsed text leaves only single spaces between non-space characters |
| Text.NonSpaceCollapse | run-test.py:64 | collapsing whitespace keeps every non-space character in order |
| Text.NonSpaceCons | run-test.py:64 | the non-space characters of one character followed by a text: that character unless it is whitespace, then those of the text |
| Text.NonSpaceAppend | run-test.py:69 | the non-space characters of a concatenation are those of each part, in order |
| Text.NonSpaceEmpty | run-test.py:85 | a text has no non-space characters exactly when it is all whitespace |
| Text.RemoveSpaces | run-test.py:53 | `replace(' ', '')`: no space is left and the text does not grow |
| Text.RemoveSpacesCount | run-test.py:53 | exactly the spaces go: the length drops by the number of spaces and every other character keeps its count |
| Text.RemoveSpacesAppend | run-test.py:53 | removing spaces works piece by piece, so the kept characters stay in their order |
| Text.RemoveSpacesChar | run-test.py:53 | a single character is dropped exactly when it is the plain space |
| Text.Split | run-test.py:146 | `split('\n')`: at least one part, and no part contains the separator |
| Text.JoinSplit | run-test.py:146 | joining the parts of a split with the separator gives the input back |
| Text.NatToString | js/region-selector.js:101 | the decimal text of a number is non-empty, all digits, and its value is the number |
| Text.DigitRun | js/ocr-engine.js:100 | the leading digit run: all digits, followed by a non-digit or the end |
| Text.ParseIntNatToString | js/ocr-engine.js:100 | `parseInt` of a number's decimal text gives that number |
| Text.ParseInt | js/image-manager.js:49 | `parseInt`: NaN (none) when, after leading whitespace, the text is empty or starts with neither a digit nor a sign |
| Text.ParseIntStopsAtNonDigit | js/image-manager.js:49 | `parseInt` reads the leading digit run and ignores the rest ("12px" gives 12), unless a lone `0` is followed by `x` |
| Text.ParseIntNegative | js/image-manager.js:49 | a minus sign before a digit run negates its value |
| Text.TrimStartNonSpace | js/image-manager.js:49 | a text that starts with a non-space character has no leading whitespace to skip |
| Text.ParseIntDigits | js/image-manager.js:49 | `parseInt` of an all-digit text is its decimal value |
| JsRuntime.Rem | js/region-selector.js:104 | JS `%` truncates: non-negative operands agree with the mathematical remainder, and a small negative operand is returned unchanged, so `-1 % 8` is `-1` |
| JsRuntime.RemoveAt | js/region-selector.js:146 | `splice(i, 1)`: a valid index removes exactly that element and keeps the rest in order; an index past the end changes nothing; a negative index counts from the end; nothing is added |
| JsRuntime.Round | js/image-manager.js:72 | `Math.round`: the nearest integer, halves rounded up |
| EditDistance.LevenshteinTable | run-test.py:72-80 | filling the `dp` table row by row ends with the edit distance of the two strings |
| EditDistance.FillRow | js/skill-data.js:123-128 | one row of the table: every cell becomes the edit distance of the two prefixes, other rows are unchanged |
| EditDistance.LevenshteinStep | run-test.py:79 | the recurrence of the table holds for the edit distance of prefixes |
| EditDistance.LevenshteinSelf | run-test.py:72-80 | d(a, a) = 0 |
| EditDistance.LevenshteinZero | js/skill-data.js:118-131 | d(a, b) = 0 exactly when a = b |
| EditDistance.LevenshteinEmpty | run-test.py:75-76 | d(a, "") = d("", a) = len(a) |
| EditDistance.LevenshteinAtMostMax | run-test.py:72-80 | d(a, b) <= max(len a, len b) |
| EditDistance.LevenshteinAtLeastLengthGap | run-test.py:72-80 | d(a, b) >= the difference of the lengths |
| EditDistance.LevenshteinSymmetric | js/skill-data.js:118-131 | d(a, b) = d(b, a) |
| Matching.FirstOverlap | js/skill-data.js:144 | the first list entry that contains, or is contained in, the text; none before it does; none means no entry does |
| Matching.NearestLeast | js/skill-data.js:148-156 | the scan's choice has the least distance of all entries, and every earlier entry is strictly farther (first minimum wins) |
| Matching.ByDistance | js/skill-data.js:158-162 | an accepted entry is in the list, non-empty, within `2·d <= max(len)` and no farther than any entry; a refusal means the nearest entry is empty or too far |
| Matching.Pick | run-test.py:85-96 | for collapsed text: empty text gives nothing, an exact hit is returned unchanged, and any result is a non-empty list entry that overlaps the text or is close enough |
| Matching.Cascade | js/skill-data.js:136-164 | matchSkill on a list: whitespace-only text gives null, a collapsed exact hit is returned, any result is a non-empty element of the list that overlaps or is close to the collapsed text |
| Matching.CascadeFirstOverlap | js/skill-data.js:144-145 | with no exact hit, the first entry overlapping the collapsed text is the answer |
| Matching.CascadeNearest | js/skill-data.js:148-162 | with no exact hit and no overlap, the answer is the first nearest entry when `2·d <= max(len)`, otherwise nothing |
| Matching.NoOverlap | js/skill-data.js:144 | if no entry overlaps the text, the containment step finds nothing |
| Matching.NearestScan | js/skill-data.js:148-156 | the `bestDist`/`bestMatch` loop ends with the first nearest entry and its distance, and with nothing for an empty list |
| Matching.NearestSnoc | run-test.py:91-93 | one more step of the loop: a strictly closer entry replaces the best, a tie keeps it |
| Matching.MatchByDistance | run-test.py:90-95 | the distance stage with its threshold computes `ByDistance` |
| Matching.MatchIn | js/skill-data.js:136-164 | the whole cascade over a list computes `Cascade` |
| Matching.PickScan | run-test.py:86-96 | the exact, substring and distance loops compute `Pick` |
| SkillParser.FirstLongOverlap | run-test.py:57-59 | the first item of length >= 2 that contains, or is contained in, the text; none before it qualifies |
| SkillParser.ExactMatch | run-test.py:52-60 | match_exact: spaces are removed first; an equal item wins; otherwise the first item in list order of length >= 2 overlapping in either direction, with no earlier item overlapping; None exactly when neither exists; any result is in the list |
| SkillParser.IgnoredFromExists | run-test.py:63-65 | the ignore check holds exactly when some ignore word occurs in the collapsed text |
| SkillParser.CleanSkillName | run-test.py:68-69 | only Hangul syllables and single inner spaces remain, with no space at either end, and the Hangul syllables of the input are kept in order |
| SkillParser.NonSpaceKeepNameChars | run-test.py:69 | deleting everything but Hangul and whitespace keeps exactly the Hangul syllables as non-space characters |
| SkillParser.SkipSpaces | run-test.py:112 | `\s*`: the position after the maximal run of whitespace |
| SkillParser.DigitsEnd | run-test.py:112 | `(\d+)`: the position after the maximal run of digits |
| SkillParser.Tail | run-test.py:112-113 | the part after the name (optional spaces, a level marker Lv, LV, lv or Iv, an optional plus and digits; or spaces, a plus and digits): a match found is a genuine one and takes all the digits |
| SkillParser.TailComplete | run-test.py:112-113 | whenever the tail can match at a position, the scanner finds it with the same digit start |
| SkillParser.LazyEndFirst | run-test.py:112 | the lazy name `*?` stops at the first end where the tail matches: no earlier end has one |
| SkillParser.LazyEndNone | run-test.py:112 | if the lazy name finds no end, no valid name end has a matching tail |
| SkillParser.MatchAt | run-test.py:112-113 | a match at a start position is a name run followed by the tail, at the shortest name end that has one; none means no name end has one |
| SkillParser.Search | run-test.py:115 | `re.search`: the match starts at the leftmost position that has one |
| SkillParser.SearchIsLeftmostLazy | run-test.py:115 | the search result is a genuine match, no match starts earlier, no shorter name at the same start matches, and no result means no match exists anywhere |
| SkillParser.SearchReaches | run-test.py:115 | any match in the text forces the search to succeed at that start or earlier |
| SkillParser.HangulEnd | run-test.py:100 | `[가-힣]+` run greedily from `p`: every character up to the end is a Hangul syllable and the next one is not |
| SkillParser.HangulEndMax | run-test.py:100 | no Hangul run from `p` reaches past `HangulEnd(s, p)` |
| SkillParser.HangulEndIs | run-test.py:100 | a Hangul run followed by a non-Hangul character or the end is exactly the greedy run |
| SkillParser.Link | run-test.py:100 | `\s*의\s*` followed by a Hangul syllable at `j`: where the second group starts, a Hangul syllable after `j` |
| SkillParser.LinkSound | run-test.py:100 | the reported start is reached by whitespace, `의`, whitespace (the link pattern `LinkSpan`) |
| SkillParser.LinkComplete | run-test.py:100 | whenever the link pattern spans `s[j..k]` and a Hangul syllable is at `k`, the scanner reports exactly `k` |
| SkillParser.GreedyEnd | run-test.py:100 | the greedy first group backs off from the longest run to the last end where `\s*의\s*[가-힣]` follows; no later end has a link, and none when no end in the run has one |
| SkillParser.TypeMatchAt | run-test.py:100 | a match starting at `i` satisfies the regular expression position by position (`TypeAt`), with the second group the greedy Hangul run |
| SkillParser.TypeMatchAtIsGreedy | run-test.py:100 | whenever the pattern matches at `i` at all, the scanner finds a match there; its first group is the longest one that admits a match, and for that first group the second group starts at the same place and is at least as long |
| SkillParser.SearchType | run-test.py:100 | `re.search`: the first start from `from` where the scanner matches, none before it, or none at all when no start matches |
| SkillParser.SearchTypeIsLeftmostGreedy | run-test.py:100 | the search result satisfies the pattern; no match of the pattern starts earlier, none at the same start has a longer first group; none exactly when the pattern matches nowhere |
| SkillParser.TypeGroups | run-test.py:100 | `m.group(1), m.group(2)`: present exactly when the search finds a match, and then the two group texts of that match |
| SkillParser.ParseTypeName | run-test.py:99-105 | a pair exactly when the search finds a match and both of its groups have a `match_exact` answer; the pair is those two answers, a set from SET_NAMES and a type from TYPE_NAMES; otherwise neither |
| SkillParser.TypeLineGroups | run-test.py:100 | on `A의 B`, two Hangul words with `B` not starting with `의`, the groups are exactly `A` and `B` |
| SkillParser.ListedWords | run-test.py:16-17 | every SET_NAMES and TYPE_NAMES entry is a Hangul word without spaces that does not start with `의` |
| SkillParser.ParseTypeLine | run-test.py:99-105 | `parse_type_name("<set>의 <type>")` gives that set and type for every listed pair |
| SkillParser.TypeLineExample | run-test.py:99-105 | `parse_type_name("활력의 성배")` gives `("활력", "성배")` |
| SkillParser.RemoveSpacesNone | run-test.py:53 | removing spaces from a text without spaces leaves it unchanged |
| SkillParser.SkillFromMatch | run-test.py:117-120 | a skill exactly when the cleaned group 1 has length >= 2 and is not ignored; its name is `match_skill` of that name, or the name itself; its level is "+" then group 2 |
| SkillParser.MatchedOr | run-test.py:119-120 | `matched or name`: a SKILLS entry, or the name itself when nothing matches |
| SkillParser.ChosenName | run-test.py:118-120 | the chosen name is a listed skill, or a clean name that passed the length and ignore checks |
| SkillParser.TryPattern | run-test.py:115-120 | no search match gives nothing; with a match, a skill exactly when the cleaned name is usable, and then the name and level built from that match |
| SkillParser.ParseSkillLine | run-test.py:108-121 | empty and ignored lines give None; otherwise the first pattern's skill when it gives one, else the second pattern's answer; any result has a "+digits" level and a SKILLS or cleaned name |
| SkillParser.CleanNameKeeps | run-test.py:68-69 | a name of Hangul syllables with single inner spaces is its own cleaned form |
| SkillParser.MatchedOrListed | run-test.py:86-87 | a clean SKILLS entry is matched to itself |
| SkillParser.ParseMarkerLine | run-test.py:108-120 | completeness of the first pattern: a clean, usable name, ` Lv +`, digits and a tail that does not continue them give that name (or its SKILLS match) at "+" those digits |
| SkillParser.ParsePlusLine | run-test.py:108-121 | completeness of the second pattern: a clean, usable name, ` +` and digits give that name (or its SKILLS match) at "+" those digits |
| SkillParser.MarkerLineListed | run-test.py:108-120 | a marker line naming a listed skill gives exactly that skill and level |
| SkillParser.PlusLineListed | run-test.py:108-121 | a plus line naming a listed skill gives exactly that skill and level |
| SkillParser.NotIgnoredByInitials | run-test.py:63-65 | text with none of the ignore words' first syllables is not ignored |
| SkillParser.IgnoreWordIgnored | run-test.py:63-65 | every ignore word on its own is ignored |
| SkillParser.NamesNonEmpty | run-test.py:16-17 | no SET_NAMES or TYPE_NAMES entry is empty |
| SkillParser.NoTypeName | run-test.py:99-105 | a line without `의` names no set and type |
| SkillParser.MarkerLineExample | run-test.py:108-120 | `격파쇄 Lv +2` gives 격파쇄 at `+2` |
| SkillParser.PlusLineExample | run-test.py:108-121 | `격파쇄 +2` gives 격파쇄 at `+2` through the second pattern |
| SkillParser.IgnoredLineExample | run-test.py:108-110 | `장착 효과` gives None |
| RawSearch.SortByLengthDescFacts | run-test.py:127 | `sorted(SKILLS, key=len, reverse=True)` is ordered longest first, is a permutation of its input, and is stable: the elements of each length keep their input order |
| RawSearch.SortStable | run-test.py:127 | the elements of one length appear in the sorted list in their input order |
| RawSearch.InsertByLengthStable | run-test.py:127 | one insertion puts the element after every element of its own length |
| RawSearch.InsertByLengthPermutes | run-test.py:127 | inserting one element adds exactly that element |
| RawSearch.InsertByLengthSorted | run-test.py:127 | inserting into a longest-first list keeps it longest first |
| RawSearch.FoundFromSound | run-test.py:127-132 | every found skill is from the list, occurs in the text and was not named before; no repeats; no more than the room left |
| RawSearch.FoundFromComplete | run-test.py:129-132 | if the room was not filled, every listed, unnamed skill occurring in the text was found |
| RawSearch.FoundFromSorted | run-test.py:127 | the found skills stay longest first |
| RawSearch.FoundFromFacts | run-test.py:124-133 | the three properties above together, and the found skills appear in the walk's order |
| RawSearch.FoundFromSubsequence | run-test.py:127-132 | the found skills are a subsequence of the sorted list |
| RawSearch.WalkOrder | run-test.py:127-132 | the loop with its `break` and `existing_names.add` computes the specification |
| RawSearch.CollectFound | run-test.py:124-133 | found entries carry an empty level, come from the list, occur in the text, are new and distinct, keep the list's order by length, and found + existing stays within 4 |
| RawSearch.FindSkillsInRaw | run-test.py:124-133 | find_skills_in_raw: found entries are SKILLS entries in the text, new, distinct, longest first, with empty level, and found + existing <= 4 unless nothing was found |
| RawSearch.RawFindsFacts | run-test.py:124-133 | the same guarantees, as a lemma about the specification function |
| RawSearch.MarkerMatch | run-test.py:138 | one match of the level-marker pattern starts with a marker, satisfies the pattern position by position, and captures a digit run |
| RawSearch.MarkerMatchComplete | run-test.py:138 | wherever the marker pattern matches at `p`, the scanner reports that digit group, extended to the whole digit run |
| RawSearch.MarkerMatchBody | run-test.py:138 | after its two marker letters a match spans only whitespace, `+` and digits |
| RawSearch.MarkerMatchBefore | run-test.py:138 | marker matches cannot overlap: a match that starts before another marker ends at that marker at the latest |
| RawSearch.MarkerLevels | run-test.py:138-139 | every collected marker level is "+" then digits |
| RawSearch.MarkerLevelsAt | run-test.py:138-139 | one step of `finditer`: a match at the position is collected and the search resumes after its digits; otherwise it moves one character on |
| RawSearch.MarkerLevelsComplete | run-test.py:138-139 | `finditer` misses no marker level: every marker match at or after `from` contributes "+" and its full digit run |
| RawSearch.MarkerLevelsNoMarker | run-test.py:138-139 | a position without a marker contributes nothing |
| RawSearch.PlusLevelsConsumingNoMatch | run-test.py:140-141 | a position where the free-standing pattern does not match contributes nothing |
| RawSearch.CollectLevelsExample | run-test.py:136-142 | on "격파쇄 Lv +2" the marker loop gives ["+2"] and the free-standing loop, through " +2" at the end, gives ["+2"] again |
| RawSearch.PlusLevelsConsuming | run-test.py:140-141 | as written: every collected free-standing level is "+" then digits |
| RawSearch.PlusLevelsConsumingComplete | run-test.py:140-141 | as written: every "+digits" followed by whitespace or the end is collected when it is at a line start, or after whitespace that does not directly follow a digit |
| RawSearch.PlusLevels | run-test.py:140-141 | with the trailing test as a lookahead (the corrected pattern of the first finding): every collected level is "+" then digits |
| RawSearch.PlusMatch | run-test.py:140 | a match has "+" at a line start or after whitespace, then digits ending at whitespace or the end |
| RawSearch.PlusLevelsComplete | run-test.py:140-141 | with the corrected pattern, every "+digits" at a line start or after whitespace, followed by whitespace or the end, is collected |
| RawSearch.ScanMarkerLevels | run-test.py:138-139 | the first `finditer` loop computes the marker levels |
| RawSearch.ScanPlusLevels | run-test.py:140-141 | the second `finditer` loop, resuming after the consumed whitespace, computes the as-written free-standing levels |
| RawSearch.CollectLevels | run-test.py:136-142 | marker levels then free-standing levels, both with the patterns as written, each "+" then digits |
| RawSearch.AdjacentLevelsConsuming | run-test.py:140 | as written, the trailing `\s` is consumed: "+1 +2" yields only "+1" |
| RawSearch.AdjacentLevels | run-test.py:140 | with the separator not consumed, "+1 +2" yields both levels |
| FullText.Lines | run-test.py:146 | every kept line is non-empty and has no whitespace at either end |
| FullText.NonBlank | run-test.py:146 | stripped non-blank parts, never more than the parts |
| FullText.Merged | run-test.py:147-150 | `2n-1` entries: line i at 2i, and line i joined to line i+1 by one space at 2i+1 |
| FullText.MergeLines | run-test.py:147-150 | the merge loop computes `Merged` |
| FullText.TypeStepKeeps | run-test.py:156-159 | one set/type step keeps names listed and never replaces a name already found |
| FullText.SkillStepKeeps | run-test.py:160-163 | one skill step keeps at most 4 entries and no duplicate (name, level) pair, and only appends |
| FullText.StepKeeps | run-test.py:155-163 | one merged line keeps all of the above |
| FullText.StructuredKeeps | run-test.py:155-163 | the whole structured pass keeps at most 4 distinct valid skills and listed names, and only appends |
| FullText.StructuredPass | run-test.py:152-163 | the structured loop computes the specification |
| FullText.FillNames | run-test.py:156-159 | fills only empty names, from the pair parse_type_name returned |
| FullText.AddSkill | run-test.py:160-163 | appends the parsed skill only below 4 entries and only if the pair is new |
| FullText.StructuredOfConsistent | run-test.py:152-163 | the structured result of any text is consistent |
| FullText.StepAppends | run-test.py:155-163 | a line with no set/type answer and a new skill, below 4 entries, appends that skill and changes nothing else |
| FullText.StepRepeats | run-test.py:160-163 | a line whose skill is already kept changes nothing |
| FullText.MergedTwo | run-test.py:147-150 | two lines merge into the first, the joined pair and the second |
| FullText.StructuredTwoLines | run-test.py:147-163 | two lines each giving its own skill, whose joined line repeats the first one's, give both skills in order and the repeat once |
| FullText.EntryGives | run-test.py:108-120 | a plain line of a listed name, ` Lv +` and digits names no set and type and gives that skill |
| FullText.JoinedGives | run-test.py:150 | two such lines joined by a space give the first one's skill |
| FullText.TwoLineExample | run-test.py:145-163 | the lines `격파쇄 Lv +2` and `타격쇄 Lv +3` give 격파쇄 at `+2` then 타격쇄 at `+3`, with no set or type |
| FullText.RemoveFirst | run-test.py:171 | `list.remove(u)`: exactly one occurrence removed, or the list unchanged if absent |
| FullText.RemoveFirstAt | run-test.py:171 | the occurrence removed is the first one, and the rest keep their order |
| FullText.RemoveFirstSubsequence | run-test.py:171 | the result is a subsequence of the list |
| FullText.RemoveUsed | run-test.py:170-171 | the remaining levels are exactly all levels minus the used ones, as multisets |
| FullText.RemoveUsedSubsequence | run-test.py:170-171 | the remaining levels keep the order of `collect_levels` |
| FullText.RemainingLevels | run-test.py:169-171 | the removal loop computes `RemoveUsed` |
| FullText.AllLevels | run-test.py:167 | `collect_levels(raw)` as written: every level is "+" then digits |
| FullText.RemainingAreLevels | run-test.py:167-171 | every remaining level is "+" then digits |
| FullText.AssignedShape | run-test.py:172-175 | the recovery loop appends as many found entries as there is room for, the k-th with the k-th remaining level when there is one |
| FullText.AppendFound | run-test.py:172-175 | the `pop(0)` loop with its `break` computes the assignment |
| FullText.AppendedFacts | run-test.py:172-175 | appending keeps earlier entries, stays within 4, and adds no duplicate pair and no name used before |
| FullText.RecoveredShape | run-test.py:165-175 | the recovery pass only appends, stays within 4, and adds no duplicate pair |
| FullText.RecoveredEntries | run-test.py:165-175 | each recovered entry is a SKILLS entry occurring in the text, with an empty level or a "+digits" level |
| FullText.Recover | run-test.py:165-175 | the recovery block computes `Recovered` |
| FullText.FallbackKeeps | run-test.py:177-187 | the fallback pass keeps names listed and never replaces a found name |
| FullText.FillFromLine | run-test.py:180-187 | one fallback line fills each empty name from its own group |
| FullText.FallbackFillsHeader | run-test.py:180-187 | with both names missing, a line "<set>의 <type>" of listed names fills both |
| FullText.FallbackOne | run-test.py:178-187 | over a single line with a name missing, the fallback pass is one step on that line |
| FullText.FallbackExample | run-test.py:177-187 | the fallback pass over the line "마력의 거울" fills an empty header with ("마력", "거울") |
| FullText.FallbackScan | run-test.py:178-187 | the fallback loop computes the specification |
| FullText.FirstContained | run-test.py:188-193 | the first name (of the minimum length) occurring in the text; none before it does |
| FullText.FirstContainedScan | run-test.py:189-193 | the loop with `break` computes `FirstContained` |
| FullText.FromRaw | run-test.py:188-193 | a found name is kept; an empty one is filled with a listed name occurring in the text, or stays empty only if none occurs |
| FullText.NameFromRaw | run-test.py:188-193 | the substring search computes `FromRaw` |
| FullText.ParseFullText | run-test.py:145-195 | parse_full_text computes the specification `FullTextOf` |
| FullText.FullTextSkills | run-test.py:145-195 | at most 4 skills, no duplicate (name, level) pair, and the structured skills come first unchanged |
| FullText.FullTextRecovered | run-test.py:165-175 | every skill after the structured ones is a SKILLS entry occurring in the text, with an empty or "+digits" level |
| FullText.FullTextNames | run-test.py:177-195 | set is "" or in SET_NAMES, type is "" or in TYPE_NAMES; an empty set means no set name occurs in the text; an empty type means no type name of length >= 2 occurs |
| SkillData.Flatten | js/skill-data.js:98-101 | the skills offered by some class, active or passive |
| SkillData.Dedup | js/skill-data.js:97-102 | a `Set` spread into an array: the same elements, without repeats, in first-insertion order |
| SkillData.DedupSnoc | js/skill-data.js:99-100 | `add` of a present element changes nothing; a new one goes at the end |
| SkillData.AddEach | js/skill-data.js:99-100 | one `forEach(s => all.add(s))` loop computes `Dedup` of the elements so far |
| SkillData.CollectSkills | js/skill-data.js:97-102 | the loop over classes computes `Dedup(Flatten(classes))` |
| SkillData.GetAllSkills | js/skill-data.js:96-103 | no duplicates, and a skill is listed exactly when some class offers it, active or passive |
| SkillData.FindClass | js/skill-data.js:107 | `classes[name]`: a class with that name, or none when no class has it |
| SkillData.GetSkillsByClass | js/skill-data.js:106-110 | active then passive of a known class, all skills for an unknown one; every result is among all skills |
| SkillData.ClassNames | js/skill-data.js:113-115 | one name per class, in order |
| SkillData.ClassNamesAreKeys | js/skill-data.js:113-115 | a name is listed exactly when the class lookup finds it |
| SkillData.MatchSkill | js/skill-data.js:134-165 | the cascade over the scoped list (the class's skills when a class is given, all skills otherwise); any result is a known skill |
| RegionSelector.ColorAt | js/region-selector.js:104 | `COLORS[idx]` is defined exactly for 0 <= idx < 8 |
| RegionSelector.DrawnColor | js/region-selector.js:104 | the colour of a drawn region with `len` regions before it: none (JS `undefined`) for the first, `COLORS[(len-1) % 8]` otherwise |
| RegionSelector.FirstDrawnUncoloured | js/region-selector.js:104 | the first region drawn gets no colour; every later one gets one |
| RegionSelector.DrawnColorLagsReload | js/region-selector.js:104 | a reload colours region i as drawing colours the region after it, so drawn colours lag by one slot |
| RegionSelector.NewRegionInside | js/region-selector.js:97-103 | an accepted drag inside the canvas gives normalised coordinates with 0 <= nx, nx + nw <= 1 (likewise y), at least 10 px on each side |
| RegionSelector.NewRegionLabel | js/region-selector.js:99-104 | the new region has the given id, no PSM, the label "영역 " plus the counter, and a colour unless it is the first |
| RegionSelector.Relabelled | js/region-selector.js:140 | only the label of region i changes; an index out of range changes nothing |
| RegionSelector.RecoloredSpec | js/region-selector.js:160 | each region keeps its fields and a truthy colour, otherwise takes `COLORS[i % 8]`; every region ends with a colour |
| RegionSelector.RecoloredIdempotent | js/region-selector.js:160 | recolouring twice is recolouring once |
| RegionSelector.Selector.constructor | js/region-selector.js:4-9 | no regions, counter 0, not drawing, all points at the origin |
| RegionSelector.Selector.StartDraw | js/region-selector.js:76-80 | drawing starts with both points at the pointer; the list is unchanged |
| RegionSelector.Selector.ContinueDraw | js/region-selector.js:82-86 | only the current point moves |
| RegionSelector.Selector.EndDraw | js/region-selector.js:92-108 | a drag under 10 px in either direction leaves list and counter unchanged; an accepted one bumps the counter by one and appends exactly one new region after the old ones |
| RegionSelector.Selector.ChangeLabel | js/region-selector.js:140 | the list becomes `Relabelled`; the counter, the drawing flag and the drag points are unchanged |
| RegionSelector.Selector.Delete | js/region-selector.js:146 | the list becomes `splice(i, 1)` of the old one; the counter and the drag points are unchanged |
| RegionSelector.Selector.ClearAll | js/region-selector.js:152-155 | no regions and counter 0; the drag points are unchanged |
| RegionSelector.Selector.GetRegions | js/region-selector.js:157 | the current list |
| RegionSelector.Selector.SetRegions | js/region-selector.js:159-163 | the recoloured list, with the counter equal to its length; the drag points are unchanged |
| TemplateManager.GetTemplates | js/template-manager.js:19-26 | the stored object, or `{}` when storage is empty or does not parse |
| TemplateManager.Projected | js/template-manager.js:68-76 | one record per region, in order, with every field but `color` |
| TemplateManager.SaveLoadRoundTrip | js/template-manager.js:66-101 | saving then loading gives back every region in order with the same id, label, coordinates and PSM; colours come from the palette by position |
| TemplateManager.CountAccepted | js/template-manager.js:148-154 | the count never exceeds the number of entries |
| TemplateManager.MergeSnoc | js/template-manager.js:150-155 | one more import entry is applied after all earlier ones |
| TemplateManager.MergeLookup | js/template-manager.js:150-155 | after an import, a key holds the value of the last accepted entry with that key, or its old value when none has it |
| TemplateManager.MergeKeepsOthers | js/template-manager.js:150-155 | keys that no accepted entry names keep their value or absence |
| TemplateManager.Store.constructor | js/template-manager.js:19-26 | the slot holds the initial contents |
| TemplateManager.Store.Save | js/template-manager.js:50-85 | no regions, a cancelled prompt or a blank name change nothing; an existing name with a declined confirm changes nothing; otherwise the trimmed name maps to the projected regions and every other key is kept |
| TemplateManager.Store.Load | js/template-manager.js:87-103 | a known name whose regions are an array hands them to the region list (recoloured, counter = length); otherwise nothing changes; the storage slot and the drag points are never changed |
| TemplateManager.Store.Delete | js/template-manager.js:105-119 | with a selection and a confirm, only that key is removed; otherwise nothing changes |
| TemplateManager.Store.Import | js/template-manager.js:139-166 | a file that does not parse, or a `null` entry, changes nothing; otherwise accepted entries are merged in order and the count is the number accepted |
| ResultTable.Labels | js/result-table.js:14-15 | the region labels of the results, in order |
| ResultTable.ExtendSpec | js/result-table.js:14-17 | old columns are kept first and in order; each label is added once and only if unseen; no column is duplicated |
| ResultTable.ExtendFirstSeenOrder | js/result-table.js:14-17 | new columns appear in the order their labels are first seen |
| ResultTable.FillSnoc | js/result-table.js:18 | one more result sets its label's cell to its text |
| ResultTable.FillLookup | js/result-table.js:18 | a cell holds the text of the last result with that label; other keys keep their values |
| ResultTable.LastTextSome | js/result-table.js:14-18 | some result sets a cell exactly when its label is among the results' labels |
| ResultTable.RowOfSpec | js/result-table.js:12-19 | the new row has "소스" and each label; each label holds its last text; "소스" holds the file name unless a region is labelled "소스" |
| ResultTable.EscapeAttr | js/result-table.js:81-83 | the output contains no `"` and no `'` |
| ResultTable.QuoteFreeUnchanged | js/result-table.js:81-83 | text without quotes is left unchanged |
| ResultTable.EscapeAttrLosesName | js/result-table.js:81-83 | as written: the column name "&quot;" is left as is and reads back as `"` |
| ResultTable.EscapeAttrStrict | js/result-table.js:81-83 | escaping `&` too: still no `"` and no `'` in the output |
| ResultTable.EscapeAttrStrictRoundTrip | js/result-table.js:81-83 | with `&` escaped, decoding the attribute gives every column name back |
| ResultTable.Table.constructor | js/result-table.js:4-5 | columns ["소스"], no rows |
| ResultTable.Table.AddResults | js/result-table.js:11-24 | columns are extended by the unseen labels, and exactly one row is appended: the new row |
| ResultTable.Table.DeleteRow | js/result-table.js:47-55 | rows become `splice(ri, 1)` of the old rows; columns are unchanged |
| ResultTable.Table.EditCell | js/result-table.js:58-62 | only cell `col` of row `ri` changes; an index out of range changes nothing |
| ResultTable.Table.Clear | js/result-table.js:64-69 | columns ["소스"], no rows |
| ResultTable.Table.GetData | js/result-table.js:71-73 | the current columns and rows |
| ExportManager.DoubleQuotesLength | js/export-manager.js:18 | doubling adds exactly one character per `"` |
| ExportManager.Quote | js/export-manager.js:18 | every field is wrapped in double quotes |
| ExportManager.Quoted | js/export-manager.js:18 | each field is quoted, in order |
| ExportManager.Cells | js/export-manager.js:20 | one cell per column, with the empty text for a missing cell |
| ExportManager.Records | js/export-manager.js:17-22 | the header record, then one record per row |
| ExportManager.Lines | js/export-manager.js:17-22 | one quoted, comma-joined line per record |
| ExportManager.QuoteRead | js/export-manager.js:18 | reading a quoted field back (section 2, rules 6-7 of RFC 4180) gives the original text |
| ExportManager.UnquoteDoubled | js/export-manager.js:20 | undoubling the quotes of a doubled text recovers it |
| ExportManager.CsvLineRead | js/export-manager.js:18-20 | reading a line back gives exactly its fields |
| ExportManager.LinesRead | js/export-manager.js:24 | reading the `\n`-joined lines gives back every record |
| ExportManager.ExportRoundTrip | js/export-manager.js:10-29 | CSV text exists exactly when there are rows; it starts with U+FEFF; reading the rest back gives the header and one record per row, with columns.length fields each |
| ExportManager.QuotedLine | js/export-manager.js:18-20 | every line starts and ends with a double quote |
| OcrEngine.PsmOf | js/ocr-engine.js:100 | `parseInt(psm)` or else 6: a missing, non-numeric or zero mode gives 6, any other number is used as is, and the mode is never 0 |
| OcrEngine.PsmOfDecimal | js/ocr-engine.js:100 | a mode written as decimal text is used, unless it is 0 |
| OcrEngine.ResultTextFacts | js/ocr-engine.js:107-120 | a failed region gets "[인식 실패]"; a recognised text is trimmed, with its non-space characters unchanged |
| OcrEngine.Results | js/ocr-engine.js:90-121 | no results if any region cannot be configured; otherwise one result per region, in order, with id and label copied and the region's text |
| OcrEngine.RecognizeAll | js/ocr-engine.js:90-121 | the per-region loop computes `Results` |
| OcrEngine.Scale | js/ocr-engine.js:50 | `max(1, ceil(300 / height))` is at least 1; a height of 0 gives no factor (`Infinity`) |
| OcrEngine.ScaleBounds | js/ocr-engine.js:50-52 | the factor never shrinks; a region of at most 300 px is brought to at least 300 px, and one step less falls short; taller regions keep factor 1 |
| OcrEngine.SourceRectClose | js/ocr-engine.js:44-47 | each rounded pixel coordinate is within half a pixel of the exact one |
| OcrEngine.Engine.constructor | js/ocr-engine.js:4-6 | no worker, not initialised, not busy |
| OcrEngine.Engine.InitWorker | js/ocr-engine.js:8-38 | a ready worker returns at once and no new one is created; otherwise at most one worker is created, and it is marked ready only if set up and configured |
| OcrEngine.Engine.RecognizeImage | js/ocr-engine.js:72-138 | while busy: null and no state change; no regions: null and not busy; otherwise never busy afterwards; a ready worker is reused and no worker is created; without one, a worker is created exactly when set-up succeeds and is ready exactly when also configured; the result is `Results` when the worker is ready, null otherwise |
| OcrEngine.Engine.GetIsProcessing | js/ocr-engine.js:140-142 | the busy flag |
| ImageManager.Crop | js/image-manager.js:72-74 | cropX + cropW equals the image width |
| ImageManager.CropInside | js/image-manager.js:72-78 | with ratios in [0, 1] the rectangle lies inside the image; cropBottom 0 keeps the full height; cropRight 0 keeps nothing of the width, 1 keeps all of it |
| ImageManager.PyRound | run-test.py:32 | Python's `round`: within one half of the argument, a half goes to the even neighbour, and away from halves it agrees with `Math.round` |
| ImageManager.PyCrop | run-test.py:30-32 | the crop box starts at the top left corner |
| ImageManager.PyCropKeepsLeft | run-test.py:30-32 | `crop_image` keeps the left part from x = 0 to the integer nearest to 67% of the width, over the full height |
| ImageManager.PyCropHalf | run-test.py:32 | `w·0.67` is exactly a half only for widths 50 more than a multiple of 100 |
| ImageManager.PyCropAgainstJs | run-test.py:30-32 | for every other width the Python box ends where `cropImage`'s rectangle with the same ratios starts, and both keep the full height: Python reads columns [0, x), the browser [x, width) |
| ImageManager.Kept | js/image-manager.js:72-74 | `round(n·(1 - ratio))` lies in [0, n]: n for ratio 0, and 0 for ratio 1 |
| ImageManager.SliderRatioDecimal | js/image-manager.js:49 | a slider value written in decimal becomes that many hundredths |
| ImageManager.Without | js/image-manager.js:198 | `filter(i => i.id !== id)`: no kept image has the id; every other image is kept |
| ImageManager.WithoutAppend | js/image-manager.js:198 | filtering distributes over concatenation, so the kept images keep their order |
| ImageManager.WithoutKeepsId | js/image-manager.js:198 | an image with a different id survives the removal |
| ImageManager.WithoutAbsent | js/image-manager.js:198 | removing an id no image has changes nothing |
| ImageManager.WithoutIdempotent | js/image-manager.js:198 | removing twice is removing once |
| ImageManager.Find | js/image-manager.js:176 | `find`: an image with that id exactly when one exists, and it is the first image in the list with that id |
| ImageManager.Manager.constructor | js/image-manager.js:4-8 | nothing selected, cropRight 0.33, cropBottom 0 |
| ImageManager.Manager.SelectImage | js/image-manager.js:175-179 | an unknown id leaves the selection unchanged; a known one becomes selected; the list is unchanged |
| ImageManager.Manager.RemoveImage | js/image-manager.js:197-208 | every image with the id is removed; a removed selection moves to the first image left, or to none if the list is empty; any other selection is kept and stays valid |
| ImageManager.Manager.GetSelected | js/image-manager.js:211-213 | the selected image, or none when nothing is selected |
| ImageManager.Manager.SetCropRight | js/image-manager.js:49 | cropRight becomes parseInt(value) / 100; nothing else changes |
| ImageManager.Manager.SetCropBottom | js/image-manager.js:62 | cropBottom becomes parseInt(value) / 100; nothing else changes |
| ImageManager.Manager.CropImage | js/image-manager.js:70-84 | the crop rectangle under the current ratios |

## Left out

- Tesseract is not modelled. The worker set-up and each region's recognition are oracle parameters: `created`, `configured` and one `Outcome` per region. Progress callbacks, canvas drawing and the grayscale and contrast pixel loop are left out as well (`js/ocr-engine.js:11-29`, `54-67`, `93-97`, `124-128`).
- `run-test.py`'s `preprocess_image`, `run_ocr` and `main` are left out. They are pixel processing, OCR calls and file I/O. The image itself is left out of `crop_image` as well: only its box is modelled.
- ImageManager.PyCrop: computes `w * (1 - 0.33)` on exact reals, not on binary floating point. At widths 50 more than a multiple of 100 the two can round differently, so `PyCropAgainstJs` excludes those widths.
- `js/app.js` is not part of this model. It is wiring only.
- All DOM rendering, event binding and `escapeHtml` are left out, because they are DOM work. This covers `redraw`, `renderRegionList`, `render`, `refreshSelect` and `renderThumbnails`.
- `localStorage`, `Blob` and `URL` downloads, `FileReader`, `exportExcel`, `exportJSON` and `exportTemplate` are left out. They are I/O. The storage slot and the parsed JSON are parameters or fields instead.
- Ids from `Date.now()` and `Math.random()`, the `prompt`/`confirm` answers and the clock become parameters.
- `\s` is the whitespace shared by Python and JavaScript. The model does not capture where they differ, U+FEFF, U+001C to U+001F and U+0085. `\d` is ASCII digits only, while Python also accepts other Unicode decimal digits.
- JSON fidelity is not modelled. Records are Dafny datatypes, so prototype keys such as `__proto__` and non-object `JSON.parse` results are out of scope. A parsed file is a list of entries or nothing, and a `null` entry is the only one that aborts an import.
- A `setTemplates` failure when storage is full is not modelled. Storage is always written.
- `Text.ParseInt` covers decimal and `0x` hexadecimal text. It does not cover `parseInt`'s other radix behaviour or Unicode whitespace beyond `\s`.
- Strings are sequences of code points. JavaScript strings are UTF-16 code units, so for text outside the Basic Multilingual Plane the lengths, edit distances and the `2·d <= max(len)` test of `js/skill-data.js:118-162` can differ from the model. Python strings are code points, as in the model.
- Numbers are unbounded integers and exact reals. Floating-point error in `nx`..`nh`, in `parseInt(value) / 100` and in `Math.round` is not modelled.
- RegionSelector.Selector.EndDraw: requires a positive canvas size. A canvas of width or height 0 would divide by zero and give `Infinity` or `NaN` in JS, which reals cannot express.
- ImageManager.Manager.SetCropRight: requires a slider value that `parseInt` reads. A range input always holds a number, and `NaN` cannot be expressed.
- ImageManager.Manager.SetCropBottom: requires a slider value that `parseInt` reads, for the same reason.
- OcrEngine.Scale: a region of height 0 gives `None` where JS computes `Infinity`. The canvas sizes that would follow are not modelled.
- ResultTable.Table.DeleteRow and ResultTable.Table.EditCell: the row index comes from the rendered `data-row` attribute, as an integer. A non-numeric attribute (`NaN`) cannot occur through the page and is not modelled.
- SkillData.GetSkillsByClass: a class name that is a key inherited from `Object.prototype` is treated as an unknown class. Examples are `constructor`, `toString` and `__proto__`. In JS, `classes[className]` is truthy for these names (`js/skill-data.js:107`). Spreading its missing `active` list then throws a `TypeError` (`js/skill-data.js:109`). The model returns `getAllSkills()` instead. No caller in the source passes a class name.
- SkillData.FindClass: looks only at the dictionary's own classes. It answers `None` for keys inherited from `Object.prototype`, where the JS lookup finds a truthy non-class object.
- SkillData.MatchSkill: for a class name inherited from `Object.prototype` it runs the cascade over all skills. In JS, the `getSkillsByClass` call throws for such a name.
- OcrEngine.Engine.RecognizeImage: every call runs to completion before the next one starts. JS suspends `recognizeImage` at each `await` (`js/ocr-engine.js:86`, `101`, `108`), so a second call can start while `isProcessing` is still set. The model represents that overlap by entering a call with `isProcessing` already true. That call then gets the busy answer and leaves the state unchanged. No method returns with the flag set, so the model does not capture the interleaving of two calls in flight.

## Findings

| source | as written | input that shows it | evidently intended | confidence | as-written member | corrected member |
|---|---|---|---|---|---|---|
| run-test.py:140 | the free-standing level pattern consumes the whitespace after the digits, so the next level cannot use it as its leading whitespace | `"+1 +2"` gives only `["+1"]` | every free-standing `+N` is collected: `["+1", "+2"]` (a lookahead for the trailing whitespace) | not executed | RawSearch.AdjacentLevelsConsuming | RawSearch.PlusLevelsComplete |
| js/result-table.js:81-83 | `escapeAttr` escapes `"` and `'` but not `&`, so an existing character reference survives into the attribute | a region labelled `&quot;` becomes a `data-col` that reads back as `"`, and `onCellEdit` writes to the wrong column | escape `&` first, so every label reads back unchanged | not executed | ResultTable.EscapeAttrLosesName | ResultTable.EscapeAttrStrictRoundTrip |

`RawSearch.CollectLevels`, and through it `FullText.ParseFullText`, follow the free-standing pattern as written (`RawSearch.PlusLevelsConsuming`). The corrected pattern, `RawSearch.PlusLevels`, is modelled beside it with its completeness lemma `RawSearch.PlusLevelsComplete`. `ResultTable` keeps `escapeAttr` as written, because the attribute is only rendered and never feeds the rest of the model.
