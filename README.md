# Quran recitation checker: a Dafny model of its analysis core

The application listens to a student reciting a page of the Quran and judges the recitation word by word. Its core has four parts, and this project models each of them.

- **The Tajweed engine.** It exists twice: once in the mobile app (`tajweed.ts`) and once in the backend (`tajweed_engine.py`). It detects the pronunciation rules a written word calls for: Qalqalah, Noon Sakinah and Tanween, Meem Sakinah, Ghunnah Mushaddada and Madd. It then judges each rule at one of three difficulty levels.
- **The Quran-text helpers** (`quran.ts`, `quran.py`). They normalise Arabic text, build the text and the words of a page, and cache fetched pages.
- **The backend routes.**
  - The expert analysis (`analysis.py`): word alignment from a sequence matcher's opcodes, per-word scoring and the page score.
  - The quick validation tiers.
  - The user routes (`users.py`): daily streak, progress upsert and account deletion.
  - The page-image route (`pages.py`).
  - The auto-updater (`updater.py`): version comparison, update plan and download status.
- **The legacy single-file server's validation route** (`backend_server.py`). It has its own normaliser, a windowed fuzzy alignment, missing-passage grouping and verdict tiers.
- **The app's local database** (`db.ts`): progress per page, history per timestamp, and settings.

## How it is modelled

- Pure code becomes functions with named results and lemmas: the classifiers, normalisers and tiers.
- Code that loops or updates state becomes methods. Each method is proved equal to a specification function, and the source's promises are proved as lemmas about that function. This covers the detectors, the Levenshtein table, the alignment and scoring loops, the best-match window, the passage grouping and the download steps.
- Objects updated in place are classes with `modifies` clauses: the page cache, the local database, the user account and progress tables, and the updater state.

The two engines share one specification of the detectors (`rules.dfy`). The TypeScript detector methods and the Python ones are each proved equal to the same scan function. So the app and the backend detect the same rules, and `TajweedPy.AgreesWithAppWithoutAudio` shows they also judge them alike when there is no audio.

Several things the code calls but cannot be seen from it are parameters:

- difflib's `SequenceMatcher` ratio and opcodes;
- Python's Unicode classes `\w` and `\d`;
- the acoustic checks;
- the transcription and the AI coach;
- the clock;
- HTTP outcomes;
- whether a file exists.

Strings are sequences of Unicode code points.

| file | module | models |
|---|---|---|
| wrappers.dfy | Wrappers | Option / Result |
| text.dfy | Text | character deletion and substitution, trim, whitespace collapse, split and join |
| pyint.dfy | PyInt | Python `int()`, `str()`, `zfill`, `split` on one character |
| arabic.dfy | Arabic | the diacritic set, the letter groups, the first base letter |
| rules.dfy | TajweedRules | the shared detector specification and the rule classifications |
| levenshtein.dfy | Levenshtein | the edit distance the similarity table holds |
| quran_ts.dfy | QuranTs | `mobile-pwa/src/lib/quran.ts` |
| quran_py.dfy | QuranPy | `backend/app/services/quran.py` |
| tajweed_ts.dfy | TajweedTs | `mobile-pwa/src/lib/tajweed.ts` |
| tajweed_py.dfy | TajweedPy | `backend/app/services/tajweed_engine.py` |
| analysis_api.dfy | AnalysisApi | `backend/app/api/v1/analysis.py` |
| legacy_server.dfy | LegacyServer | the validation route of `backend_server.py` |
| users.dfy | Users | `backend/app/api/v1/users.py` and the same streak rule in `backend_server.py` |
| local_db.dfy | LocalDb | `mobile-pwa/src/lib/db.ts` |
| updater.dfy | Updater | `backend/app/services/updater.py` |
| pages.dfy | Pages | `backend/app/api/v1/pages.py` |

## Model

| member | source | states |
|---|---|---|
| TajweedTs.DetectQalqalah | mobile-pwa/src/lib/tajweed.ts:50-78 | the loop emits, in order, the Qalqalah rule of each position where the Qalqalah scan fires |
| TajweedTs.DetectNoonSakinah | mobile-pwa/src/lib/tajweed.ts:91-120 | the loop emits the Noon Sakinah rules in scan order, then one Tanween rule when a tanween mark occurs |
| TajweedTs.DetectMeemSakinah | mobile-pwa/src/lib/tajweed.ts:130-147 | the loop emits, in order, a Meem Sakinah rule for each م directly followed by Sukoon |
| TajweedTs.DetectGhunnah | mobile-pwa/src/lib/tajweed.ts:149-174 | the loop emits, in order, the Ghunnah rule of each ن or م whose diacritic run holds a Shadda |
| TajweedTs.DetectMadd | mobile-pwa/src/lib/tajweed.ts:176-212 | the loop from index 1 emits, in order, the Madd rule of each prolongation letter after its vowel sign |
| TajweedTs.SimilarityBounds | mobile-pwa/src/lib/tajweed.ts:215-231 | the similarity lies in [0, 1], is symmetric, is 1 exactly for equal strings and 0 when exactly one is empty |
| TajweedTs.RatioInUnit | mobile-pwa/src/lib/tajweed.ts:230 | 1 - distance / longer length lies in [0, 1] and is 1 exactly at distance 0 |
| TajweedTs.Similarity | mobile-pwa/src/lib/tajweed.ts:215-231 | filling the table row by row yields 1 - edit distance / longer length, 1 for two empty strings and 0 when exactly one is empty |
| TajweedTs.FillRow | mobile-pwa/src/lib/tajweed.ts:223-228 | the inner loop fills row i with the edit distances of the prefixes, given the rows before it |
| TajweedTs.Config | mobile-pwa/src/lib/tajweed.ts:235-239 | Tajweed is enforced exactly from level 2, thresholds lie strictly in (0, 1), and level 1 asks for 0.15 |
| TajweedTs.ThresholdIncreases | mobile-pwa/src/lib/tajweed.ts:235-239 | a stricter level asks for a strictly higher similarity |
| TajweedTs.RoundThousandthsClose | mobile-pwa/src/lib/tajweed.ts:286 | rounding to the thousandth moves a value by at most half a thousandth and keeps [0, 1] |
| TajweedTs.Judge | mobile-pwa/src/lib/tajweed.ts:265-279 | a rule is correct with confidence 0.6 and its success message exactly when the word was pronounced, else absent with 0 and its missing message |
| TajweedTs.NormalizedSimilarity | mobile-pwa/src/lib/tajweed.ts:249-251 | the similarity of the two normalised words |
| TajweedTs.DetectRules | mobile-pwa/src/lib/tajweed.ts:257-263 | the five detectors' rules in order, Madd only at level 3 |
| TajweedTs.JudgeAll | mobile-pwa/src/lib/tajweed.ts:265-279 | one result per checked rule |
| TajweedTs.JudgeRules | mobile-pwa/src/lib/tajweed.ts:265-279 | the rule loop judges every rule by pronunciation and invalidates the word exactly at level 3 when some rule is absent |
| TajweedTs.AnalyzeWord | mobile-pwa/src/lib/tajweed.ts:241-289 | analyzeWord returns the word analysis built from the normalised similarity, the level's threshold and the judged rules |
| TajweedTs.WordValidity | mobile-pwa/src/lib/tajweed.ts:252-270 | a word is valid exactly when its similarity reaches the level's threshold and it is not an unpronounced level-3 word with some rule |
| TajweedTs.AbsentExactlyWhenSilent | mobile-pwa/src/lib/tajweed.ts:267-275 | some rule is absent exactly when there is a rule and the word was not pronounced |
| TajweedTs.WordRules | mobile-pwa/src/lib/tajweed.ts:256-279 | no rule at level 1, no Madd rule at level 2, one result per detected rule, each correct exactly when the word was pronounced |
| TajweedTs.WordConfidence | mobile-pwa/src/lib/tajweed.ts:286 | the confidence lies in [0, 1] and within half a thousandth of the similarity |
| TajweedTs.PageAnalyses | mobile-pwa/src/lib/tajweed.ts:291-304 | one analysis per word of the range |
| TajweedTs.PageAnalysesAt | mobile-pwa/src/lib/tajweed.ts:296-302 | analysis i is the analysis of expected word i with transcription i (or '') and the following expected word |
| TajweedTs.Appended | mobile-pwa/src/lib/tajweed.ts:296 | the mapped list has one entry per index |
| TajweedTs.AppendedAt | mobile-pwa/src/lib/tajweed.ts:296 | entry i of the mapped list is the image of i |
| TajweedTs.AnalyzePage | mobile-pwa/src/lib/tajweed.ts:291-304 | one analysis per expected word, paired by position, and no other |
| TajweedTs.CountValid | mobile-pwa/src/lib/tajweed.ts:308 | the valid count is at most the number of analyses and equals it exactly when all are valid |
| TajweedTs.ComputeScore | mobile-pwa/src/lib/tajweed.ts:306-310 | the score lies in [0, 1] and is 1 exactly when the page is non-empty and every word is valid |
| TajweedPy.DetectQalqalah | backend/app/services/tajweed_engine.py:57-93 | the loop emits, in order, the Qalqalah rule of each position where the Qalqalah scan fires |
| TajweedPy.DetectNoonSakinah | backend/app/services/tajweed_engine.py:114-145 | the loop emits the Noon Sakinah rules in scan order, then one Tanween rule when a tanween mark occurs |
| TajweedPy.DetectMeemSakinah | backend/app/services/tajweed_engine.py:160-176 | the loop emits, in order, a Meem Sakinah rule for each م directly followed by Sukoon |
| TajweedPy.DetectGhunnahMushaddada | backend/app/services/tajweed_engine.py:179-208 | the loop emits, in order, the Ghunnah rule of each ن or م whose diacritic run holds a Shadda |
| TajweedPy.DetectMadd | backend/app/services/tajweed_engine.py:211-265 | the loop from index 1 emits, in order, the Madd rule of each prolongation letter after its vowel sign |
| TajweedPy.GetRulesForWord | backend/app/services/tajweed_engine.py:363-376 | the four detectors' rules in order, then the Madd rules from level 3 on |
| TajweedPy.CheckRuleAudio | backend/app/services/tajweed_engine.py:403-437 | a rule no acoustic check covers answers the neutral (True, 0.60) |
| TajweedPy.CheckRule | backend/app/services/tajweed_engine.py:379-400 | an empty student word gives (False, 0.0); without audio (True, 0.60); with audio the acoustic dispatch decides |
| TajweedPy.DetectedRulesAreChecked | backend/app/services/tajweed_engine.py:427-434 | every rule the detectors produce is covered by an acoustic check |
| TajweedPy.LevelConfigOf | backend/app/services/tajweed_engine.py:287-318 | Tajweed is enforced exactly at levels 2 and 3, any other level getting the level-1 settings; thresholds lie in (0, 1) |
| TajweedPy.SameLevelSettings | backend/app/services/tajweed_engine.py:287-291 | the three levels have the same threshold and enforcement as the mobile app's |
| TajweedPy.RoundHalfEven3Close | backend/app/services/tajweed_engine.py:358 | rounding to the thousandth moves a value by at most half a thousandth and keeps [0, 1] |
| TajweedPy.RoundingsDifferAtHalves | backend/app/services/tajweed_engine.py:358 | an exact half rounds to even here (0.0025 to 0.002) where the app rounds up (to 0.003) |
| TajweedPy.ResultOf | backend/app/services/tajweed_engine.py:345-354 | a rule result carries the rule, subtype and check confidence, is correct exactly when the check succeeded, with the matching message |
| TajweedPy.CheckAll | backend/app/services/tajweed_engine.py:336-354 | one result per checked rule |
| TajweedPy.CheckRules | backend/app/services/tajweed_engine.py:336-354 | the rule loop checks every rule and invalidates the word exactly at level 3 when some rule is absent |
| TajweedPy.AnalyzeWord | backend/app/services/tajweed_engine.py:294-360 | analyze_word returns the verdict built from the similarity, the level's threshold and the checked rules |
| TajweedPy.AnyAbsentAppend | backend/app/services/tajweed_engine.py:342-343 | after one more result some rule is absent exactly when one was before or the new one is |
| TajweedPy.UnpronouncedWord | backend/app/services/tajweed_engine.py:322-328 | an unpronounced word is invalid with confidence 0, and each checked rule is absent with confidence 0 |
| TajweedPy.MemorisationLevel | backend/app/services/tajweed_engine.py:318-333 | a level other than 2 or 3 checks no rule and accepts exactly the words at least 15% similar |
| TajweedPy.RulesInvalidateOnlyAtLevel3 | backend/app/services/tajweed_engine.py:328-343 | at level 3 a word is valid exactly when it reaches 0.80 and every check succeeds; at level 2 exactly when it reaches 0.50 |
| TajweedPy.AgreesWithAppWithoutAudio | backend/app/services/tajweed_engine.py:333-354 | without audio the backend checks the same rules as the app and judges them the same way |
| TajweedRules.ClassifyNoonByGroup | mobile-pwa/src/lib/tajweed.ts:80-89 | no next word or no base letter gives Izhar; Iqlab, either Idgham and Izhar exactly for their letter groups; Ikhfa otherwise |
| TajweedRules.ClassifyMeemByLetter | mobile-pwa/src/lib/tajweed.ts:122-128 | Idgham Shafawi exactly before م, Ikhfa Shafawi exactly before ب, Izhar Shafawi otherwise |
| TajweedRules.MaddAt | mobile-pwa/src/lib/tajweed.ts:181-209 | one pass of the Madd loop emits exactly the Madd rule at that position, if any |
| TajweedRules.MaddTypeAt | mobile-pwa/src/lib/tajweed.ts:191-201 | the hamza filter and the branches compute the Madd kind of the position |
| TajweedRules.ClassifyMaddByHamza | mobile-pwa/src/lib/tajweed.ts:191-201 | Muttasil exactly when a hamza letter follows in the word; Munfasil exactly when none does and the next word starts with one; Tabii otherwise |
| TajweedRules.RunEnd | mobile-pwa/src/lib/tajweed.ts:59-63 | the diacritic scan stops at the first non-diacritic or the end, and everything it passes is a diacritic |
| TajweedRules.RunHas | mobile-pwa/src/lib/tajweed.ts:59-63 | the scan's flag is set exactly when the mark occurs in the run |
| TajweedRules.RunAfterLetter | mobile-pwa/src/lib/tajweed.ts:58-64 | the scan after a letter finds a mark exactly when the letter carries it, and reaches the end exactly when no base letter follows |
| TajweedRules.MaddScanStep | mobile-pwa/src/lib/tajweed.ts:180-210 | one more position of the Madd scan appends exactly that position's rule, if any |
| TajweedRules.Firing | mobile-pwa/src/lib/tajweed.ts:54-77 | the positions where a detector fires, increasing, each below the bound, and all of them |
| TajweedRules.ScanByPosition | mobile-pwa/src/lib/tajweed.ts:54-77 | the k-th rule a detector emits is the rule of the k-th position where it fires |
| TajweedRules.ScanFiringLength | mobile-pwa/src/lib/tajweed.ts:54-77 | a detector emits exactly one rule per firing position |
| TajweedRules.ScanAt | mobile-pwa/src/lib/tajweed.ts:54-77 | rule k of a scan is the rule of the k-th firing position |
| TajweedRules.QalqalahAt | mobile-pwa/src/lib/tajweed.ts:54-76 | Qalqalah fires exactly on a letter of ق ط ب ج د with Sukoon (Sughra) or with no letter after it (Kubra), Sukoon winning |
| TajweedRules.GhunnahAt | mobile-pwa/src/lib/tajweed.ts:153-172 | Ghunnah Mushaddada fires exactly on ن or م marked with Shadda, named after the letter |
| TajweedRules.NextWordOnlyClassifies | mobile-pwa/src/lib/tajweed.ts:50-212 | the next word never changes where a detector fires, and does not change the Qalqalah or Ghunnah rules at all |
| TajweedRules.NoonAndTanweenShape | mobile-pwa/src/lib/tajweed.ts:91-120 | all rules carry the same classification, all but the last are Noon Sakinah, and the last is Tanween exactly when a tanween mark occurs |
| TajweedRules.ScanRulesAre | mobile-pwa/src/lib/tajweed.ts:50-212 | every rule a detector emits is of that detector's kind |
| TajweedRules.MaddOnlyFromLevel3 | backend/app/services/tajweed_engine.py:363-376 | below level 3 no Madd rule is gathered; from level 3 on the Madd rules come last, in scan order |
| Arabic.NoonGroupsDisjoint | mobile-pwa/src/lib/tajweed.ts:27-32 | the throat, Iqlab and both Idgham letter groups are pairwise disjoint |
| Arabic.FirstLetterIndex | mobile-pwa/src/lib/tajweed.ts:41-46 | the index of the first code point that is not a diacritic, everything before it being one |
| Arabic.FirstLetter | mobile-pwa/src/lib/tajweed.ts:41-46 | the first letter is absent exactly when every code point is a diacritic, and otherwise is a non-diacritic of the word |
| Arabic.FirstLetterSkipsMarks | mobile-pwa/src/lib/tajweed.ts:41-46 | leading diacritics do not change the first letter |
| Levenshtein.Min3 | mobile-pwa/src/lib/tajweed.ts:227 | the minimum of three is one of them and at most each |
| Levenshtein.DistBounds | mobile-pwa/src/lib/tajweed.ts:218-230 | the edit distance of two prefixes is at most the longer length and at least the difference of lengths |
| Levenshtein.DistZeroIffEqual | mobile-pwa/src/lib/tajweed.ts:218-230 | the edit distance is 0 exactly for equal prefixes |
| Levenshtein.DistSymmetric | mobile-pwa/src/lib/tajweed.ts:218-230 | the edit distance is symmetric |
| Levenshtein.LevFacts | mobile-pwa/src/lib/tajweed.ts:218-230 | the full edit distance is at most the longer length, 0 exactly for equal strings, and symmetric |
| Text.Remove | backend/app/services/quran.py:22 | deleting the selected characters keeps exactly the unselected characters and never lengthens the text |
| Text.ReplaceChars | backend/app/services/quran.py:24-28 | after a substitution every character is an unselected original or the replacement, and every unselected character survives |
| Text.LeadingRun | backend/app/services/quran.py:34 | the leading whitespace run: whitespace up to it, then a non-space or the end |
| Text.TrailingStart | backend/app/services/quran.py:34 | the trailing whitespace run: whitespace from it, preceded by a non-space or the start |
| Text.Trim | mobile-pwa/src/lib/quran.ts:60 | the trimmed text neither starts nor ends with whitespace and holds only characters of the input |
| Text.TrimUntouched | backend/app/services/quran.py:34 | trimming a text whose ends are not whitespace gives it back |
| Text.TrimKeeps | backend/app/services/quran.py:34 | trimming keeps every non-whitespace character |
| Text.ReplaceNothing | backend/app/services/quran.py:24-28 | a substitution that selects no character of the text leaves it unchanged |
| Text.WordRun | mobile-pwa/src/lib/quran.ts:38 | the first word runs up to the first whitespace character or the end |
| Text.Tokens | mobile-pwa/src/lib/quran.ts:36-40 | every word of the split is non-empty and holds no whitespace |
| Text.ConcatAppend | mobile-pwa/src/lib/quran.ts:36-40 | concatenating two lists of words concatenates their texts |
| Text.RemoveAppend | backend/app/services/quran.py:22 | deleting characters from two joined texts deletes them from each |
| Text.RemoveNothing | backend/app/services/quran.py:22 | deleting from a text with no selected character leaves it unchanged |
| Text.TokensInOrder | backend/app/api/v1/analysis.py:140 | the words of a split, read in order, are exactly the non-whitespace characters of the text |
| Text.JoinChars | mobile-pwa/src/lib/quran.ts:32-34 | every character of a join comes from a word or from the separator |
| Text.TokensOfJoin | mobile-pwa/src/lib/quran.ts:32-40 | splitting a space-joined list of non-empty whitespace-free words gives the words back |
| Text.WordRunOf | mobile-pwa/src/lib/quran.ts:38 | the first word of a whitespace-free word followed by whitespace or nothing is that word |
| Text.WordRunStops | mobile-pwa/src/lib/quran.ts:38 | the first word stops at the first whitespace character |
| Text.TokensAroundSpace | mobile-pwa/src/lib/quran.ts:32-40 | the words of two texts joined by a space are the first's words, then the second's |
| Text.TokensOfJoinedTexts | backend/app/services/quran.py:14 | the words of texts joined by single spaces are the words of each text, in order |
| Text.CollapseSpaces | backend_server.py:782 | every whitespace run becomes one space: no two adjacent spaces, no other whitespace, no new characters, every non-whitespace character kept, empty exactly for the empty text |
| QuranTs.Fold | mobile-pwa/src/lib/quran.ts:47-59 | the deleting and folding steps leave no haraka, alef variant, ؤ, ئ, ة or tatweel, and keep every other character of the input |
| QuranTs.NormalizeArabic | mobile-pwa/src/lib/quran.ts:46-61 | the normalised word holds no folded or deleted character, does not start or end with whitespace, and keeps every other non-whitespace character of the input |
| QuranTs.NormalizeFolds | mobile-pwa/src/lib/quran.ts:50-57 | أ إ آ ٱ become ا, ؤ becomes و, ئ becomes ي, ة becomes ه, and ى is kept as it is |
| QuranTs.FoldedIn | mobile-pwa/src/lib/quran.ts:47-59 | a character that is neither a haraka nor tatweel reaches the folded text in its folded form |
| QuranTs.NormalizeIdempotent | mobile-pwa/src/lib/quran.ts:46-61 | normalising a normalised text changes nothing |
| QuranTs.AyahTexts | mobile-pwa/src/lib/quran.ts:33 | one text per ayah of the page |
| QuranTs.GetPageWords | mobile-pwa/src/lib/quran.ts:36-40 | every page word is non-empty and holds no whitespace |
| QuranTs.PageWordsPerAyah | mobile-pwa/src/lib/quran.ts:32-40 | the page words are the words of each ayah, ayah after ayah, and together they spell the page text without its whitespace |
| QuranTs.PageWordsOfSingleWords | mobile-pwa/src/lib/quran.ts:32-40 | a page whose ayahs are single words gives exactly those words back |
| QuranTs.PageCache.constructor | mobile-pwa/src/lib/quran.ts:7 | the cache starts empty |
| QuranTs.PageCache.FetchQuranPage | mobile-pwa/src/lib/quran.ts:9-30 | a cached page is returned without a request; a failed reply raises "AlQuran API error: <status>" and caches nothing; a successful reply is cached under the page number and returned, with the first ayah's surah name or '' |
| QuranPy.FoldLetters | backend/app/services/quran.py:22-28 | after the first four substitutions no haraka, أ إ آ, ى or ؤ is left, and every other character is kept |
| QuranPy.Substitute | backend/app/services/quran.py:22-33 | after all substitutions only normalised word characters and whitespace are left, and every such character of the input is kept |
| QuranPy.NormalizeArabic | backend/app/services/quran.py:20-34 | the result holds only normalised characters, does not start or end with whitespace, and keeps every normalised non-whitespace character of the input |
| QuranPy.UnfoldedLettersKept | backend/app/services/quran.py:22-33 | ٱ, ئ and ة are not folded by this normaliser and survive whenever \w counts them as word characters |
| QuranPy.NormalizeIdempotent | backend/app/services/quran.py:20-34 | normalising a normalised text changes nothing |
| QuranPy.GetQuranPageText | backend/app/services/quran.py:7-18 | a text exactly on status 200 with ayahs in the body, None on any other status or exception; its words are the words of the ayahs in order |
| AnalysisApi.Paired | backend/app/api/v1/analysis.py:61-69 | pairing count words by position gives exactly count entries |
| AnalysisApi.Unspoken | backend/app/api/v1/analysis.py:89-97 | the words of a range left unspoken give one entry per word of the range |
| AnalysisApi.AlignWords | backend/app/api/v1/analysis.py:32-100 | the opcode loop appends, opcode by opcode in order, the entries of each block and nothing else |
| AnalysisApi.AppendBlock | backend/app/api/v1/analysis.py:60-98 | one pass of the opcode loop appends exactly the block's entries: paired words for equal, paired then unspoken for replace, unspoken for delete, none for insert |
| AnalysisApi.AppendPaired | backend/app/api/v1/analysis.py:62-69 | the zipping loop appends expected[i1+k] with transcribed[j1+k] and its timestamps for each k below the count |
| AnalysisApi.AppendUnspoken | backend/app/api/v1/analysis.py:80-88 | the leftover loop appends each leftover expected word with an empty transcription and zero timestamps |
| AnalysisApi.PairedStep | backend/app/api/v1/analysis.py:72-79 | pairing one more word appends exactly the next pair |
| AnalysisApi.UnspokenStep | backend/app/api/v1/analysis.py:89-97 | one more unspoken word appends exactly its empty entry |
| AnalysisApi.TilesInBounds | backend/app/api/v1/analysis.py:56-60 | opcodes that tile both word lists only index inside them |
| AnalysisApi.StartsBelow | backend/app/api/v1/analysis.py:56-60 | in a tiling, each block's ranges are ordered and start where the previous block ends |
| AnalysisApi.EndsAbove | backend/app/api/v1/analysis.py:56-60 | in a tiling, each block ends inside both lists |
| AnalysisApi.ExpectedColumn | backend/app/api/v1/analysis.py:64 | the expected words of a list of entries, one per entry |
| AnalysisApi.ExpectedColumnAppend | backend/app/api/v1/analysis.py:60-98 | the expected words of appended entries are the two columns concatenated |
| AnalysisApi.BlockCoversRange | backend/app/api/v1/analysis.py:61-97 | a well-shaped block lists the expected words of its range, in order, once each |
| AnalysisApi.AlignmentCoversExpected | backend/app/api/v1/analysis.py:60-98 | with tiling opcodes every expected word appears exactly once in the alignment, in original order |
| AnalysisApi.ColumnOfTiling | backend/app/api/v1/analysis.py:60-98 | the expected column of a tiling's alignment is the whole expected list |
| AnalysisApi.ColumnOfChain | backend/app/api/v1/analysis.py:60-98 | chained blocks ending at the list's end cover the whole expected list |
| AnalysisApi.TilesChained | backend/app/api/v1/analysis.py:56-60 | a tiling chains its expected ranges from 0 |
| AnalysisApi.AlignmentPrefix | backend/app/api/v1/analysis.py:60-98 | after k chained blocks the alignment lists exactly the expected words before the k-th block's end |
| AnalysisApi.PairedEntries | backend/app/api/v1/analysis.py:61-79 | an equal or replace block pairs words by position and copies the transcribed word and both timestamps |
| AnalysisApi.UnpairedEntries | backend/app/api/v1/analysis.py:80-98 | replace leftovers and delete blocks give empty transcriptions with 0.0/0.0 timestamps, and an insert block gives no entry |
| AnalysisApi.NextWordOf | backend/app/api/v1/analysis.py:152-153 | next_word is present exactly when a following entry exists, and is its expected word |
| AnalysisApi.ReportAt | backend/app/api/v1/analysis.py:151-179 | a word's report carries the entry's word and timestamps, and its feedback is empty exactly when the word is valid |
| AnalysisApi.Reports | backend/app/api/v1/analysis.py:151-179 | one report per aligned entry |
| AnalysisApi.ValidCount | backend/app/api/v1/analysis.py:168-169 | the matched count is at most the number of words, and equals it exactly when every word is valid |
| AnalysisApi.ScoreWords | backend/app/api/v1/analysis.py:151-179 | the scoring loop builds the report of every aligned entry, in order, and counts exactly the valid ones |
| AnalysisApi.ScoreEntry | backend/app/api/v1/analysis.py:152-179 | one pass of the scoring loop builds exactly that entry's report |
| AnalysisApi.ValidCountSnoc | backend/app/api/v1/analysis.py:168-169 | appending a report adds one to the matched count exactly when it is valid |
| AnalysisApi.ReportsAt | backend/app/api/v1/analysis.py:151-179 | report i is the report of aligned entry i |
| AnalysisApi.PageReports | backend/app/api/v1/analysis.py:140-179 | with tiling opcodes there is exactly one report per expected page word |
| AnalysisApi.ScoreInUnit | backend/app/api/v1/analysis.py:168-181 | the overall score lies in [0, 1] and is 1 exactly when there are words and all are valid |
| AnalysisApi.RatioInUnit | backend/app/api/v1/analysis.py:181 | matched over expected, 0 without expected words, lies in [0, 1] and is 1 exactly when all of at least one word match |
| AnalysisApi.AttemptOf | backend/app/api/v1/analysis.py:136-181 | the try block raises exactly for a missing or empty page text, with 404; otherwise it answers one report per split page word and the share of valid ones |
| AnalysisApi.RunAnalysis | backend/app/api/v1/analysis.py:136-181 | the statements of the try block end as AttemptOf: 404 raised without page text, else the aligned, scored and summarised page |
| AnalysisApi.AnalyzeRecitationAsWritten | backend/app/api/v1/analysis.py:136-220 | the endpoint as written answers 500 for a missing page text, and the analysis otherwise |
| AnalysisApi.AnalyzeRecitation | backend/app/api/v1/analysis.py:136-181 | the endpoint as intended (see Findings): a missing or empty page text answers 404; otherwise the score of the reports of the split page words and those reports |
| AnalysisApi.HandledAsWritten | backend/app/api/v1/analysis.py:218-220 | the catch-all handler turns every raised HTTP error into 500 and passes an answer through |
| AnalysisApi.Handled | backend/app/api/v1/analysis.py:136-138 | an HTTP error keeps its status and an answer passes through |
| AnalysisApi.MissingTextBecomes500 | backend/app/api/v1/analysis.py:136-220 | for a missing or empty page text the endpoint answers 500 as written and 404 as intended; with a page text both answer the same analysis |
| AnalysisApi.Tier | backend/app/api/v1/analysis.py:296-307 | the tiers accept exactly the ratios of at least 0.70 |
| AnalysisApi.ValidateRecitation | backend/app/api/v1/analysis.py:265-307 | a failed transcription, and only that, answers 400; under 3 characters is invalid; a missing page text is accepted |
| AnalysisApi.ValidationThreshold | backend/app/api/v1/analysis.py:275-307 | with a page text, a recitation is valid exactly when its transcription has at least 3 characters and the ratio of the normalised texts reaches 0.70 |
| AnalysisApi.RecordValidation | backend/app/api/v1/analysis.py:321-328 | a valid recitation marks the (user, page) row mastered, stamped with the local clock when the row existed and appended with the UTC default when it did not; an invalid one changes nothing; no other row changes and keys stay unique |
| LegacyServer.FoldLetters | backend_server.py:755-764 | after steps 1 to 5 no Alef variant, ة or ى is left |
| LegacyServer.DropMarks | backend_server.py:765-780 | steps 6 to 11 only delete characters, and leave no tatweel, no Hamza and nothing outside U+0620 to U+064A but whitespace |
| LegacyServer.Clean | backend_server.py:755-780 | the substitutions leave only kept letters and whitespace, keep every kept letter of the input that is not a digit, and turn Alef variants into ا, ة into ه and ى into ي |
| LegacyServer.FoldedIn | backend_server.py:755-764 | a character steps 1 to 5 do not delete reaches their result in folded form |
| LegacyServer.CleanKeeps | backend_server.py:755-780 | every kept letter of a mixed input, and the folded form of each Alef variant, ة and ى, survives the substitutions |
| LegacyServer.NormalizeArabic | backend_server.py:753-783 | the result holds only kept letters and single spaces, with no space at either end and no two spaces in a row; every kept letter of the input that is not a digit survives, and Alef variants, ة and ى appear as ا, ه and ي |
| LegacyServer.TrimSingleSpaces | backend_server.py:782-783 | stripping a text whose only whitespace is single spaces keeps it that way |
| LegacyServer.NormalizeIdempotent | backend_server.py:753-783 | normalising a normalised text changes nothing |
| LegacyServer.CleanUntouched | backend_server.py:755-780 | the substitutions leave a text of kept letters and spaces unchanged |
| LegacyServer.FoldUntouched | backend_server.py:755-764 | steps 1 to 5 leave a text of kept letters and spaces unchanged |
| LegacyServer.DropUntouched | backend_server.py:765-780 | steps 6 to 11 leave a text of kept letters and spaces unchanged |
| LegacyServer.CollapseUntouched | backend_server.py:782 | collapsing a text with no two spaces in a row changes nothing |
| LegacyServer.TrigramScore | backend_server.py:829-833 | the shared-trigram score lies in [0, 1] |
| LegacyServer.WordSimilarity | backend_server.py:816-835 | equal words score 1; exactly one empty word scores 0; a word inside the other scores 0.80 |
| LegacyServer.SimilarityInUnit | backend_server.py:816-835 | with a matcher ratio in [0, 1] the similarity lies in [0, 1] |
| LegacyServer.BestIn | backend_server.py:842-854 | the scan keeps the first index of the highest positive score in the window, or -1 with score 0 when no score is positive |
| LegacyServer.BestMatchFound | backend_server.py:837-858 | a match is found exactly when some word of the window [cursor-5, cursor+40) reaches 0.40 (0.50 for words of at most 2 characters); the match has the best score of the window |
| LegacyServer.FindBestMatchInWindow | backend_server.py:837-858 | the loop returns BestMatch: the best index when its score reaches the minimum, else -1, with the best score |
| LegacyServer.Advance | backend_server.py:865-875 | one step records the word's outcome and never moves the cursor back nor past the student words |
| LegacyServer.Walked | backend_server.py:861-875 | one entry per expected word so far, and the cursor stays within the student words |
| LegacyServer.MatchedCount | backend_server.py:870 | the matched count is at most the number of entries |
| LegacyServer.CursorStep | backend_server.py:873 | one step never moves the cursor back |
| LegacyServer.CursorMonotone | backend_server.py:861-875 | the student cursor never moves back over the walk |
| LegacyServer.WalkedAt | backend_server.py:865-875 | entry i records expected word i, searched around the cursor reached after the first i words |
| LegacyServer.AlignWords | backend_server.py:861-875 | the loop produces the walk of all expected words, with the matched count of its entries |
| LegacyServer.RatioBounds | backend_server.py:879-883 | the ratio lies in [0, 1]; without a penalty it is the coverage; it is 1 exactly when every word matched and the student said at least 80% as many words |
| LegacyServer.Fraction | backend_server.py:881-883 | a / b for 0 <= a <= b lies in [0, 1] and is 1 exactly when a == b |
| LegacyServer.UnmatchedRunEnd | backend_server.py:888-898 | the end of the run of unmatched entries starting at i |
| LegacyServer.WordsOf | backend_server.py:892 | one word per entry |
| LegacyServer.PassagesAreRuns | backend_server.py:888-898 | every missing passage is the text of a maximal unmatched run of at least 3 words |
| LegacyServer.RunsArePassages | backend_server.py:888-898 | every maximal unmatched run of at least 3 words gives a missing passage |
| LegacyServer.GroupMissingPassages | backend_server.py:888-898 | the grouping loop returns Passages: the maximal unmatched runs of 3 or more words, joined by spaces, in order |
| LegacyServer.PassagesAtMatch | backend_server.py:893-896 | a matched entry closes the open run |
| LegacyServer.PassagesAtEnd | backend_server.py:897-898 | a run still open at the end is the last passage |
| LegacyServer.PassageDetails | backend_server.py:918-923 | one passage_manquant entry for each of the first 3 missing passages |
| LegacyServer.TierOf | backend_server.py:907-981 | valid exactly when the ratio reaches 0.45; at 0.75 or more the details are the first three passages |
| LegacyServer.ValidateRecitation | backend_server.py:740-981 | under 5 transcribed characters is invalid; no page text is valid; otherwise the tier of the penalised coverage |
| LegacyServer.ValidityThreshold | backend_server.py:740-981 | valid exactly when the transcription has 5 characters and either no page text was found or the penalised coverage reaches 0.45 |
| Users.StreakAfter | backend/app/api/v1/users.py:18-31 | a first visit starts a streak of 1; a visit the next day adds one; a longer gap restarts at 1; a same-day or earlier visit changes nothing; the date is set to now on a first visit or a forward gap, and left alone otherwise |
| Users.SameDayIdempotent | backend_server.py:528-541 | a second visit on the same day changes nothing (the same rule as users.py:18-31) |
| Users.ConsecutiveDays | backend/app/api/v1/users.py:18-31 | visiting on n consecutive days from a fresh account gives a streak of n, dated on the last day |
| Users.Account.constructor | backend/app/api/v1/users.py:13 | the row holds the given streak and settings |
| Users.Account.ReadUsersMe | backend/app/api/v1/users.py:13-37 | the streak fields become StreakAfter of the old ones and the settings are untouched |
| Users.Account.UpdateSettings | backend/app/api/v1/users.py:71-76 | the mushaf type and difficulty level are overwritten and echoed back; the streak is untouched |
| Users.FirstWithKey | backend/app/api/v1/users.py:56-59 | the index of the first progress row of (user, page), or the table length when there is none |
| Users.UpsertFacts | backend/app/api/v1/users.py:56-66 | the upsert keeps at most one row per (user, page); an existing key gets the new status and update time, a new key is appended with the status and creation time; every row of another key is kept and none added |
| Users.WithoutUser | backend/app/api/v1/users.py:81 | exactly the rows of the other users remain |
| Users.WithoutAccount | backend/app/api/v1/users.py:83 | exactly the users with another id remain |
| Users.ProgressMapPages | backend/app/api/v1/users.py:39-43 | the progress map has a page only when the user has a row for it |
| Users.ProgressMapOfRow | backend/app/api/v1/users.py:39-43 | with one row per key, each of the user's rows appears in the map with its status |
| Users.Database.constructor | backend/app/api/v1/users.py:40-41 | the session holds the given tables |
| Users.Database.UpdateUserProgress | backend/app/api/v1/users.py:45-69 | a missing page or status gives 400 and changes nothing; otherwise the progress table becomes the upsert of the old one stamped with the UTC time, and the users table is unchanged |
| Users.Database.FindRecord | backend/app/api/v1/users.py:56-59 | the query returns the first row of (user, page) |
| Users.Database.DeleteUser | backend/app/api/v1/users.py:78-85 | the user's progress rows and the user are removed, and nothing else |
| Users.Database.AdminDeleteUser | backend/app/api/v1/users.py:92-101 | 404 exactly for an unknown id, changing nothing; otherwise as delete_user |
| Users.FirstWithKeyIs | backend/app/api/v1/users.py:56-59 | an index with the key and none before it is the first one |
| LocalDb.ProgressAfterSave | mobile-pwa/src/lib/db.ts:67-79 | a failing result or a mastered page leaves the progress unchanged; otherwise the page becomes mastered at a score of at least 0.8 and started below it, its recitation count rises by one from 0 or its old count, and no other page changes |
| LocalDb.MasteredSticky | mobile-pwa/src/lib/db.ts:71 | no run of saves takes a mastered page back or changes its record |
| LocalDb.CountNeverDecreases | mobile-pwa/src/lib/db.ts:76 | no run of saves lowers a page's recitation count |
| LocalDb.ByPage | mobile-pwa/src/lib/db.ts:45-47 | indexing the stored records by page gives back the progress store |
| LocalDb.Database.constructor | mobile-pwa/src/lib/db.ts:25-38 | the three stores start empty, each record under its key path |
| LocalDb.Database.GetProgress | mobile-pwa/src/lib/db.ts:42-48 | the map holds every progress record under its page |
| LocalDb.Database.SetPageStatus | mobile-pwa/src/lib/db.ts:50-62 | the page's record is replaced with the new status and time, its count is kept (0 for a new page), and the other stores are unchanged |
| LocalDb.Database.SaveRecitationResult | mobile-pwa/src/lib/db.ts:64-80 | the result is stored under its timestamp and the progress store becomes ProgressAfterSave of the old one |
| LocalDb.Database.GetPageHistory | mobile-pwa/src/lib/db.ts:82-85 | exactly the saved results of the page are returned, under their timestamps |
| LocalDb.Database.GetSetting | mobile-pwa/src/lib/db.ts:87-91 | the stored value, or the default when the key is absent or its value null |
| LocalDb.Database.SetSetting | mobile-pwa/src/lib/db.ts:93-96 | the value is stored under the key and nothing else changes |
| LocalDb.SettingRoundTrip | mobile-pwa/src/lib/db.ts:87-96 | a stored setting reads back as stored, and a null one reads as the default |
| Updater.Components | backend/app/services/updater.py:74 | strip(), lstrip("v") and split(".") give at least one piece |
| Updater.FirstThree | backend/app/services/updater.py:74 | the slice [:3] is the first min(3, n) pieces |
| Updater.ParseAll | backend/app/services/updater.py:74-78 | int() of every piece, in order; None exactly when some piece is not an integer |
| Updater.ParseVersion | backend/app/services/updater.py:73-74 | a version parses to a tuple of one to three integers |
| Updater.TupleLessIrreflexive | backend/app/services/updater.py:76 | no tuple is smaller than itself |
| Updater.TupleLessTransitive | backend/app/services/updater.py:76 | tuple comparison is transitive |
| Updater.TupleLessTotal | backend/app/services/updater.py:76 | two tuples are equal or one is smaller |
| Updater.PrefixIsLess | backend/app/services/updater.py:76 | a proper prefix is the smaller tuple |
| Updater.VersionGtIrreflexive | backend/app/services/updater.py:71-78 | no version is newer than itself |
| Updater.VersionGtStrictOrder | backend/app/services/updater.py:71-78 | newer-than is asymmetric and transitive |
| Updater.VersionGtTotal | backend/app/services/updater.py:71-78 | two versions that parse are equal as tuples or one is newer |
| Updater.ExtraComponentsIgnored | backend/app/services/updater.py:74 | pieces after the third never change a comparison |
| Updater.Decimals | backend/app/services/updater.py:74 | each number written in decimal |
| Updater.ParseDecimals | backend/app/services/updater.py:74 | decimal pieces parse back to their numbers |
| Updater.RenderRoundTrip | backend/app/services/updater.py:73-74 | a written-out version of one to three numbers parses back to them, with or without a leading "v" |
| Updater.RenderComponents | backend/app/services/updater.py:74 | a written-out version splits into its decimal pieces, with or without a leading "v" |
| Updater.RenderedOrder | backend/app/services/updater.py:71-78 | written-out versions compare as their number tuples |
| Updater.ShorterIsOlder | backend/app/services/updater.py:76 | "1.2" is older than "1.2.0": a missing piece is not read as zero |
| Updater.UnparsableNeverNewer | backend/app/services/updater.py:75-78 | a version with a non-integer piece is neither newer nor older than any other |
| Updater.PlanOf | backend/app/services/updater.py:98-151 | no update without a repo, a release, a version.json asset or the manifest; the frontend update needs frontend.zip and the exe update needs QuranBuildingPro.exe among the assets |
| Updater.PlanNeverDowngrades | backend/app/services/updater.py:136-147 | an update is never taken to the same version or to an older one |
| Updater.PlanWhenNewer | backend/app/services/updater.py:126-147 | with a repo and version.json, each update is taken exactly when its remote version (default "0.0.0") is newer than the local one and its own asset is in the release, whatever the other asset |
| Updater.ProgressMonotone | backend/app/services/updater.py:208-215 | the published progress never goes back while chunks arrive |
| Updater.ProgressAtMost100 | backend/app/services/updater.py:214-215 | while no more than the announced length has arrived, the progress is at most 100 |
| Updater.UpdaterState.constructor | backend/app/services/updater.py:30-37 | the status record starts with every flag false, progress 0, no check time and no error |
| Updater.UpdaterState.DownloadFrontendUpdate | backend/app/services/updater.py:154-188 | a success sets frontend_updated; a failure records its message and leaves the flag; nothing else changes |
| Updater.UpdaterState.CheckForUpdates | backend/app/services/updater.py:98-151 | the check time is recorded; the frontend update and the exe download follow PlanOf; a failed request records its message; the exe flags are untouched |
| Updater.UpdaterState.DownloadExeUpdate | backend/app/services/updater.py:191-239 | the download always ends not downloading; a success is ready at 100; a failure records its message, is not ready and keeps the last published progress |
| Pages.PageFileName | backend/app/api/v1/pages.py:17-18 | the image name is "Quran_Page_", then the page plus 2 zero-padded to at least three characters, then ".jpg" |
| Pages.GetQuranPage | backend/app/api/v1/pages.py:8-27 | 404 when the text before the first '.' is not an integer or the computed image is not on disk; otherwise that image is served |
| Pages.PageFileNameRoundTrip | backend/app/api/v1/pages.py:17-18 | the number in an image name reads back as the page plus 2 |
| Pages.PageFileNameInjective | backend/app/api/v1/pages.py:17-18 | no two pages share an image |
| Pages.ExtensionIgnored | backend/app/api/v1/pages.py:14 | an extension after the first '.' does not change the answer ("057.svg" and "057") |
| Pages.PaddedRequest | backend/app/api/v1/pages.py:10-22 | a page number, zero-padded or not, with or without an extension, is served the image of page plus 2 when it is on disk |
| PyInt.Decimal | backend/app/api/v1/pages.py:18 | str(n) of a natural number is a non-empty run of digits whose value is n |
| PyInt.ParseToStr | backend/app/api/v1/pages.py:15-18 | int(str(n)) == n |
| PyInt.ParseDigits | backend/app/api/v1/pages.py:15 | a run of digits reads as its value, with or without a minus sign |
| PyInt.ParseSignedDigits | backend/app/api/v1/pages.py:15 | a signed run of digits reads as its signed value |
| PyInt.ZerosValue | backend/app/api/v1/pages.py:18 | leading zeros do not change the value of a run of digits |
| PyInt.ZFill | backend/app/api/v1/pages.py:18 | zfill pads to the width and never shortens |
| PyInt.ParseZFill | backend/app/api/v1/pages.py:15-18 | int(str(n).zfill(width)) == n |
| PyInt.ZFillShape | backend/app/api/v1/pages.py:18 | zfill on a signed run of digits inserts zeros between the sign and the digits |
| PyInt.SplitOn | backend/app/api/v1/pages.py:14 | split on one character gives at least one piece and no piece holds the separator |
| PyInt.JoinSplitOn | backend/app/api/v1/pages.py:14 | joining the pieces with the separator gives the text back |
| PyInt.SplitOnFirst | backend/app/api/v1/pages.py:14 | text free of the separator splits into itself, and a separator after it starts the next piece |
| PyInt.SplitOnJoin | backend/app/services/updater.py:74 | splitting pieces joined by the separator, none containing it, gives the pieces back |

## Left out

- **Acoustics.** The acoustic checks (`check_qalqalah`, `check_madd_duration`, `check_ghunnah`, `extract_segment`, `estimate_beat_duration`) are floating-point signal processing. They are parameters returning (success, confidence). The audio segment of a word and the beat duration are inputs.
- **difflib.** `SequenceMatcher.ratio()` and `get_opcodes()` come from a library whose code is not part of this model. The ratio is a function parameter. The opcodes are an input, and the coverage lemmas assume they tile both word lists.
- **Floating point.** Python's `round(x, 3)`, `int(x * 100)` and JavaScript's `Math.round` act on binary floats. They are modelled on exact reals:
  - half-even rounding in the backend;
  - half-up rounding in the app.
  So results at representation boundaries are not captured.
- **String units.** The TypeScript similarity measures `.length` in UTF-16 code units, while the detectors iterate code points. The model uses code points throughout. The two agree on Arabic text, which lies in the Basic Multilingual Plane.
- **Transcription and the AI coach.** Whisper and the LLM feedback are external services. The transcription is an input. The coach's text is a parameter, and only the tier that uses it is modelled.
- **Backend plumbing.**
  - FastAPI routing, SQLAlchemy sessions, authentication, uploads and saving the recording file are I/O.
  - The recording row that validation stores (its `int(similarity * 100)` score) is not modelled. The progress update is, with its `last_updated` stamp; the clocks it reads (`datetime.now()` for an existing row, the column's `datetime.utcnow` default for a new one, `datetime.utcnow()` in `update_user_progress`) are parameters.
  - The legacy server's validation route saves its recording and progress rows in its own code (backend_server.py:1022-1049). That save is not part of this model.
  - `get_recording_history` and `delete_recording` in `analysis.py` are not part of this model: they are database and file-system plumbing.
- **Users.** The legacy server's `read_users_me` (backend_server.py:522-541) runs the same streak code as `users.py`, so `Users.StreakAfter` and its lemmas model both. `get_all_users` is a plain query and is not modelled. `get_user_progress` is modelled as the map built from the user's rows, leaving the query itself out.
- **Updater.**
  - `_get_local_versions`, `_get_github_repo` and `_make_request` read files, the environment and the network. Their results are parameters.
  - The background threads, zip extraction, `.bat` writing and `apply_exe_and_shutdown` (which spawns a process and exits) are not modelled.
  - `get_status` only copies the state record, which the class exposes directly.
  - A download that fails part-way is modelled as failing after the chunks read so far.
- **Page fetch.** The HTTP fetch of a page is an outcome given to `QuranTs.PageCache.FetchQuranPage` and `QuranPy.GetQuranPageText`. The app's error for a failed fetch is an `Err` result.
- **Loops moved into helpers.** Several loop bodies are separate methods, each proved against the same specification function as its caller: `TajweedTs.JudgeRules`, `TajweedTs.FillRow`, `TajweedPy.CheckRules`, `TajweedRules.MaddAt`, `TajweedRules.MaddTypeAt`, `AnalysisApi.AppendBlock`, `AnalysisApi.ScoreEntry` and `LocalDb.ByPage`. This does not change what they compute.
- PyInt.Parse: handles ASCII digits, signs, surrounding whitespace and underscores between digits. Non-ASCII Unicode digits, which Python's `int()` also accepts, are read as unparsable.

## Findings

| source | as written | input that shows it | evidently intended | confidence | as-written member | corrected member |
|---|---|---|---|---|---|---|
| backend/app/api/v1/analysis.py:218-220 | the 404 raised for a missing page text is inside the `try` whose `except Exception` answers 500, so it reaches the client as 500 | a page whose text cannot be fetched (`get_quran_page_text` returns None) | answer 404 "Texte Coranique introuvable" | not executed | AnalysisApi.AnalyzeRecitationAsWritten | AnalysisApi.AnalyzeRecitation |
