/**
 * The recitation engine of the mobile app: the five rule detectors, the
 * Levenshtein similarity, the per-level word analysis, the page analysis and
 * the page score. The detectors are proved equal to the scan specification
 * that the backend's detectors are proved equal to as well.
 */
module TajweedTs {
  import opened Text
  import opened Wrappers
  import opened Arabic
  import opened TajweedRules
  import opened Levenshtein
  import QuranTs

  /** detectQalqalah. */
  method DetectQalqalah(word: Str) returns (rules: seq<Rule>)
    ensures rules == Scan(QalqalahScan, word, None, |word|)
  {
    rules := [];
    var chars := word;
    for i := 0 to |chars|
      invariant rules == Scan(QalqalahScan, word, None, i)
    {
      var c := chars[i];
      if !IsQalqalahLetter(c) {
        continue;
      }
      var hasSukoon := false;
      var j := i + 1;
      while j < |chars| && IsDiacritic(chars[j])
        invariant i + 1 <= j <= |chars|
        invariant RunEnd(word, j) == RunEnd(word, i + 1)
        invariant (hasSukoon || RunHas(word, j, Sukoon)) == RunHas(word, i + 1, Sukoon)
      {
        if chars[j] == Sukoon {
          hasSukoon := true;
        }
        j := j + 1;
      }
      var isLastLetter := j >= |chars|;
      if hasSukoon || isLastLetter {
        rules := rules + [QalqalahRule(c, hasSukoon)];
      }
    }
  }

  /** detectNoonSakinah. */
  method DetectNoonSakinah(word: Str, nextWord: Option<Str>) returns (rules: seq<Rule>)
    ensures rules == NoonAndTanween(word, nextWord)
  {
    rules := [];
    var chars := word;
    for i := 0 to |chars|
      invariant rules == Scan(NoonScan, word, nextWord, i)
    {
      if chars[i] == Noon && i + 1 < |chars| && chars[i + 1] == Sukoon {
        var ruleType := ClassifyNoon(nextWord);
        rules := rules + [NoonSakinahRule(ruleType)];
      }
    }
    if exists c :: c in chars && IsTanween(c) {
      var ruleType := ClassifyNoon(nextWord);
      rules := rules + [TanweenRule(ruleType)];
    }
  }

  /** detectMeemSakinah. */
  method DetectMeemSakinah(word: Str, nextWord: Option<Str>) returns (rules: seq<Rule>)
    ensures rules == Scan(MeemScan, word, nextWord, |word|)
  {
    rules := [];
    var chars := word;
    for i := 0 to |chars|
      invariant rules == Scan(MeemScan, word, nextWord, i)
    {
      if chars[i] == Meem && i + 1 < |chars| && chars[i + 1] == Sukoon {
        var ruleType := ClassifyMeem(nextWord);
        rules := rules + [MeemSakinahRule(ruleType)];
      }
    }
  }

  /** detectGhunnah. */
  method DetectGhunnah(word: Str) returns (rules: seq<Rule>)
    ensures rules == Scan(GhunnahScan, word, None, |word|)
  {
    rules := [];
    var chars := word;
    for i := 0 to |chars|
      invariant rules == Scan(GhunnahScan, word, None, i)
    {
      var c := chars[i];
      if c != Noon && c != Meem {
        continue;
      }
      var hasShadda := false;
      var j := i + 1;
      while j < |chars| && IsDiacritic(chars[j])
        invariant i + 1 <= j <= |chars|
        invariant (hasShadda || RunHas(word, j, Shadda)) == RunHas(word, i + 1, Shadda)
      {
        if chars[j] == Shadda {
          hasShadda := true;
        }
        j := j + 1;
      }
      if hasShadda {
        rules := rules + [GhunnahRule(c)];
      }
    }
  }

  /** detectMadd: the scan starts at index 1. */
  method DetectMadd(word: Str, nextWord: Option<Str>) returns (rules: seq<Rule>)
    ensures rules == Scan(MaddScan, word, nextWord, |word|)
  {
    rules := [];
    var chars := word;
    var i := 1;
    while i < |chars|
      invariant 1 <= i
      invariant |chars| == 0 || i <= |chars|
      invariant rules == if |chars| == 0 then [] else Scan(MaddScan, word, nextWord, i)
    {
      var found := MaddAt(chars, nextWord, i);
      MaddScanStep(word, nextWord, i);
      if found.None? {
        i := i + 1;
        continue;
      }
      rules := rules + [found.value];
      i := i + 1;
    }
  }

  /** similarity: 1 for two empty strings, 0 when exactly one is empty, else 1 - distance / longer length. */
  function TextSimilarity(a: Str, b: Str): real {
    if a == [] && b == [] then 1.0
    else if a == [] || b == [] then 0.0
    else 1.0 - (Lev(a, b) as real) / (Max(|a|, |b|) as real)
  }

  /** The similarity lies in [0, 1], is symmetric, and is 1 exactly for equal strings. */
  lemma SimilarityBounds(a: Str, b: Str)
    ensures 0.0 <= TextSimilarity(a, b) <= 1.0
    ensures TextSimilarity(a, b) == TextSimilarity(b, a)
    ensures TextSimilarity(a, b) == 1.0 <==> a == b
    ensures (a == []) != (b == []) ==> TextSimilarity(a, b) == 0.0
  {
    LevFacts(a, b);
    if a != [] && b != [] {
      RatioInUnit(Lev(a, b), Max(|a|, |b|));
    }
  }

  lemma RatioInUnit(d: nat, m: nat)
    requires 0 < m && d <= m
    ensures 0.0 <= 1.0 - (d as real) / (m as real) <= 1.0
    ensures 1.0 - (d as real) / (m as real) == 1.0 <==> d == 0
  {
    var q := (d as real) / (m as real);
    assert q * (m as real) == d as real;
  }

  /** similarity, filling the dynamic-programming table row by row. */
  method Similarity(a: Str, b: Str) returns (r: real)
    ensures r == TextSimilarity(a, b)
  {
    if a == [] && b == [] {
      return 1.0;
    }
    if a == [] || b == [] {
      return 0.0;
    }
    var la, lb := |a|, |b|;
    var dp := new nat[la + 1, lb + 1]((i: nat, j: nat) => if i == 0 then j else if j == 0 then i else 0);
    for i := 1 to la + 1
      invariant forall i', j' :: 0 <= i' < i && 0 <= j' <= lb ==> dp[i', j'] == Dist(a, b, i', j')
      invariant forall i' :: i <= i' <= la ==> dp[i', 0] == i'
    {
      FillRow(dp, a, b, i);
    }
    r := 1.0 - (dp[la, lb] as real) / (Max(la, lb) as real);
  }

  /** The inner loop of similarity: row i of the table from row i - 1. */
  method FillRow(dp: array2<nat>, a: Str, b: Str, i: nat)
    requires dp.Length0 == |a| + 1 && dp.Length1 == |b| + 1
    requires 1 <= i <= |a|
    requires forall i', j' {:trigger dp[i', j']} :: 0 <= i' < i && 0 <= j' <= |b| ==> dp[i', j'] == Dist(a, b, i', j')
    requires forall i' :: i <= i' <= |a| ==> dp[i', 0] == i'
    modifies dp
    ensures forall i', j' {:trigger dp[i', j']} :: 0 <= i' <= i && 0 <= j' <= |b| ==> dp[i', j'] == Dist(a, b, i', j')
    ensures forall i' :: i < i' <= |a| ==> dp[i', 0] == i'
  {
    for j := 1 to |b| + 1
      invariant forall i', j' {:trigger dp[i', j']} :: 0 <= i' < i && 0 <= j' <= |b| ==> dp[i', j'] == Dist(a, b, i', j')
      invariant forall j' {:trigger dp[i, j']} :: 0 <= j' < j ==> dp[i, j'] == Dist(a, b, i, j')
      invariant forall i' :: i < i' <= |a| ==> dp[i', 0] == i'
    {
      var diagonal, above, left := dp[i - 1, j - 1], dp[i - 1, j], dp[i, j - 1];
      assert diagonal == Dist(a, b, i - 1, j - 1) && above == Dist(a, b, i - 1, j) && left == Dist(a, b, i, j - 1);
      var d := if a[i - 1] == b[j - 1] then diagonal else 1 + Min3(above, left, diagonal);
      assert d == Dist(a, b, i, j);
      dp[i, j] := d;
    }
  }

  /** A level of the app: 1 memorisation, 2 fundamental Tajweed, 3 excellence. */
  type Level = l: int | 1 <= l <= 3 witness 1

  datatype LevelConfig = LevelConfig(threshold: real, enforceTajweed: bool)

  /** LEVEL_CONFIG. */
  function Config(level: Level): (c: LevelConfig)
    ensures c.enforceTajweed <==> level >= 2
    ensures 0.0 < c.threshold < 1.0
    ensures level == 1 ==> c.threshold == 0.15
  {
    match level
    case 1 => LevelConfig(0.15, false)
    case 2 => LevelConfig(0.50, true)
    case 3 => LevelConfig(0.80, true)
  }

  /** A stricter level asks for a higher similarity. */
  lemma ThresholdIncreases(l1: Level, l2: Level)
    requires l1 < l2
    ensures Config(l1).threshold < Config(l2).threshold
  {
  }

  /** The status of a checked rule: 'correct' | 'absent'. */
  datatype Status = Correct | Absent

  datatype RuleResult = RuleResult(rule: Str, subtype: Str, status: Status, confidence: real, feedback: Str)
  datatype WordAnalysis = WordAnalysis(expected: Str, transcribed: Str, valid: bool, confidence: real, rules: seq<RuleResult>)

  /** Math.round(x * 1000) / 1000: to the nearest thousandth, halves rounded up. */
  function RoundThousandths(x: real): real {
    ((x * 1000.0 + 0.5).Floor as real) / 1000.0
  }

  /** Rounding moves a value by at most half a thousandth and keeps [0, 1]. */
  lemma RoundThousandthsClose(x: real)
    ensures x - 0.0005 < RoundThousandths(x) <= x + 0.0005
    ensures 0.0 <= x <= 1.0 ==> 0.0 <= RoundThousandths(x) <= 1.0
  {
    var f := (x * 1000.0 + 0.5).Floor;
    assert (f as real) <= x * 1000.0 + 0.5 < (f as real) + 1.0;
    if 0.0 <= x <= 1.0 {
      assert 0 <= f <= 1000;
    }
  }

  /** What a rule gives when the word was or was not pronounced (no audio in the app). */
  function Judge(rule: Rule, pronounced: bool): (r: RuleResult)
    ensures r.rule == rule.rule && r.subtype == rule.subtype
    ensures r.status == Correct <==> pronounced
    ensures r.confidence == (if pronounced then 0.6 else 0.0)
    ensures r.feedback == (if pronounced then rule.feedbackCorrect else rule.feedbackMissing)
  {
    RuleResult(rule.rule, rule.subtype, if pronounced then Correct else Absent,
      if pronounced then 0.6 else 0.0, if pronounced then rule.feedbackCorrect else rule.feedbackMissing)
  }

  /** The similarity of the two normalised words. */
  function WordSimilarity(expected: Str, transcribed: Str): real {
    TextSimilarity(QuranTs.NormalizeArabic(expected), QuranTs.NormalizeArabic(transcribed))
  }

  /** The rules analyzeWord checks: none at level 1. */
  function CheckedRules(expected: Str, level: Level, nextWord: Option<Str>): seq<Rule> {
    if Config(level).enforceTajweed then RulesForWord(expected, nextWord, level) else []
  }

  /**
   * analyzeWord, stated declaratively: valid when the similarity reaches the
   * threshold, except that at level 3 a rule judged absent invalidates the word.
   */
  function WordAnalysisOf(expected: Str, transcribed: Str, level: Level, nextWord: Option<Str>): WordAnalysis {
    var sim := WordSimilarity(expected, transcribed);
    var raw := CheckedRules(expected, level, nextWord);
    var pronounced := transcribed != [];
    var results := JudgeAll(raw, pronounced);
    WordAnalysis(expected, transcribed, sim >= Config(level).threshold && !(level == 3 && AnyAbsent(results)),
      RoundThousandths(sim), results)
  }

  /** The normalise-and-compare step of analyzeWord. */
  method NormalizedSimilarity(wordExpected: Str, wordTranscribed: Str) returns (sim: real)
    ensures sim == WordSimilarity(wordExpected, wordTranscribed)
  {
    var normExpected := QuranTs.NormalizeArabic(wordExpected);
    var normTranscribed := QuranTs.NormalizeArabic(wordTranscribed);
    sim := Similarity(normExpected, normTranscribed);
  }

  /** The detector calls of analyzeWord: the five detectors, Madd only at level 3. */
  method DetectRules(wordExpected: Str, level: Level, nextWord: Option<Str>) returns (rawRules: seq<Rule>)
    requires Config(level).enforceTajweed
    ensures rawRules == CheckedRules(wordExpected, level, nextWord)
  {
    var qalqalah := DetectQalqalah(wordExpected);
    var noon := DetectNoonSakinah(wordExpected, nextWord);
    var meem := DetectMeemSakinah(wordExpected, nextWord);
    var ghunnah := DetectGhunnah(wordExpected);
    var madd: seq<Rule> := [];
    if level >= 3 {
      madd := DetectMadd(wordExpected, nextWord);
    }
    rawRules := qalqalah + noon + meem + ghunnah + madd;
  }

  /** Some checked rule was judged absent. */
  predicate AnyAbsent(results: seq<RuleResult>) {
    exists k :: 0 <= k < |results| && results[k].status == Absent
  }

  /** The results of the checked rules: each judged by whether the word was pronounced. */
  function JudgeAll(raw: seq<Rule>, pronounced: bool): (rs: seq<RuleResult>)
    ensures |rs| == |raw|
  {
    seq(|raw|, k requires 0 <= k < |raw| => Judge(raw[k], pronounced))
  }

  /**
   * The rule loop of analyzeWord: every rule is judged, and at level 3 an
   * absent rule makes the word invalid (invalidated).
   */
  method JudgeRules(rawRules: seq<Rule>, wordTranscribed: Str, level: Level) returns (rulesResults: seq<RuleResult>, invalidated: bool)
    ensures rulesResults == JudgeAll(rawRules, wordTranscribed != [])
    ensures invalidated <==> level == 3 && AnyAbsent(rulesResults)
  {
    rulesResults := [];
    invalidated := false;
    for k := 0 to |rawRules|
      invariant |rulesResults| == k
      invariant forall l :: 0 <= l < k ==> rulesResults[l] == Judge(rawRules[l], wordTranscribed != [])
      invariant invalidated <==> level == 3 && k > 0 && wordTranscribed == []
    {
      var rule := rawRules[k];
      var success := wordTranscribed != [];
      var confidence := if success then 0.6 else 0.0;
      if !success && level == 3 {
        invalidated := true;
      }
      rulesResults := rulesResults + [RuleResult(rule.rule, rule.subtype, if success then Correct else Absent,
        confidence, if success then rule.feedbackCorrect else rule.feedbackMissing)];
    }
    if invalidated {
      assert rulesResults[0].status == Absent;
    }
  }

  /** analyzeWord; its rule loop is JudgeRules. */
  method AnalyzeWord(wordExpected: Str, wordTranscribed: Str, level: Level, nextWord: Option<Str>)
    returns (r: WordAnalysis)
    ensures r == WordAnalysisOf(wordExpected, wordTranscribed, level, nextWord)
  {
    var config := Config(level);
    var textSim := NormalizedSimilarity(wordExpected, wordTranscribed);
    var isValid := textSim >= config.threshold;
    var rulesResults: seq<RuleResult> := [];
    if config.enforceTajweed {
      var rawRules := DetectRules(wordExpected, level, nextWord);
      var invalidated;
      rulesResults, invalidated := JudgeRules(rawRules, wordTranscribed, level);
      if invalidated {
        isValid := false;
      }
    }
    r := WordAnalysis(wordExpected, wordTranscribed, isValid, RoundThousandths(textSim), rulesResults);
  }

  /**
   * When analyzeWord accepts a word: the normalised similarity reaches the
   * level's threshold and, at level 3, no checked rule was missed, which
   * happens exactly when the transcription is empty and some rule applies.
   */
  lemma WordValidity(expected: Str, transcribed: Str, level: Level, nextWord: Option<Str>)
    ensures WordAnalysisOf(expected, transcribed, level, nextWord).valid <==>
      (WordSimilarity(expected, transcribed) >= Config(level).threshold
       && !(level == 3 && transcribed == [] && CheckedRules(expected, level, nextWord) != []))
  {
    var raw := CheckedRules(expected, level, nextWord);
    var sim := WordSimilarity(expected, transcribed);
    AbsentExactlyWhenSilent(raw, transcribed != []);
    assert WordAnalysisOf(expected, transcribed, level, nextWord).valid ==
      (sim >= Config(level).threshold && !(level == 3 && AnyAbsent(JudgeAll(raw, transcribed != []))));
  }

  /** A checked rule is judged absent exactly when there is one and the word was not pronounced. */
  lemma AbsentExactlyWhenSilent(raw: seq<Rule>, pronounced: bool)
    ensures AnyAbsent(JudgeAll(raw, pronounced)) <==> !pronounced && raw != []
  {
    if !pronounced && raw != [] {
      assert JudgeAll(raw, pronounced)[0].status == Absent;
    }
  }

  /** No rule is checked at level 1, no Madd rule below level 3, and every result is judged by pronunciation. */
  lemma WordRules(expected: Str, transcribed: Str, level: Level, nextWord: Option<Str>)
    ensures var rs := WordAnalysisOf(expected, transcribed, level, nextWord).rules;
      && (level == 1 ==> rs == [])
      && (level == 2 ==> forall k :: 0 <= k < |rs| ==> rs[k].rule != "Madd")
      && |rs| == |CheckedRules(expected, level, nextWord)|
      && (forall k :: 0 <= k < |rs| ==> (rs[k].status == Correct <==> transcribed != []))
  {
    var raw := CheckedRules(expected, level, nextWord);
    var rs := JudgeAll(raw, transcribed != []);
    if level == 2 {
      MaddOnlyFromLevel3(expected, nextWord, level);
      forall k | 0 <= k < |rs| ensures rs[k].rule != "Madd" {
        assert raw[k] in raw;
      }
    }
  }

  /** The reported confidence is the rounded similarity and lies in [0, 1]. */
  lemma WordConfidence(expected: Str, transcribed: Str, level: Level, nextWord: Option<Str>)
    ensures var r := WordAnalysisOf(expected, transcribed, level, nextWord);
      0.0 <= r.confidence <= 1.0 && r.confidence - 0.0005 <= WordSimilarity(expected, transcribed) < r.confidence + 0.0005
  {
    var sim := WordSimilarity(expected, transcribed);
    SimilarityBounds(QuranTs.NormalizeArabic(expected), QuranTs.NormalizeArabic(transcribed));
    RoundThousandthsClose(sim);
  }

  /** The transcription paired with expected word i (transcribedWords[i] ?? ''). */
  function TranscribedAt(transcribed: seq<Str>, i: nat): Str {
    if i < |transcribed| then transcribed[i] else []
  }

  /** The word after expected word i, if any. */
  function NextExpected(expected: seq<Str>, i: nat): Option<Str> {
    if i + 1 < |expected| then Some(expected[i + 1]) else None
  }

  /** The analysis of expected word i, with its transcription and the word after it. */
  function AnalysisAt(expected: seq<Str>, transcribed: seq<Str>, level: Level, i: nat): WordAnalysis {
    var word := if i < |expected| then expected[i] else [];
    WordAnalysisOf(word, TranscribedAt(transcribed, i), level, NextExpected(expected, i))
  }

  /** The analysis of each expected word, by index. */
  function AnalysisOf(expected: seq<Str>, transcribed: seq<Str>, level: Level): nat -> WordAnalysis {
    (i: nat) => AnalysisAt(expected, transcribed, level, i)
  }

  /** The analyses of the first n expected words. */
  function PageAnalyses(expected: seq<Str>, transcribed: seq<Str>, level: Level, n: nat): (rs: seq<WordAnalysis>)
    ensures |rs| == n
  {
    Appended(AnalysisOf(expected, transcribed, level), n)
  }

  /** Entry i of the page analyses is the analysis of expected word i. */
  lemma PageAnalysesAt(expected: seq<Str>, transcribed: seq<Str>, level: Level, n: nat, i: nat)
    requires i < n
    ensures PageAnalyses(expected, transcribed, level, n)[i] == AnalysisAt(expected, transcribed, level, i)
  {
    AppendedAt(AnalysisOf(expected, transcribed, level), n, i);
  }

  /** f(0), ..., f(n - 1), built by appending one entry at a time as the page loops do. */
  function Appended<T>(f: nat -> T, n: nat): (xs: seq<T>)
    ensures |xs| == n
  {
    if n == 0 then [] else Appended(f, n - 1) + [f(n - 1)]
  }

  lemma {:induction false} AppendedAt<T>(f: nat -> T, n: nat, i: nat)
    requires i < n
    ensures Appended(f, n)[i] == f(i)
  {
    AppendKeeps(Appended(f, n - 1), f(n - 1), i);
    if i < n - 1 {
      AppendedAt(f, n - 1, i);
    }
  }

  lemma AppendKeeps<T>(xs: seq<T>, x: T, i: nat)
    requires i <= |xs|
    ensures (xs + [x])[i] == if i < |xs| then xs[i] else x
  {
  }

  /** analyzePage: one analysis per expected word, paired by position. */
  method AnalyzePage(expectedWords: seq<Str>, transcribedWords: seq<Str>, level: Level) returns (analyses: seq<WordAnalysis>)
    ensures analyses == PageAnalyses(expectedWords, transcribedWords, level, |expectedWords|)
    ensures |analyses| == |expectedWords|
  {
    analyses := [];
    for i := 0 to |expectedWords|
      invariant analyses == PageAnalyses(expectedWords, transcribedWords, level, i)
    {
      var a := AnalyzeWord(expectedWords[i], TranscribedAt(transcribedWords, i), level, NextExpected(expectedWords, i));
      analyses := analyses + [a];
    }
  }

  /** Number of analyses marked valid. */
  function CountValid(analyses: seq<WordAnalysis>): (n: nat)
    ensures n <= |analyses|
    ensures n == |analyses| <==> forall k :: 0 <= k < |analyses| ==> analyses[k].valid
  {
    if analyses == [] then 0
    else CountValid(analyses[..|analyses| - 1]) + (if analyses[|analyses| - 1].valid then 1 else 0)
  }

  /** computeScore: the share of valid words, 0 for an empty page; 1 exactly when every word is valid. */
  function ComputeScore(analyses: seq<WordAnalysis>): (score: real)
    ensures 0.0 <= score <= 1.0
    ensures score == 1.0 <==> analyses != [] && forall k :: 0 <= k < |analyses| ==> analyses[k].valid
  {
    if analyses == [] then 0.0
    else (CountValid(analyses) as real) / (|analyses| as real)
  }
}
