/**
 * The recitation engine of the backend (TajweedEngine): the five rule
 * detectors, the collection of the rules of a word, the rule check with its
 * acoustic dispatch, and the per-level word analysis. The detectors are
 * proved equal to the same scan specification as the mobile app's, so the two
 * engines detect the same rules; without audio they also judge them alike.
 */
module TajweedPy {
  import opened Text
  import opened Wrappers
  import opened Arabic
  import opened TajweedRules
  import QuranPy
  import TajweedTs

  /** _detect_qalqalah. */
  method DetectQalqalah(word: Str) returns (rules: seq<Rule>)
    ensures rules == Scan(QalqalahScan, word, None, |word|)
  {
    rules := [];
    var chars := word;
    for i := 0 to |chars|
      invariant rules == Scan(QalqalahScan, word, None, i)
    {
      var c := chars[i];
      if !IsQalqalahLetter(c) {
        continue;
      }
      var hasSukoon := false;
      var j := i + 1;
      while j < |chars| && IsDiacritic(chars[j])
        invariant i + 1 <= j <= |chars|
        invariant RunEnd(word, j) == RunEnd(word, i + 1)
        invariant (hasSukoon || RunHas(word, j, Sukoon)) == RunHas(word, i + 1, Sukoon)
      {
        if chars[j] == Sukoon {
          hasSukoon := true;
        }
        j := j + 1;
      }
      var isLastLetter := j >= |chars|;
      if hasSukoon || isLastLetter {
        rules := rules + [QalqalahRule(c, hasSukoon)];
      }
    }
  }

  /** _detect_noon_sakinah: the Noon Sakinah rules, then one Tanween rule if the word carries tanween. */
  method DetectNoonSakinah(word: Str, nextWord: Option<Str>) returns (rules: seq<Rule>)
    ensures rules == NoonAndTanween(word, nextWord)
  {
    rules := [];
    var chars := word;
    for i := 0 to |chars|
      invariant rules == Scan(NoonScan, word, nextWord, i)
    {
      if chars[i] == Noon && i + 1 < |chars| && chars[i + 1] == Sukoon {
        var ruleType := ClassifyNoon(nextWord);
        rules := rules + [NoonSakinahRule(ruleType)];
      }
    }
    var anyTanween := false;
    for k := 0 to |chars|
      invariant anyTanween <==> exists l :: 0 <= l < k && IsTanween(chars[l])
    {
      if IsTanween(chars[k]) {
        anyTanween := true;
      }
    }
    if anyTanween {
      var ruleType := ClassifyNoon(nextWord);
      rules := rules + [TanweenRule(ruleType)];
    }
  }

  /** _detect_meem_sakinah. */
  method DetectMeemSakinah(word: Str, nextWord: Option<Str>) returns (rules: seq<Rule>)
    ensures rules == Scan(MeemScan, word, nextWord, |word|)
  {
    rules := [];
    var chars := word;
    for i := 0 to |chars|
      invariant rules == Scan(MeemScan, word, nextWord, i)
    {
      if chars[i] == Meem && i + 1 < |chars| && chars[i + 1] == Sukoon {
        var ruleType := ClassifyMeem(nextWord);
        rules := rules + [MeemSakinahRule(ruleType)];
      }
    }
  }

  /** _detect_ghunnah_mushaddada. */
  method DetectGhunnahMushaddada(word: Str) returns (rules: seq<Rule>)
    ensures rules == Scan(GhunnahScan, word, None, |word|)
  {
    rules := [];
    var chars := word;
    for i := 0 to |chars|
      invariant rules == Scan(GhunnahScan, word, None, i)
    {
      var c := chars[i];
      if c != Noon && c != Meem {
        continue;
      }
      var hasShadda := false;
      var j := i + 1;
      while j < |chars| && IsDiacritic(chars[j])
        invariant i + 1 <= j <= |chars|
        invariant (hasShadda || RunHas(word, j, Shadda)) == RunHas(word, i + 1, Shadda)
      {
        if chars[j] == Shadda {
          hasShadda := true;
        }
        j := j + 1;
      }
      if hasShadda {
        rules := rules + [GhunnahRule(c)];
      }
    }
  }

  /** _detect_madd: position 0 is skipped. */
  method DetectMadd(word: Str, nextWord: Option<Str>) returns (rules: seq<Rule>)
    ensures rules == Scan(MaddScan, word, nextWord, |word|)
  {
    rules := [];
    var chars := word;
    for i := 0 to |chars|
      invariant rules == Scan(MaddScan, word, nextWord, i)
    {
      if i == 0 {
        continue;
      }
      var found := MaddAt(chars, nextWord, i);
      if found.None? {
        continue;
      }
      rules := rules + [found.value];
    }
  }

  /** _get_rules_for_word: the detectors in order, Madd from level 3 on. */
  method GetRulesForWord(word: Str, nextWord: Option<Str>, level: int) returns (rules: seq<Rule>)
    ensures rules == RulesForWord(word, nextWord, level)
  {
    rules := [];
    var qalqalah := DetectQalqalah(word);
    rules := rules + qalqalah;
    var noon := DetectNoonSakinah(word, nextWord);
    rules := rules + noon;
    var meem := DetectMeemSakinah(word, nextWord);
    rules := rules + meem;
    var ghunnah := DetectGhunnahMushaddada(word);
    rules := rules + ghunnah;
    assert rules == RulesForWord(word, nextWord, 2);
    if level >= 3 {
      var madd := DetectMadd(word, nextWord);
      rules := rules + madd;
    }
  }

  /** What a check answers: (success, confidence). */
  datatype Check = Check(success: bool, confidence: real)

  /** An audio segment: the float32 samples of one word. */
  type Samples = seq<real>

  /**
   * The acoustic checks of the audio-analysis service (check_qalqalah,
   * check_madd_duration, check_ghunnah). They work on the signal, so they are
   * parameters; the sample rate they are given is a constant of that service.
   */
  datatype Acoustics = Acoustics(
    qalqalah: Samples -> Check,
    madd: (Samples, Str, real) -> Check,
    ghunnah: Samples -> Check)

  /** The rules whose check is the nasal-spectrum one. */
  predicate IsNasalRule(rule: Str) {
    rule == "Noon Sakinah" || rule == "Tanween" || rule == "Meem Sakinah" || rule == "Ghunnah Mushaddada"
  }

  /** The rules some acoustic check covers. */
  predicate HasAcousticCheck(rule: Str) {
    rule == "Qalqalah" || rule == "Madd" || IsNasalRule(rule)
  }

  /** _check_rule_audio: dispatches on the rule name; an uncovered rule is neutral (True, 0.60). */
  function CheckRuleAudio(rule: Rule, segment: Samples, beat: real, ac: Acoustics): (c: Check)
    ensures !HasAcousticCheck(rule.rule) ==> c == Check(true, 0.6)
  {
    if rule.rule == "Qalqalah" then ac.qalqalah(segment)
    else if rule.rule == "Madd" then ac.madd(segment, rule.subtype, beat)
    else if IsNasalRule(rule.rule) then ac.ghunnah(segment)
    else Check(true, 0.6)
  }

  /** audio_segment is not None and len(audio_segment) > 0. */
  predicate HasAudio(audio: Option<Samples>) {
    audio.Some? && |audio.value| > 0
  }

  /**
   * _check_rule: an unpronounced word fails every rule with confidence 0;
   * with audio the acoustic check decides; otherwise the word's presence is
   * taken as success with confidence 0.60.
   */
  function CheckRule(rule: Rule, student: Str, audio: Option<Samples>, beat: real, ac: Acoustics): (c: Check)
    ensures student == [] ==> c == Check(false, 0.0)
    ensures student != [] && !HasAudio(audio) ==> c == Check(true, 0.6)
    ensures student != [] && HasAudio(audio) ==> c == CheckRuleAudio(rule, audio.value, beat, ac)
  {
    if student == [] then Check(false, 0.0)
    else if HasAudio(audio) then CheckRuleAudio(rule, audio.value, beat, ac)
    else Check(true, 0.6)
  }

  /** Every rule the detectors produce is covered by an acoustic check: the neutral answer is never reached for them. */
  lemma {:induction false} DetectedRulesAreChecked(word: Str, nextWord: Option<Str>, level: int)
    ensures forall r :: r in RulesForWord(word, nextWord, level) ==> HasAcousticCheck(r.rule)
  {
    ScanRulesAre(QalqalahScan, word, None, |word|);
    ScanRulesAre(MeemScan, word, nextWord, |word|);
    ScanRulesAre(GhunnahScan, word, None, |word|);
    ScanRulesAre(MaddScan, word, nextWord, |word|);
    ScanRulesAre(NoonScan, word, nextWord, |word|);
    NoonAndTanweenShape(word, nextWord);
    var nt := NoonAndTanween(word, nextWord);
    forall r | r in nt ensures IsNasalRule(r.rule) {
      var s := Scan(NoonScan, word, nextWord, |word|);
      if r !in s {
        assert nt == s + [TanweenRule(ClassifyNoon(nextWord))];
      }
    }
  }

  datatype LevelConfig = LevelConfig(thresholdPerWord: real, enforceTajweed: bool)

  /** LEVEL_CONFIGS.get(level, LEVEL_CONFIGS[1]): a level other than 2 or 3 gets the level-1 settings. */
  function LevelConfigOf(level: int): (c: LevelConfig)
    ensures c.enforceTajweed <==> level == 2 || level == 3
    ensures 0.0 < c.thresholdPerWord < 1.0
  {
    if level == 2 then LevelConfig(0.50, true)
    else if level == 3 then LevelConfig(0.80, true)
    else LevelConfig(0.15, false)
  }

  /** The three levels have the same settings as the mobile app's. */
  lemma SameLevelSettings(level: TajweedTs.Level)
    ensures LevelConfigOf(level).thresholdPerWord == TajweedTs.Config(level).threshold
    ensures LevelConfigOf(level).enforceTajweed == TajweedTs.Config(level).enforceTajweed
  {
  }

  /** Python's round(x, 3) on an exact value: to the nearest thousandth, halves to the even thousandth. */
  function RoundHalfEven3(x: real): real {
    var y := x * 1000.0;
    var f := y.Floor;
    var n := if y - (f as real) > 0.5 then f + 1
             else if y - (f as real) < 0.5 then f
             else if f % 2 == 0 then f else f + 1;
    (n as real) / 1000.0
  }

  /** Rounding moves a value by at most half a thousandth and keeps [0, 1]. */
  lemma RoundHalfEven3Close(x: real)
    ensures x - 0.0005 <= RoundHalfEven3(x) <= x + 0.0005
    ensures 0.0 <= x <= 1.0 ==> 0.0 <= RoundHalfEven3(x) <= 1.0
  {
    var y := x * 1000.0;
    var f := y.Floor;
    assert (f as real) <= y < (f as real) + 1.0;
    if 0.0 <= x <= 1.0 {
      assert 0 <= f <= 1000;
      if f == 1000 {
        assert y == 1000.0;
      }
    }
  }

  /** The backend rounds exact halves to even where the app rounds them up: 0.0025 gives 0.002 and 0.003. */
  lemma RoundingsDifferAtHalves()
    ensures RoundHalfEven3(0.0025) == 0.002
    ensures TajweedTs.RoundThousandths(0.0025) == 0.003
  {
    assert (0.0025 * 1000.0).Floor == 2;
    assert (0.0025 * 1000.0 + 0.5).Floor == 3;
  }

  /** The external collaborators of analyze_word: \w and \d, difflib's ratio, the acoustic checks. */
  datatype Env = Env(cc: QuranPy.CharClasses, ratio: (Str, Str) -> real, acoustics: Acoustics)

  /** One checked rule as analyze_word reports it. */
  function ResultOf(rule: Rule, check: Check): (r: TajweedTs.RuleResult)
    ensures r.rule == rule.rule && r.subtype == rule.subtype && r.confidence == check.confidence
    ensures r.status == TajweedTs.Correct <==> check.success
    ensures r.feedback == if check.success then rule.feedbackCorrect else rule.feedbackMissing
  {
    TajweedTs.RuleResult(rule.rule, rule.subtype, if check.success then TajweedTs.Correct else TajweedTs.Absent,
      check.confidence, if check.success then rule.feedbackCorrect else rule.feedbackMissing)
  }

  /** The result of analyze_word: {"valid", "confidence", "rules"}. */
  datatype Verdict = Verdict(valid: bool, confidence: real, rules: seq<TajweedTs.RuleResult>)

  /** The text similarity of analyze_word: 0 when the normalised student word is empty. */
  function TextSimilarity(env: Env, expected: Str, student: Str): real {
    var normExpected := QuranPy.NormalizeArabic(env.cc, expected);
    var normStudent := if student == [] then [] else QuranPy.NormalizeArabic(env.cc, student);
    if normStudent == [] then 0.0 else env.ratio(normExpected, normStudent)
  }

  /** The rules analyze_word checks: none unless the level enforces Tajweed. */
  function CheckedRules(expected: Str, level: int, nextWord: Option<Str>): seq<Rule> {
    if LevelConfigOf(level).enforceTajweed then RulesForWord(expected, nextWord, level) else []
  }

  /** The results of the checked rules, each checked with the student word and the audio. */
  function CheckAll(env: Env, raw: seq<Rule>, student: Str, audio: Option<Samples>, beat: real): (rs: seq<TajweedTs.RuleResult>)
    ensures |rs| == |raw|
  {
    seq(|raw|, k requires 0 <= k < |raw| => ResultOf(raw[k], CheckRule(raw[k], student, audio, beat, env.acoustics)))
  }

  /**
   * analyze_word, stated declaratively: valid when the similarity reaches the
   * level's threshold, except that at level 3 a failed rule invalidates the word.
   */
  function VerdictOf(env: Env, expected: Str, student: Str, level: int, nextWord: Option<Str>, audio: Option<Samples>, beat: real): Verdict {
    var sim := TextSimilarity(env, expected, student);
    var results := CheckAll(env, CheckedRules(expected, level, nextWord), student, audio, beat);
    Verdict(sim >= LevelConfigOf(level).thresholdPerWord && !(level == 3 && TajweedTs.AnyAbsent(results)),
      RoundHalfEven3(sim), results)
  }

  /**
   * The rule loop of analyze_word: every rule is checked, and at level 3 a
   * failed rule makes the word invalid (invalidated).
   */
  method CheckRules(env: Env, rawRules: seq<Rule>, wordStudent: Str, level: int, audioSegment: Option<Samples>, beatDuration: real)
    returns (rulesResults: seq<TajweedTs.RuleResult>, invalidated: bool)
    ensures rulesResults == CheckAll(env, rawRules, wordStudent, audioSegment, beatDuration)
    ensures invalidated <==> level == 3 && TajweedTs.AnyAbsent(rulesResults)
  {
    rulesResults := [];
    invalidated := false;
    for k := 0 to |rawRules|
      invariant |rulesResults| == k
      invariant forall l :: 0 <= l < k ==>
        rulesResults[l] == ResultOf(rawRules[l], CheckRule(rawRules[l], wordStudent, audioSegment, beatDuration, env.acoustics))
      invariant invalidated <==> level == 3 && TajweedTs.AnyAbsent(rulesResults)
    {
      var ruleInfo := rawRules[k];
      var check := CheckRule(ruleInfo, wordStudent, audioSegment, beatDuration, env.acoustics);
      if !check.success && level == 3 {
        invalidated := true;
      }
      var result := TajweedTs.RuleResult(ruleInfo.rule, ruleInfo.subtype,
        if check.success then TajweedTs.Correct else TajweedTs.Absent, check.confidence,
        if check.success then ruleInfo.feedbackCorrect else ruleInfo.feedbackMissing);
      AnyAbsentAppend(rulesResults, result);
      rulesResults := rulesResults + [result];
    }
  }

  /** analyze_word; its rule loop is CheckRules. */
  method AnalyzeWord(env: Env, wordExpected: Str, wordStudent: Str, level: int, nextWord: Option<Str>,
                     audioSegment: Option<Samples>, beatDuration: real) returns (r: Verdict)
    ensures r == VerdictOf(env, wordExpected, wordStudent, level, nextWord, audioSegment, beatDuration)
  {
    var config := LevelConfigOf(level);
    var normExpected := QuranPy.NormalizeArabic(env.cc, wordExpected);
    var normStudent := if wordStudent == [] then [] else QuranPy.NormalizeArabic(env.cc, wordStudent);
    var textSimilarity := if normStudent == [] then 0.0 else env.ratio(normExpected, normStudent);
    var isValid := textSimilarity >= config.thresholdPerWord;
    var rulesResults: seq<TajweedTs.RuleResult> := [];
    if config.enforceTajweed {
      var rawRules := GetRulesForWord(wordExpected, nextWord, level);
      var invalidated;
      rulesResults, invalidated := CheckRules(env, rawRules, wordStudent, level, audioSegment, beatDuration);
      if invalidated {
        isValid := false;
      }
    }
    r := Verdict(isValid, RoundHalfEven3(textSimilarity), rulesResults);
  }

  lemma AnyAbsentAppend(rs: seq<TajweedTs.RuleResult>, r: TajweedTs.RuleResult)
    ensures TajweedTs.AnyAbsent(rs + [r]) <==> TajweedTs.AnyAbsent(rs) || r.status == TajweedTs.Absent
  {
    if r.status == TajweedTs.Absent {
      assert (rs + [r])[|rs|] == r;
    }
    if TajweedTs.AnyAbsent(rs) {
      var k :| 0 <= k < |rs| && rs[k].status == TajweedTs.Absent;
      assert (rs + [r])[k] == rs[k];
    }
  }

  /** An unpronounced word is never valid: confidence 0 and every checked rule absent with confidence 0. */
  lemma UnpronouncedWord(env: Env, expected: Str, level: int, nextWord: Option<Str>, audio: Option<Samples>, beat: real)
    ensures var v := VerdictOf(env, expected, [], level, nextWord, audio, beat);
      && !v.valid && v.confidence == 0.0
      && forall k :: 0 <= k < |v.rules| ==> v.rules[k].status == TajweedTs.Absent && v.rules[k].confidence == 0.0
  {
    assert TextSimilarity(env, expected, []) == 0.0;
    assert (0.0 * 1000.0).Floor == 0;
  }

  /** A level other than 2 or 3 checks no rule and accepts exactly the words at least 15% similar. */
  lemma MemorisationLevel(env: Env, expected: Str, student: Str, level: int, nextWord: Option<Str>, audio: Option<Samples>, beat: real)
    requires level != 2 && level != 3
    ensures var v := VerdictOf(env, expected, student, level, nextWord, audio, beat);
      v.rules == [] && (v.valid <==> TextSimilarity(env, expected, student) >= 0.15)
  {
  }

  /**
   * At level 3 a word is valid exactly when it is similar enough and every
   * checked rule succeeds; at level 2 the rules never invalidate it.
   */
  lemma RulesInvalidateOnlyAtLevel3(env: Env, expected: Str, student: Str, level: int, nextWord: Option<Str>, audio: Option<Samples>, beat: real)
    ensures var v := VerdictOf(env, expected, student, level, nextWord, audio, beat);
      var sim := TextSimilarity(env, expected, student);
      var raw := CheckedRules(expected, level, nextWord);
      && (level == 3 ==> (v.valid <==> (sim >= 0.80 &&
            forall k :: 0 <= k < |raw| ==> CheckRule(raw[k], student, audio, beat, env.acoustics).success)))
      && (level == 2 ==> (v.valid <==> sim >= 0.50))
  {
    var raw := CheckedRules(expected, level, nextWord);
    var results := CheckAll(env, raw, student, audio, beat);
    if level == 3 && TajweedTs.AnyAbsent(results) {
      var k :| 0 <= k < |results| && results[k].status == TajweedTs.Absent;
      assert !CheckRule(raw[k], student, audio, beat, env.acoustics).success;
    }
    if level == 3 && !TajweedTs.AnyAbsent(results) {
      forall k | 0 <= k < |raw| ensures CheckRule(raw[k], student, audio, beat, env.acoustics).success {
        assert results[k].status != TajweedTs.Absent;
      }
    }
  }

  /**
   * Without audio the backend checks the same rules as the mobile app and
   * judges them the same way, by whether the word was pronounced.
   */
  lemma AgreesWithAppWithoutAudio(env: Env, expected: Str, student: Str, level: TajweedTs.Level, nextWord: Option<Str>, audio: Option<Samples>, beat: real)
    requires !HasAudio(audio)
    ensures CheckedRules(expected, level, nextWord) == TajweedTs.CheckedRules(expected, level, nextWord)
    ensures VerdictOf(env, expected, student, level, nextWord, audio, beat).rules
      == TajweedTs.JudgeAll(TajweedTs.CheckedRules(expected, level, nextWord), student != [])
  {
    var raw := CheckedRules(expected, level, nextWord);
    var mine := CheckAll(env, raw, student, audio, beat);
    var theirs := TajweedTs.JudgeAll(raw, student != []);
    forall k | 0 <= k < |raw| ensures mine[k] == theirs[k] {
    }
  }
}
