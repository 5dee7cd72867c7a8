/**
 * The expert and validation endpoints of the backend: the word alignment
 * built from the opcodes of a sequence matcher, the per-word scoring loop and
 * page ratio of the expert analysis, and the threshold tiers of the quick
 * validation. The matcher, the transcription, the audio and the AI coach are
 * external: their outputs are inputs here.
 */
module AnalysisApi {
  import opened Text
  import opened Wrappers
  import QuranPy
  import TajweedTs
  import TajweedPy
  import Users

  /** The four opcode tags of a sequence matcher. */
  datatype Tag = Equal | Replace | Delete | Insert

  /** (tag, i1, i2, j1, j2): expected[i1..i2] against transcribed[j1..j2]. */
  datatype Opcode = Opcode(tag: Tag, i1: nat, i2: nat, j1: nat, j2: nat)

  /** A transcribed word with its timestamps: {"word", "start", "end"}. */
  datatype Timed = Timed(word: Str, start: real, end: real)

  /** An alignment entry: {"expected", "transcribed", "start", "end"}. */
  datatype Entry = Entry(expected: Str, transcribed: Str, start: real, end: real)

  /** The ranges of an opcode lie inside the two word lists (the loops index them). */
  predicate InBounds(op: Opcode, n: nat, m: nat) {
    op.i1 <= op.i2 <= n && op.j1 <= op.j2 <= m
  }

  function Min(x: nat, y: nat): nat {
    if x <= y then x else y
  }

  /** expected[i1 + k] paired with transcribed[j1 + k] for k < count, timestamps copied. */
  function Paired(expected: seq<Str>, transcribed: seq<Timed>, i1: nat, j1: nat, count: nat): (es: seq<Entry>)
    requires i1 + count <= |expected| && j1 + count <= |transcribed|
    ensures |es| == count
  {
    seq(count, k requires 0 <= k < count =>
      Entry(expected[i1 + k], transcribed[j1 + k].word, transcribed[j1 + k].start, transcribed[j1 + k].end))
  }

  /** expected[from..to], each with an empty transcription and zero timestamps. */
  function Unspoken(expected: seq<Str>, from: nat, to: nat): (es: seq<Entry>)
    requires from <= to <= |expected|
    ensures |es| == to - from
  {
    seq(to - from, k requires 0 <= k < to - from => Entry(expected[from + k], [], 0.0, 0.0))
  }

  /**
   * The entries one opcode contributes: an equal block zips its two ranges, a
   * replace block pairs as many words as both ranges have and leaves the
   * remaining expected words unspoken, a delete block leaves its expected
   * words unspoken, and an insert block contributes nothing.
   */
  function BlockEntries(expected: seq<Str>, transcribed: seq<Timed>, op: Opcode): seq<Entry>
    requires InBounds(op, |expected|, |transcribed|)
  {
    match op.tag
    case Equal => Paired(expected, transcribed, op.i1, op.j1, Min(op.i2 - op.i1, op.j2 - op.j1))
    case Replace =>
      var pairs := Min(op.i2 - op.i1, op.j2 - op.j1);
      Paired(expected, transcribed, op.i1, op.j1, pairs) + Unspoken(expected, op.i1 + pairs, op.i2)
    case Delete => Unspoken(expected, op.i1, op.i2)
    case Insert => []
  }

  /** The entries of the first k opcodes, in order. */
  function Alignment(expected: seq<Str>, transcribed: seq<Timed>, ops: seq<Opcode>, k: nat): seq<Entry>
    requires k <= |ops|
    requires forall q :: 0 <= q < |ops| ==> InBounds(ops[q], |expected|, |transcribed|)
  {
    if k == 0 then [] else Alignment(expected, transcribed, ops, k - 1) + BlockEntries(expected, transcribed, ops[k - 1])
  }

  /** _align_words, with the opcodes of matching the normalised word lists given as input. */
  method AlignWords(wordsExpected: seq<Str>, transcribedWords: seq<Timed>, opcodes: seq<Opcode>) returns (alignment: seq<Entry>)
    requires forall q :: 0 <= q < |opcodes| ==> InBounds(opcodes[q], |wordsExpected|, |transcribedWords|)
    ensures alignment == Alignment(wordsExpected, transcribedWords, opcodes, |opcodes|)
  {
    alignment := [];
    for q := 0 to |opcodes|
      invariant alignment == Alignment(wordsExpected, transcribedWords, opcodes, q)
    {
      alignment := AppendBlock(alignment, wordsExpected, transcribedWords, opcodes[q]);
    }
  }

  /** The body of the opcode loop: one block of entries appended. */
  method AppendBlock(alignment: seq<Entry>, wordsExpected: seq<Str>, transcribedWords: seq<Timed>, op: Opcode) returns (r: seq<Entry>)
    requires InBounds(op, |wordsExpected|, |transcribedWords|)
    ensures r == alignment + BlockEntries(wordsExpected, transcribedWords, op)
  {
    match op.tag {
      case Equal =>
        r := AppendPaired(alignment, wordsExpected, transcribedWords, op.i1, op.j1, Min(op.i2 - op.i1, op.j2 - op.j1));
      case Replace =>
        var pairs := Min(op.i2 - op.i1, op.j2 - op.j1);
        var paired := AppendPaired(alignment, wordsExpected, transcribedWords, op.i1, op.j1, pairs);
        r := AppendUnspoken(paired, wordsExpected, op.i1 + pairs, op.i2);
        assert r == alignment + (Paired(wordsExpected, transcribedWords, op.i1, op.j1, pairs)
          + Unspoken(wordsExpected, op.i1 + pairs, op.i2));
      case Delete =>
        r := AppendUnspoken(alignment, wordsExpected, op.i1, op.i2);
      case Insert =>
        r := alignment;
    }
  }

  /** The zipping loop of the equal and replace blocks. */
  method AppendPaired(alignment: seq<Entry>, expected: seq<Str>, transcribed: seq<Timed>, i1: nat, j1: nat, count: nat) returns (r: seq<Entry>)
    requires i1 + count <= |expected| && j1 + count <= |transcribed|
    ensures r == alignment + Paired(expected, transcribed, i1, j1, count)
  {
    r := alignment;
    for k := 0 to count
      invariant r == alignment + Paired(expected, transcribed, i1, j1, k)
    {
      var tw := transcribed[j1 + k];
      r := r + [Entry(expected[i1 + k], tw.word, tw.start, tw.end)];
      PairedStep(expected, transcribed, i1, j1, k);
    }
  }

  /** The loop of the replace and delete blocks over expected words left unspoken. */
  method AppendUnspoken(alignment: seq<Entry>, expected: seq<Str>, from: nat, to: nat) returns (r: seq<Entry>)
    requires from <= to <= |expected|
    ensures r == alignment + Unspoken(expected, from, to)
  {
    r := alignment;
    for i := from to to
      invariant r == alignment + Unspoken(expected, from, i)
    {
      r := r + [Entry(expected[i], [], 0.0, 0.0)];
      UnspokenStep(expected, from, i);
    }
  }

  lemma PairedStep(expected: seq<Str>, transcribed: seq<Timed>, i1: nat, j1: nat, k: nat)
    requires i1 + k < |expected| && j1 + k < |transcribed|
    ensures Paired(expected, transcribed, i1, j1, k + 1) == Paired(expected, transcribed, i1, j1, k)
      + [Entry(expected[i1 + k], transcribed[j1 + k].word, transcribed[j1 + k].start, transcribed[j1 + k].end)]
  {
  }

  lemma UnspokenStep(expected: seq<Str>, from: nat, i: nat)
    requires from <= i < |expected|
    ensures Unspoken(expected, from, i + 1) == Unspoken(expected, from, i) + [Entry(expected[i], [], 0.0, 0.0)]
  {
  }

  /**
   * The opcodes tile both lists: consecutive blocks that start at 0 and end
   * at the lengths, equal blocks of equal length, insertions that consume no
   * expected word and deletions that consume no transcribed word.
   */
  predicate Tiles(ops: seq<Opcode>, n: nat, m: nat) {
    && (|ops| == 0 ==> n == 0 && m == 0)
    && (|ops| > 0 ==> ops[0].i1 == 0 && ops[0].j1 == 0 && ops[|ops| - 1].i2 == n && ops[|ops| - 1].j2 == m)
    && (forall q :: 0 <= q < |ops| - 1 ==> ops[q].i2 == ops[q + 1].i1 && ops[q].j2 == ops[q + 1].j1)
    && (forall q :: 0 <= q < |ops| ==> WellShaped(ops[q]))
  }

  predicate WellShaped(op: Opcode) {
    && op.i1 <= op.i2 && op.j1 <= op.j2
    && (op.tag == Equal ==> op.i2 - op.i1 == op.j2 - op.j1)
    && (op.tag == Insert ==> op.i1 == op.i2)
    && (op.tag == Delete ==> op.j1 == op.j2)
  }

  /** Tiling opcodes stay inside the lists. */
  lemma TilesInBounds(ops: seq<Opcode>, n: nat, m: nat)
    requires Tiles(ops, n, m)
    ensures forall q :: 0 <= q < |ops| ==> InBounds(ops[q], n, m)
  {
    if |ops| > 0 {
      StartsBelow(ops, n, m, |ops| - 1);
      forall q | 0 <= q < |ops| ensures InBounds(ops[q], n, m) {
        StartsBelow(ops, n, m, q);
        EndsAbove(ops, n, m, q);
      }
    }
  }

  lemma {:induction false} StartsBelow(ops: seq<Opcode>, n: nat, m: nat, q: nat)
    requires Tiles(ops, n, m) && q < |ops|
    ensures ops[q].i1 <= ops[q].i2 && ops[q].j1 <= ops[q].j2
    ensures q > 0 ==> ops[q].i1 == ops[q - 1].i2 && ops[q].j1 == ops[q - 1].j2
  {
    assert WellShaped(ops[q]);
    if q > 0 {
      assert ops[q - 1].i2 == ops[q].i1;
    }
  }

  lemma {:induction false} EndsAbove(ops: seq<Opcode>, n: nat, m: nat, q: nat)
    requires Tiles(ops, n, m) && q < |ops|
    ensures ops[q].i2 <= n && ops[q].j2 <= m
    decreases |ops| - q
  {
    assert WellShaped(ops[q]);
    if q < |ops| - 1 {
      EndsAbove(ops, n, m, q + 1);
      assert WellShaped(ops[q + 1]);
      assert ops[q].i2 == ops[q + 1].i1;
    }
  }

  /** The expected words of a list of entries. */
  function ExpectedColumn(es: seq<Entry>): (ws: seq<Str>)
    ensures |ws| == |es|
  {
    seq(|es|, k requires 0 <= k < |es| => es[k].expected)
  }

  lemma ExpectedColumnAppend(a: seq<Entry>, b: seq<Entry>)
    ensures ExpectedColumn(a + b) == ExpectedColumn(a) + ExpectedColumn(b)
  {
  }

  /** A well-shaped block lists the expected words of its range, in order. */
  lemma BlockCoversRange(expected: seq<Str>, transcribed: seq<Timed>, op: Opcode)
    requires InBounds(op, |expected|, |transcribed|) && WellShaped(op)
    ensures ExpectedColumn(BlockEntries(expected, transcribed, op)) == expected[op.i1..op.i2]
  {
    var es := BlockEntries(expected, transcribed, op);
    if op.tag == Replace {
      var pairs := Min(op.i2 - op.i1, op.j2 - op.j1);
      ExpectedColumnAppend(Paired(expected, transcribed, op.i1, op.j1, pairs), Unspoken(expected, op.i1 + pairs, op.i2));
    }
    assert |es| == op.i2 - op.i1;
    forall k | 0 <= k < |es| ensures ExpectedColumn(es)[k] == expected[op.i1 + k] {
      if op.tag == Replace {
        var pairs := Min(op.i2 - op.i1, op.j2 - op.j1);
        if k >= pairs {
          assert es[k] == Unspoken(expected, op.i1 + pairs, op.i2)[k - pairs];
        }
      }
    }
  }

  /** With tiling opcodes, every expected word appears exactly once in the alignment, in its original order. */
  lemma AlignmentCoversExpected(expected: seq<Str>, transcribed: seq<Timed>, ops: seq<Opcode>)
    requires Tiles(ops, |expected|, |transcribed|)
    ensures forall q :: 0 <= q < |ops| ==> InBounds(ops[q], |expected|, |transcribed|)
    ensures ExpectedColumn(Alignment(expected, transcribed, ops, |ops|)) == expected
  {
    TilesInBounds(ops, |expected|, |transcribed|);
    ColumnOfTiling(expected, transcribed, ops);
  }

  lemma ColumnOfTiling(expected: seq<Str>, transcribed: seq<Timed>, ops: seq<Opcode>)
    requires Tiles(ops, |expected|, |transcribed|)
    requires forall q :: 0 <= q < |ops| ==> InBounds(ops[q], |expected|, |transcribed|)
    ensures ExpectedColumn(Alignment(expected, transcribed, ops, |ops|)) == expected
  {
    if |ops| > 0 {
      TilesChained(ops, |expected|, |transcribed|);
      ColumnOfChain(expected, transcribed, ops);
      WholeSlice(expected);
    } else {
      var column := ExpectedColumn(Alignment(expected, transcribed, ops, |ops|));
      assert |column| == 0 == |expected|;
    }
  }

  lemma ColumnOfChain(expected: seq<Str>, transcribed: seq<Timed>, ops: seq<Opcode>)
    requires ExpectedChained(ops) && |ops| > 0 && ops[|ops| - 1].i2 == |expected|
    requires forall q :: 0 <= q < |ops| ==> InBounds(ops[q], |expected|, |transcribed|)
    ensures ExpectedColumn(Alignment(expected, transcribed, ops, |ops|)) == expected[..|expected|]
  {
    AlignmentPrefix(expected, transcribed, ops, |ops|);
  }

  lemma TilesChained(ops: seq<Opcode>, n: nat, m: nat)
    requires Tiles(ops, n, m)
    ensures ExpectedChained(ops)
  {
  }

  lemma WholeSlice<T>(s: seq<T>)
    ensures s[..|s|] == s
  {
  }

  /** The expected-word side of a tiling: blocks start at 0 and each starts where the previous ends. */
  predicate ExpectedChained(ops: seq<Opcode>) {
    && (|ops| > 0 ==> ops[0].i1 == 0)
    && (forall q :: 0 <= q < |ops| - 1 ==> ops[q].i2 == ops[q + 1].i1)
    && (forall q :: 0 <= q < |ops| ==> WellShaped(ops[q]))
  }

  lemma {:induction false} AlignmentPrefix(expected: seq<Str>, transcribed: seq<Timed>, ops: seq<Opcode>, k: nat)
    requires ExpectedChained(ops)
    requires forall q :: 0 <= q < |ops| ==> InBounds(ops[q], |expected|, |transcribed|)
    requires 0 < k <= |ops|
    ensures ExpectedColumn(Alignment(expected, transcribed, ops, k)) == expected[..ops[k - 1].i2]
  {
    var op := ops[k - 1];
    assert WellShaped(op);
    BlockCoversRange(expected, transcribed, op);
    ExpectedColumnAppend(Alignment(expected, transcribed, ops, k - 1), BlockEntries(expected, transcribed, op));
    if k == 1 {
      assert Alignment(expected, transcribed, ops, 0) == [];
      assert expected[..op.i2] == expected[0..op.i2];
    } else {
      AlignmentPrefix(expected, transcribed, ops, k - 1);
      assert ops[k - 2].i2 == op.i1;
      assert expected[..op.i2] == expected[..op.i1] + expected[op.i1..op.i2];
    }
  }

  /** An equal or replace block pairs by position, copying the transcribed word and its timestamps. */
  lemma PairedEntries(expected: seq<Str>, transcribed: seq<Timed>, op: Opcode, k: nat)
    requires InBounds(op, |expected|, |transcribed|) && (op.tag == Equal || op.tag == Replace)
    requires k < Min(op.i2 - op.i1, op.j2 - op.j1)
    ensures var e := BlockEntries(expected, transcribed, op)[k];
      var t := transcribed[op.j1 + k];
      e == Entry(expected[op.i1 + k], t.word, t.start, t.end)
  {
  }

  /** The expected words a replace or delete block cannot pair are left unspoken, with zero timestamps; an insert block adds nothing. */
  lemma UnpairedEntries(expected: seq<Str>, transcribed: seq<Timed>, op: Opcode, k: nat)
    requires InBounds(op, |expected|, |transcribed|)
    requires (op.tag == Replace || op.tag == Delete) && k < op.i2 - op.i1
    requires op.tag == Replace ==> k >= Min(op.i2 - op.i1, op.j2 - op.j1)
    ensures |BlockEntries(expected, transcribed, op)| == op.i2 - op.i1
    ensures BlockEntries(expected, transcribed, op)[k] == Entry(expected[op.i1 + k], [], 0.0, 0.0)
    ensures BlockEntries(expected, transcribed, op.(tag := Insert)) == []
  {
    if op.tag == Replace {
      var pairs := Min(op.i2 - op.i1, op.j2 - op.j1);
      var es := BlockEntries(expected, transcribed, op);
      assert es[k] == Unspoken(expected, op.i1 + pairs, op.i2)[k - pairs];
    }
  }

  /** One word of the expert analysis: text, timestamps, verdict, rules and feedback. */
  datatype WordReport = WordReport(text: Str, start: real, end: real, valid: bool, confidence: real,
                                   tajweedRules: seq<TajweedTs.RuleResult>, feedback: Str)

  /** The inputs of the scoring loop that come from outside: audio, its segmentation, the beat. */
  datatype Signal = Signal(audioData: Option<TajweedPy.Samples>, extractSegment: (TajweedPy.Samples, real, real) -> Option<TajweedPy.Samples>, beatDuration: real)

  /** The expected word of the next aligned entry, or None after the last one. */
  function NextWordOf(aligned: seq<Entry>, idx: nat): (r: Option<Str>)
    ensures r.Some? <==> idx + 1 < |aligned|
    ensures r.Some? ==> r.value == aligned[idx + 1].expected
  {
    if idx + 1 < |aligned| then Some(aligned[idx + 1].expected) else None
  }

  /** The audio of one entry; none at all without audio data. */
  function SegmentOf(signal: Signal, entry: Entry): Option<TajweedPy.Samples> {
    if signal.audioData.Some? then signal.extractSegment(signal.audioData.value, entry.start, entry.end) else None
  }

  const ImproveFeedback: Str := "Améliorez la précision pour ce niveau."

  /** The report of aligned entry idx. */
  function ReportAt(env: TajweedPy.Env, aligned: seq<Entry>, level: int, signal: Signal, idx: nat): (w: WordReport)
    requires idx < |aligned|
    ensures w.text == aligned[idx].expected && w.start == aligned[idx].start && w.end == aligned[idx].end
    ensures w.feedback == [] <==> w.valid
  {
    var entry := aligned[idx];
    var v := TajweedPy.VerdictOf(env, entry.expected, entry.transcribed, level, NextWordOf(aligned, idx),
      SegmentOf(signal, entry), signal.beatDuration);
    WordReport(entry.expected, entry.start, entry.end, v.valid, v.confidence, v.rules,
      if v.valid then [] else ImproveFeedback)
  }

  /** The reports of the first n aligned entries. */
  function Reports(env: TajweedPy.Env, aligned: seq<Entry>, level: int, signal: Signal, n: nat): (ws: seq<WordReport>)
    requires n <= |aligned|
    ensures |ws| == n
  {
    if n == 0 then [] else Reports(env, aligned, level, signal, n - 1) + [ReportAt(env, aligned, level, signal, n - 1)]
  }

  /** Number of valid reports. */
  function ValidCount(ws: seq<WordReport>): (c: nat)
    ensures c <= |ws|
    ensures c == |ws| <==> forall k :: 0 <= k < |ws| ==> ws[k].valid
  {
    if ws == [] then 0 else ValidCount(ws[..|ws| - 1]) + (if ws[|ws| - 1].valid then 1 else 0)
  }

  /** The scoring loop of analyze_recitation: one report per aligned entry, and the number of valid words. */
  method ScoreWords(env: TajweedPy.Env, aligned: seq<Entry>, level: int, signal: Signal)
    returns (analysisWords: seq<WordReport>, matchedCount: nat)
    ensures analysisWords == Reports(env, aligned, level, signal, |aligned|)
    ensures matchedCount == ValidCount(analysisWords)
  {
    analysisWords := [];
    matchedCount := 0;
    for idx := 0 to |aligned|
      invariant analysisWords == Reports(env, aligned, level, signal, idx)
      invariant matchedCount == ValidCount(analysisWords)
    {
      var report := ScoreEntry(env, aligned, level, signal, idx);
      ValidCountSnoc(analysisWords, report);
      if report.valid {
        matchedCount := matchedCount + 1;
      }
      analysisWords := analysisWords + [report];
    }
  }

  /** The body of the scoring loop: analyse one aligned entry and build its report. */
  method ScoreEntry(env: TajweedPy.Env, aligned: seq<Entry>, level: int, signal: Signal, idx: nat) returns (report: WordReport)
    requires idx < |aligned|
    ensures report == ReportAt(env, aligned, level, signal, idx)
  {
    var entry := aligned[idx];
    var nextWord := NextWordOf(aligned, idx);
    var segment := if signal.audioData.Some? then signal.extractSegment(signal.audioData.value, entry.start, entry.end) else None;
    var wordAnalysis := TajweedPy.AnalyzeWord(env, entry.expected, entry.transcribed, level, nextWord, segment, signal.beatDuration);
    report := WordReport(entry.expected, entry.start, entry.end, wordAnalysis.valid, wordAnalysis.confidence,
      wordAnalysis.rules, if wordAnalysis.valid then [] else ImproveFeedback);
  }

  lemma ValidCountSnoc(ws: seq<WordReport>, r: WordReport)
    ensures ValidCount(ws + [r]) == ValidCount(ws) + (if r.valid then 1 else 0)
  {
    assert (ws + [r])[..|ws|] == ws;
  }

  /** Entry i of the reports is the report of aligned entry i. */
  lemma {:induction false} ReportsAt(env: TajweedPy.Env, aligned: seq<Entry>, level: int, signal: Signal, n: nat, i: nat)
    requires i < n <= |aligned|
    ensures Reports(env, aligned, level, signal, n)[i] == ReportAt(env, aligned, level, signal, i)
  {
    TajweedTs.AppendKeeps(Reports(env, aligned, level, signal, n - 1), ReportAt(env, aligned, level, signal, n - 1), i);
    if i < n - 1 {
      ReportsAt(env, aligned, level, signal, n - 1, i);
    }
  }

  /** The reports of the page words, aligned by tiling opcodes. */
  function PageReports(env: TajweedPy.Env, words: seq<Str>, transcribed: seq<Timed>, ops: seq<Opcode>, level: int, signal: Signal): (ws: seq<WordReport>)
    requires Tiles(ops, |words|, |transcribed|)
    ensures |ws| == |words|
  {
    AlignmentCoversExpected(words, transcribed, ops);
    var aligned := Alignment(words, transcribed, ops, |ops|);
    Reports(env, aligned, level, signal, |aligned|)
  }

  /** overall_score: valid words over expected words, 0 without expected words. */
  function OverallScore(matchedCount: nat, expectedCount: nat): real {
    if expectedCount == 0 then 0.0 else (matchedCount as real) / (expectedCount as real)
  }

  /** With tiling opcodes the score lies in [0, 1] and is 1 exactly when there are words and all are valid. */
  lemma ScoreInUnit(env: TajweedPy.Env, words: seq<Str>, transcribed: seq<Timed>, ops: seq<Opcode>, level: int, signal: Signal)
    requires Tiles(ops, |words|, |transcribed|)
    ensures var ws := PageReports(env, words, transcribed, ops, level, signal);
      var score := OverallScore(ValidCount(ws), |words|);
      && 0.0 <= score <= 1.0
      && (score == 1.0 <==> words != [] && forall k :: 0 <= k < |ws| ==> ws[k].valid)
  {
    var ws := PageReports(env, words, transcribed, ops, level, signal);
    RatioInUnit(ValidCount(ws), |ws|);
  }

  lemma RatioInUnit(c: nat, n: nat)
    requires c <= n
    ensures 0.0 <= OverallScore(c, n) <= 1.0
    ensures OverallScore(c, n) == 1.0 <==> n > 0 && c == n
  {
    if n > 0 {
      assert (c as real) / (n as real) * (n as real) == c as real;
    }
  }

  /** What the expert endpoint answers. */
  datatype Analysis = Analysed(overallScore: real, words: seq<WordReport>) | Failed(status: int)

  /** How the try block of analyze_recitation ends: with an answer, or by raising an HTTP error with a status. */
  datatype Attempt = Answered(analysis: Analysis) | RaisedHttp(status: int)

  /** No page text: get_quran_page_text gave None or an empty string. */
  predicate MissingText(pageText: Option<Str>) {
    pageText.None? || pageText.value == []
  }

  /**
   * The try block of analyze_recitation after the transcription: a missing
   * page text raises 404; otherwise the page words are aligned, scored and
   * summarised.
   */
  function AttemptOf(env: TajweedPy.Env, pageText: Option<Str>, transcribedWords: seq<Timed>, opcodes: seq<Opcode>,
                     difficultyLevel: int, signal: Signal): (a: Attempt)
    requires pageText.Some? ==> Tiles(opcodes, |Tokens(pageText.value, IsPySpace)|, |transcribedWords|)
    ensures a.RaisedHttp? <==> MissingText(pageText)
    ensures a.RaisedHttp? ==> a.status == 404
    ensures a.Answered? ==> a.analysis.Analysed? && |a.analysis.words| == |Tokens(pageText.value, IsPySpace)|
    ensures a.Answered? ==> a.analysis.overallScore == OverallScore(ValidCount(a.analysis.words), |a.analysis.words|)
  {
    if MissingText(pageText) then RaisedHttp(404)
    else
      var words := Tokens(pageText.value, IsPySpace);
      var ws := PageReports(env, words, transcribedWords, opcodes, difficultyLevel, signal);
      Answered(Analysed(OverallScore(ValidCount(ws), |words|), ws))
  }

  /** The statements of the try block: align, score, summarise, or raise 404 without page text. */
  method RunAnalysis(env: TajweedPy.Env, pageText: Option<Str>, transcribedWords: seq<Timed>, opcodes: seq<Opcode>,
                     difficultyLevel: int, signal: Signal) returns (attempt: Attempt)
    requires pageText.Some? ==> Tiles(opcodes, |Tokens(pageText.value, IsPySpace)|, |transcribedWords|)
    ensures attempt == AttemptOf(env, pageText, transcribedWords, opcodes, difficultyLevel, signal)
  {
    if pageText.None? || pageText.value == [] {
      return RaisedHttp(404);
    }
    var wordsExpected := Tokens(pageText.value, IsPySpace);
    TilesInBounds(opcodes, |wordsExpected|, |transcribedWords|);
    var aligned := AlignWords(wordsExpected, transcribedWords, opcodes);
    var analysisWords, matchedCount := ScoreWords(env, aligned, difficultyLevel, signal);
    var similarityRatio := if |wordsExpected| > 0 then (matchedCount as real) / (|wordsExpected| as real) else 0.0;
    attempt := Answered(Analysed(similarityRatio, analysisWords));
  }

  /**
   * The handler as written: `except Exception` also catches the HTTP error
   * raised for a missing page text, so every raised status becomes 500.
   */
  function HandledAsWritten(attempt: Attempt): (r: Analysis)
    ensures attempt.RaisedHttp? ==> r == Failed(500)
    ensures attempt.Answered? ==> r == attempt.analysis
  {
    match attempt
    case Answered(a) => a
    case RaisedHttp(_) => Failed(500)
  }

  /** The handler as intended: an HTTP error keeps its status. */
  function Handled(attempt: Attempt): (r: Analysis)
    ensures attempt.RaisedHttp? ==> r == Failed(attempt.status)
    ensures attempt.Answered? ==> r == attempt.analysis
  {
    match attempt
    case Answered(a) => a
    case RaisedHttp(s) => Failed(s)
  }

  /** analyze_recitation as written: the try block, then the catch-all handler. */
  method AnalyzeRecitationAsWritten(env: TajweedPy.Env, pageText: Option<Str>, transcribedWords: seq<Timed>, opcodes: seq<Opcode>,
                                    difficultyLevel: int, signal: Signal) returns (r: Analysis)
    requires pageText.Some? ==> Tiles(opcodes, |Tokens(pageText.value, IsPySpace)|, |transcribedWords|)
    ensures r == HandledAsWritten(AttemptOf(env, pageText, transcribedWords, opcodes, difficultyLevel, signal))
    ensures MissingText(pageText) ==> r == Failed(500)
  {
    var attempt := RunAnalysis(env, pageText, transcribedWords, opcodes, difficultyLevel, signal);
    r := HandledAsWritten(attempt);
  }

  /** analyze_recitation as intended: a missing page text answers 404; otherwise the page words are aligned, scored and summarised. */
  method AnalyzeRecitation(env: TajweedPy.Env, pageText: Option<Str>, transcribedWords: seq<Timed>, opcodes: seq<Opcode>,
                           difficultyLevel: int, signal: Signal) returns (r: Analysis)
    requires pageText.Some? ==> Tiles(opcodes, |Tokens(pageText.value, IsPySpace)|, |transcribedWords|)
    ensures MissingText(pageText) ==> r == Failed(404)
    ensures !MissingText(pageText) ==>
      var words := Tokens(pageText.value, IsPySpace);
      var ws := PageReports(env, words, transcribedWords, opcodes, difficultyLevel, signal);
      r == Analysed(OverallScore(ValidCount(ws), |words|), ws)
  {
    var attempt := RunAnalysis(env, pageText, transcribedWords, opcodes, difficultyLevel, signal);
    r := Handled(attempt);
  }

  /**
   * A missing page text is answered 500 by the endpoint as written and 404 as
   * intended; with a page text both answer the same analysis.
   */
  lemma MissingTextBecomes500(env: TajweedPy.Env, pageText: Option<Str>, transcribedWords: seq<Timed>, opcodes: seq<Opcode>,
                              difficultyLevel: int, signal: Signal)
    requires pageText.Some? ==> Tiles(opcodes, |Tokens(pageText.value, IsPySpace)|, |transcribedWords|)
    ensures var a := AttemptOf(env, pageText, transcribedWords, opcodes, difficultyLevel, signal);
      && (MissingText(pageText) ==> HandledAsWritten(a) == Failed(500) && Handled(a) == Failed(404))
      && (!MissingText(pageText) ==> HandledAsWritten(a) == Handled(a) && HandledAsWritten(a).Analysed?)
  {
  }

  /** What validate_recitation answers. */
  datatype ValidateResponse = TranscriptionFailed | Validated(valid: bool, feedback: Str)

  const NotHeard: Str := "Je n'ai pas pu entendre votre récitation. Parlez plus fort."
  const TextMissing: Str := "Texte Coranique introuvable, validation simulée."
  const Excellent: Str := "MachaAllah ! Récitation excellente."
  const TooFar: Str := "Trop d'écarts. Révisez bien."

  /** The three tiers: at least 0.85 valid, below 0.50 invalid, in between valid from 0.70 with the AI coach's feedback. */
  function Tier(ratio: real, coach: Str): (r: ValidateResponse)
    ensures r.Validated?
    ensures r.valid <==> ratio >= 0.70
  {
    if ratio >= 0.85 then Validated(true, Excellent)
    else if ratio < 0.50 then Validated(false, TooFar)
    else Validated(ratio >= 0.70, coach)
  }

  /**
   * validate_recitation after the upload: a failed transcription answers 400,
   * a transcription under 3 characters is invalid, a missing page text is
   * accepted, and otherwise the similarity of the normalised texts decides.
   */
  function ValidateRecitation(cc: QuranPy.CharClasses, ratio: (Str, Str) -> real, coach: (Str, Str, real) -> Str,
                              transcription: Option<Str>, pageText: Option<Str>): (r: ValidateResponse)
    ensures transcription.None? <==> r == TranscriptionFailed
    ensures transcription.Some? && |transcription.value| < 3 ==> r == Validated(false, NotHeard)
    ensures transcription.Some? && |transcription.value| >= 3 && (pageText.None? || pageText.value == []) ==>
      r == Validated(true, TextMissing)
  {
    if transcription.None? then TranscriptionFailed
    else if |transcription.value| < 3 then Validated(false, NotHeard)
    else if pageText.None? || pageText.value == [] then Validated(true, TextMissing)
    else
      var cleanExpected := QuranPy.NormalizeArabic(cc, pageText.value);
      var cleanStudent := QuranPy.NormalizeArabic(cc, transcription.value);
      var similarity := ratio(cleanExpected, cleanStudent);
      Tier(similarity, coach(cleanExpected, cleanStudent, similarity))
  }

  /** A recitation with a page text is valid exactly when its transcription has 3 characters and the similarity reaches 0.70. */
  lemma ValidationThreshold(cc: QuranPy.CharClasses, ratio: (Str, Str) -> real, coach: (Str, Str, real) -> Str, transcription: Str, pageText: Str)
    requires pageText != []
    ensures var r := ValidateRecitation(cc, ratio, coach, Some(transcription), Some(pageText));
      r.Validated? && (r.valid <==> (|transcription| >= 3 &&
        ratio(QuranPy.NormalizeArabic(cc, pageText), QuranPy.NormalizeArabic(cc, transcription)) >= 0.70))
  {
  }

  /**
   * The progress table after a validation: a valid recitation upserts the
   * (user, page) row as mastered, the same upsert as the user routes. An
   * existing row is stamped with the local clock, a new one with the
   * column's UTC default.
   */
  function RecordValidation(progress: seq<Users.ProgressRow>, user: int, page: int, valid: bool, localNow: Users.Moment, utcNow: Users.Moment): (p: seq<Users.ProgressRow>)
    ensures var existed := exists k :: 0 <= k < |progress| && Users.HasKey(progress, k, user, page);
      && (valid && existed ==> exists i :: 0 <= i < |p| && p[i] == Users.ProgressRow(user, page, "mastered", localNow))
      && (valid && !existed ==> p == progress + [Users.ProgressRow(user, page, "mastered", utcNow)])
    ensures Users.UniqueKeys(progress) ==> Users.UniqueKeys(p)
    ensures forall row :: row in progress && (row.userId, row.pageNumber) != (user, page) ==> row in p
    ensures forall row :: row in p && (row.userId, row.pageNumber) != (user, page) ==> row in progress
    ensures !valid ==> p == progress
  {
    Users.UpsertFacts(progress, user, page, "mastered", localNow, utcNow);
    if valid then Users.Upserted(progress, user, page, "mastered", localNow, utcNow) else progress
  }
}
