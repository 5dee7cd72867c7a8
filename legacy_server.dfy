/**
 * The validation route of the legacy single-file server: its own Arabic
 * normaliser, the fuzzy word similarity, the windowed best-match search, the
 * alignment walk with a monotone student cursor, the length penalty, the
 * grouping of unmatched words into missing passages and the verdict tiers.
 * The sequence matcher ratio, the Unicode digit class, the transcription and
 * the AI coach are external; their outputs are parameters.
 */
module LegacyServer {
  import opened Text
  import opened Wrappers
  import opened Arabic
  import QuranPy

  // ---------------------------------------------------------------------------
  // The nested normalize_arabic
  // ---------------------------------------------------------------------------

  /** أ إ آ ٱ, folded to ا. */
  predicate IsAlefVariant(c: char) {
    QuranPy.IsHamzatedAlef(c) || c == AlefWasla
  }

  /** Quranic annotation marks: U+06D6 to U+06ED (small Waw and small Yeh U+06E5, U+06E6 among them). */
  predicate IsAnnotation(c: char) {
    '\U{06D6}' <= c <= '\U{06ED}'
  }

  /** The small high signs U+0615 to U+061A. */
  predicate IsSmallHighSign(c: char) {
    '\U{0615}' <= c <= '\U{061A}'
  }

  /** The sajda, rub el hizb and end-of-ayah marks U+06D4, U+06DD to U+06E0 and U+06E9. */
  predicate IsSectionMark(c: char) {
    c == '\U{06D4}' || ('\U{06DD}' <= c <= '\U{06E0}') || c == '\U{06E9}'
  }

  /** The ornate parentheses around verse numbers and the Arabic-Indic digits. */
  predicate IsVerseSymbol(c: char) {
    c == '\U{FD3E}' || c == '\U{FD3F}' || ('\U{0660}' <= c <= '\U{0669}')
  }

  /** What the character filter keeps: U+0620 to U+064A, and whitespace. */
  predicate InArabicBlockOrSpace(c: char) {
    ('\U{0620}' <= c <= '\U{064A}') || IsPySpace(c)
  }

  /** A letter the normaliser can output: U+0620 to U+064A without ء آ أ إ ة ـ ى. */
  predicate IsKeptLetter(c: char) {
    && '\U{0620}' <= c <= '\U{064A}'
    && c != Hamza && c != AlefMaddaAbove && c != AlefHamzaAbove && c != AlefHamzaBelow
    && c != TehMarbuta && c != Tatweel && c != AlefMaksura
  }

  predicate IsAlefWasla(c: char) { c == AlefWasla }
  predicate IsTehMarbuta(c: char) { c == TehMarbuta }
  predicate IsHamza(c: char) { c == Hamza }
  predicate OutsideBlock(c: char) { !InArabicBlockOrSpace(c) }

  /** Steps 1 to 5: marks deleted, then ٱ, the other Alef variants, ة and ى folded. */
  function FoldLetters(text: Str): (r: Str)
    ensures forall c :: c in r ==> !IsAlefVariant(c) && !IsTehMarbuta(c) && !QuranPy.IsAlefMaksura(c)
  {
    var s1 := Remove(text, QuranPy.IsHaraka);
    var s2 := Replace(s1, IsAlefWasla, Alef);
    var s3 := Replace(s2, IsAlefVariant, Alef);
    var s4 := Replace(s3, IsTehMarbuta, Heh);
    ReplaceChars(s2, IsAlefVariant, Alef);
    ReplaceChars(s3, IsTehMarbuta, Heh);
    ReplaceChars(s4, QuranPy.IsAlefMaksura, Yeh);
    Replace(s4, QuranPy.IsAlefMaksura, Yeh)
  }

  /** Steps 6 to 11: tatweel, annotation marks, Hamza, verse symbols and digits deleted, then everything outside U+0620 to U+064A but whitespace. */
  function DropMarks(isDigit: char -> bool, s: Str): (r: Str)
    ensures forall c :: c in r ==> c in s && !QuranPy.IsTatweel(c) && !IsHamza(c) && InArabicBlockOrSpace(c)
  {
    var s6 := Remove(s, QuranPy.IsTatweel);
    var s7 := Remove(Remove(s6, IsAnnotation), IsSmallHighSign);
    var s8 := Remove(s7, IsSectionMark);
    var s9 := Remove(s8, IsHamza);
    var s10 := Remove(Remove(s9, IsVerseSymbol), isDigit);
    Remove(s10, OutsideBlock)
  }

  /** The character substitutions and deletions, in the order the normaliser applies them. */
  function Clean(isDigit: char -> bool, text: Str): (r: Str)
    ensures forall c :: c in r ==> IsKeptLetter(c) || IsPySpace(c)
    ensures forall c :: c in text && IsKeptLetter(c) && !isDigit(c) ==> c in r
    ensures forall c :: c in text && IsAlefVariant(c) && !isDigit(Alef) ==> Alef in r
    ensures forall c :: c in text && IsTehMarbuta(c) && !isDigit(Heh) ==> Heh in r
    ensures forall c :: c in text && QuranPy.IsAlefMaksura(c) && !isDigit(Yeh) ==> Yeh in r
  {
    CleanKeeps(isDigit, text);
    DropMarks(isDigit, FoldLetters(text))
  }

  /** Where steps 1 to 5 send a character they do not delete. */
  function FoldChar(c: char): char {
    if IsAlefVariant(c) then Alef
    else if IsTehMarbuta(c) then Heh
    else if QuranPy.IsAlefMaksura(c) then Yeh
    else c
  }

  /** A character the marks step does not delete reaches the folded text in its folded form. */
  lemma FoldedIn(text: Str, c: char)
    requires c in text && !QuranPy.IsHaraka(c)
    ensures FoldChar(c) in FoldLetters(text)
  {
    var s1 := Remove(text, QuranPy.IsHaraka);
    var s2 := Replace(s1, IsAlefWasla, Alef);
    var s3 := Replace(s2, IsAlefVariant, Alef);
    var s4 := Replace(s3, IsTehMarbuta, Heh);
    var c2 := ReplaceMaps(s1, IsAlefWasla, Alef, c);
    var c3 := ReplaceMaps(s2, IsAlefVariant, Alef, c2);
    var c4 := ReplaceMaps(s3, IsTehMarbuta, Heh, c3);
    var c5 := ReplaceMaps(s4, QuranPy.IsAlefMaksura, Yeh, c4);
    assert c5 == FoldChar(c);
  }

  /** Steps 6 to 11 keep every kept letter that is not a digit. */
  lemma DropKeeps(isDigit: char -> bool, s: Str, c: char)
    requires c in s && IsKeptLetter(c) && !isDigit(c)
    ensures c in DropMarks(isDigit, s)
  {
  }

  /** The letters a mixed text keeps, and the folded forms of the Alef variants, ة and ى, reach the cleaned text. */
  lemma CleanKeeps(isDigit: char -> bool, text: Str)
    ensures var r := DropMarks(isDigit, FoldLetters(text));
      && (forall c :: c in text && IsKeptLetter(c) && !isDigit(c) ==> c in r)
      && (forall c :: c in text && IsAlefVariant(c) && !isDigit(Alef) ==> Alef in r)
      && (forall c :: c in text && IsTehMarbuta(c) && !isDigit(Heh) ==> Heh in r)
      && (forall c :: c in text && QuranPy.IsAlefMaksura(c) && !isDigit(Yeh) ==> Yeh in r)
  {
    forall c | c in text && IsKeptLetter(c) && !isDigit(c) ensures c in DropMarks(isDigit, FoldLetters(text)) {
      Cleaned(isDigit, text, c, c);
    }
    forall c | c in text && IsAlefVariant(c) && !isDigit(Alef) ensures Alef in DropMarks(isDigit, FoldLetters(text)) {
      Cleaned(isDigit, text, c, Alef);
    }
    forall c | c in text && IsTehMarbuta(c) && !isDigit(Heh) ensures Heh in DropMarks(isDigit, FoldLetters(text)) {
      Cleaned(isDigit, text, c, Heh);
    }
    forall c | c in text && QuranPy.IsAlefMaksura(c) && !isDigit(Yeh) ensures Yeh in DropMarks(isDigit, FoldLetters(text)) {
      Cleaned(isDigit, text, c, Yeh);
    }
  }

  /** A character of the text whose folded form d is a kept letter that is not a digit reaches the cleaned text as d. */
  lemma Cleaned(isDigit: char -> bool, text: Str, c: char, d: char)
    requires c in text && !QuranPy.IsHaraka(c) && d == FoldChar(c)
    requires IsKeptLetter(d) && !isDigit(d)
    ensures d in DropMarks(isDigit, FoldLetters(text))
  {
    FoldedIn(text, c);
    DropKeeps(isDigit, FoldLetters(text), d);
  }

  /** The nested normalize_arabic: the substitutions, whitespace runs collapsed to one space, then strip. */
  function NormalizeArabic(isDigit: char -> bool, text: Str): (r: Str)
    ensures forall c :: c in r ==> IsKeptLetter(c) || c == ' '
    ensures r == [] || (r[0] != ' ' && r[|r| - 1] != ' ')
    ensures forall i :: 0 <= i < |r| - 1 ==> !(r[i] == ' ' && r[i + 1] == ' ')
    ensures forall c :: c in text && IsKeptLetter(c) && !isDigit(c) ==> c in r
    ensures forall c :: c in text && IsAlefVariant(c) && !isDigit(Alef) ==> Alef in r
    ensures forall c :: c in text && IsTehMarbuta(c) && !isDigit(Heh) ==> Heh in r
    ensures forall c :: c in text && QuranPy.IsAlefMaksura(c) && !isDigit(Yeh) ==> Yeh in r
  {
    var collapsed := CollapseSpaces(Clean(isDigit, text), IsPySpace);
    TrimSingleSpaces(collapsed);
    TrimKeeps(collapsed, IsPySpace);
    assert forall c :: IsKeptLetter(c) ==> !IsPySpace(c);
    Trim(collapsed, IsPySpace)
  }

  /** Stripping a string whose only whitespace is single spaces keeps it that way. */
  lemma TrimSingleSpaces(s: Str)
    requires forall i :: 0 <= i < |s| && IsPySpace(s[i]) ==> s[i] == ' '
    requires forall i :: 0 <= i < |s| - 1 ==> !(IsPySpace(s[i]) && IsPySpace(s[i + 1]))
    ensures var r := Trim(s, IsPySpace);
      && (forall i :: 0 <= i < |r| && IsPySpace(r[i]) ==> r[i] == ' ')
      && (forall i :: 0 <= i < |r| - 1 ==> !(r[i] == ' ' && r[i + 1] == ' '))
  {
    var a := LeadingRun(s, IsPySpace);
    var t := s[a..];
    var b := TrailingStart(t, IsPySpace);
    var r := Trim(s, IsPySpace);
    assert r == t[..b];
    forall i | 0 <= i < |r| ensures r[i] == s[a + i] {
    }
  }

  /** Applying the normaliser to its own output changes nothing. */
  lemma NormalizeIdempotent(isDigit: char -> bool, text: Str)
    requires forall c :: IsKeptLetter(c) || c == ' ' ==> !isDigit(c)
    ensures NormalizeArabic(isDigit, NormalizeArabic(isDigit, text)) == NormalizeArabic(isDigit, text)
  {
    var r := NormalizeArabic(isDigit, text);
    CleanUntouched(isDigit, r);
    CollapseUntouched(r);
    TrimUntouched(r, IsPySpace);
  }

  /** The substitutions leave alone a string of kept letters and spaces. */
  lemma CleanUntouched(isDigit: char -> bool, s: Str)
    requires forall c :: IsKeptLetter(c) || c == ' ' ==> !isDigit(c)
    requires forall c :: c in s ==> IsKeptLetter(c) || c == ' '
    ensures Clean(isDigit, s) == s
  {
    FoldUntouched(s);
    DropUntouched(isDigit, s);
  }

  lemma FoldUntouched(s: Str)
    requires forall c :: c in s ==> IsKeptLetter(c) || c == ' '
    ensures FoldLetters(s) == s
  {
    RemoveNothing(s, QuranPy.IsHaraka);
    ReplaceNothing(s, IsAlefWasla, Alef);
    ReplaceNothing(s, IsAlefVariant, Alef);
    ReplaceNothing(s, IsTehMarbuta, Heh);
    ReplaceNothing(s, QuranPy.IsAlefMaksura, Yeh);
  }

  lemma DropUntouched(isDigit: char -> bool, s: Str)
    requires forall c :: IsKeptLetter(c) || c == ' ' ==> !isDigit(c)
    requires forall c :: c in s ==> IsKeptLetter(c) || c == ' '
    ensures DropMarks(isDigit, s) == s
  {
    RemoveNothing(s, QuranPy.IsTatweel);
    RemoveNothing(s, IsAnnotation);
    RemoveNothing(s, IsSmallHighSign);
    RemoveNothing(s, IsSectionMark);
    RemoveNothing(s, IsHamza);
    RemoveNothing(s, IsVerseSymbol);
    RemoveNothing(s, isDigit);
    RemoveNothing(s, OutsideBlock);
  }

  /** Collapsing a string without two adjacent spaces or other whitespace changes nothing. */
  lemma {:induction false} CollapseUntouched(s: Str)
    requires forall c :: c in s ==> IsKeptLetter(c) || c == ' '
    requires forall i :: 0 <= i < |s| - 1 ==> !(s[i] == ' ' && s[i + 1] == ' ')
    ensures CollapseSpaces(s, IsPySpace) == s
    decreases |s|
  {
    if s != [] {
      var t := s[1..];
      KeptOrSpace(s, 0);
      forall i | 0 <= i < |t| ensures IsKeptLetter(t[i]) || t[i] == ' ' {
        KeptOrSpace(s, i + 1);
      }
      CollapseUntouched(t);
      if IsPySpace(s[0]) {
        if |s| > 1 {
          KeptOrSpace(s, 1);
        }
        assert LeadingRun(s, IsPySpace) == 1;
        assert s[1..] == t;
      }
    }
  }

  /** Every character of a cleaned string is a kept letter, which is never whitespace, or the space itself. */
  lemma KeptOrSpace(s: Str, i: nat)
    requires forall c :: c in s ==> IsKeptLetter(c) || c == ' '
    requires i < |s|
    ensures IsKeptLetter(s[i]) || s[i] == ' '
    ensures IsPySpace(s[i]) <==> s[i] == ' '
  {
    assert s[i] in s;
  }

  // ---------------------------------------------------------------------------
  // word_similarity
  // ---------------------------------------------------------------------------

  /** The set of the three-character slices of a word. */
  function Trigrams(a: Str): set<Str> {
    set i | 0 <= i < |a| - 2 :: Trigram(a, i)
  }

  function Trigram(a: Str, i: nat): Str
    requires i + 3 <= |a|
  {
    a[i..i + 3]
  }

  function MaxReal(x: real, y: real): real {
    if x >= y then x else y
  }

  function MaxNat(x: nat, y: nat): nat {
    if x >= y then x else y
  }

  /** Shared trigrams over the larger trigram set (at least 1). */
  function TrigramScore(a: Str, b: Str): (s: real)
    ensures 0.0 <= s <= 1.0
  {
    var ta := Trigrams(a);
    var tb := Trigrams(b);
    var d := MaxNat(MaxNat(|ta|, |tb|), 1);
    SubsetSize(ta * tb, ta);
    assert |ta * tb| <= d;
    var q := (|ta * tb| as real) / (d as real);
    assert q * (d as real) == |ta * tb| as real;
    q
  }

  lemma {:induction false} SubsetSize<T>(a: set<T>, b: set<T>)
    requires a <= b
    ensures |a| <= |b|
    decreases |b|
  {
    if a != {} {
      var x :| x in a;
      SubsetSize(a - {x}, b - {x});
    }
  }

  /**
   * word_similarity: 1 for equal words, 0 when exactly one is empty, 0.80 when
   * one contains the other, otherwise the matcher ratio, raised to 0.8 times
   * the trigram score when both words have 3 characters and share a trigram.
   */
  function WordSimilarity(ratio: (Str, Str) -> real, a: Str, b: Str): (s: real)
    ensures a == b ==> s == 1.0
    ensures a != b && (a == [] || b == []) ==> s == 0.0
    ensures a != b && a != [] && b != [] && (IsSubstring(a, b) || IsSubstring(b, a)) ==> s == 0.80
  {
    if a == b then 1.0
    else if a == [] || b == [] then 0.0
    else if IsSubstring(a, b) || IsSubstring(b, a) then 0.80
    else if |a| >= 3 && |b| >= 3 && Trigrams(a) * Trigrams(b) != {} then
      MaxReal(ratio(a, b), TrigramScore(a, b) * 0.8)
    else ratio(a, b)
  }

  /** A matcher ratio in [0, 1] gives a similarity in [0, 1]. */
  lemma SimilarityInUnit(ratio: (Str, Str) -> real, a: Str, b: Str)
    requires 0.0 <= ratio(a, b) <= 1.0
    ensures 0.0 <= WordSimilarity(ratio, a, b) <= 1.0
  {
  }

  // ---------------------------------------------------------------------------
  // find_best_match_in_window
  // ---------------------------------------------------------------------------

  /** max(0, cursor - 5). */
  function WindowStart(cursor: nat): nat {
    if cursor >= 5 then cursor - 5 else 0
  }

  /** min(n_student, cursor + 40). */
  function WindowEnd(cursor: nat, n: nat): nat {
    if n <= cursor + 40 then n else cursor + 40
  }

  /** 0.40 for words longer than 2 characters, 0.50 for short particles. */
  function MinScore(w: Str): real {
    if |w| > 2 then 0.40 else 0.50
  }

  /**
   * The best (index, score) over student[lo..hi], starting from (-1, 0.0) and
   * taking an index only when its score is strictly greater: the first index
   * of the highest positive score, or -1 when no score is positive.
   */
  function BestIn(ratio: (Str, Str) -> real, w: Str, student: seq<Str>, lo: nat, hi: nat): (b: (int, real))
    requires hi <= |student|
    ensures b.0 == -1 ==> b.1 == 0.0 && forall k :: lo <= k < hi ==> WordSimilarity(ratio, w, student[k]) <= 0.0
    ensures b.0 != -1 ==> lo <= b.0 < hi && b.1 == WordSimilarity(ratio, w, student[b.0]) && b.1 > 0.0
    ensures b.0 != -1 ==> forall k :: lo <= k < hi ==> WordSimilarity(ratio, w, student[k]) <= b.1
    ensures b.0 != -1 ==> forall k :: lo <= k < b.0 ==> WordSimilarity(ratio, w, student[k]) < b.1
    decreases hi
  {
    if hi <= lo then (-1, 0.0)
    else
      var prev := BestIn(ratio, w, student, lo, hi - 1);
      var s := WordSimilarity(ratio, w, student[hi - 1]);
      if s > prev.1 then (hi - 1, s) else prev
  }

  /** What find_best_match_in_window returns: the best index if its score reaches the minimum, else -1, with the best score. */
  function BestMatch(ratio: (Str, Str) -> real, w: Str, student: seq<Str>, cursor: nat): (r: (int, real)) {
    var b := BestIn(ratio, w, student, WindowStart(cursor), WindowEnd(cursor, |student|));
    if b.1 >= MinScore(w) then b else (-1, b.1)
  }

  /** A match is found exactly when some word of the window reaches the minimum score; the match is the first best one. */
  lemma BestMatchFound(ratio: (Str, Str) -> real, w: Str, student: seq<Str>, cursor: nat)
    ensures var r := BestMatch(ratio, w, student, cursor);
      var lo := WindowStart(cursor);
      var hi := WindowEnd(cursor, |student|);
      && (r.0 >= 0 <==> exists k :: lo <= k < hi && WordSimilarity(ratio, w, student[k]) >= MinScore(w))
      && (r.0 >= 0 ==> lo <= r.0 < hi && r.0 < |student| && r.1 == WordSimilarity(ratio, w, student[r.0]) >= MinScore(w))
      && (r.0 >= 0 ==> forall k :: lo <= k < hi ==> WordSimilarity(ratio, w, student[k]) <= r.1)
  {
    var lo := WindowStart(cursor);
    var hi := WindowEnd(cursor, |student|);
    var b := BestIn(ratio, w, student, lo, hi);
    if exists k :: lo <= k < hi && WordSimilarity(ratio, w, student[k]) >= MinScore(w) {
      var k :| lo <= k < hi && WordSimilarity(ratio, w, student[k]) >= MinScore(w);
      assert b.0 != -1;
    }
  }

  /** find_best_match_in_window over the window around the cursor. */
  method FindBestMatchInWindow(ratio: (Str, Str) -> real, expectedWord: Str, studentList: seq<Str>, cursor: nat)
    returns (idx: int, score: real)
    ensures (idx, score) == BestMatch(ratio, expectedWord, studentList, cursor)
  {
    var bestScore := 0.0;
    var bestIdx := -1;
    var minScore := if |expectedWord| > 2 then 0.40 else 0.50;
    var searchStart := if cursor >= 5 then cursor - 5 else 0;
    var searchEnd := if |studentList| <= cursor + 40 then |studentList| else cursor + 40;
    var i := searchStart;
    while i < searchEnd
      invariant searchStart <= i
      invariant i <= searchEnd ==> (bestIdx, bestScore) == BestIn(ratio, expectedWord, studentList, searchStart, i)
      invariant i > searchEnd ==> i == searchStart && bestIdx == -1 && bestScore == 0.0
    {
      var s := WordSimilarity(ratio, expectedWord, studentList[i]);
      assert BestIn(ratio, expectedWord, studentList, searchStart, i + 1) ==
        if s > bestScore then (i, s) else (bestIdx, bestScore);
      if s > bestScore {
        bestScore := s;
        bestIdx := i;
      }
      i := i + 1;
    }
    if bestScore >= minScore {
      return bestIdx, bestScore;
    }
    return -1, bestScore;
  }

  // ---------------------------------------------------------------------------
  // The alignment walk
  // ---------------------------------------------------------------------------

  /** One entry of word_matches: (expected_word, matched, score). */
  datatype WordMatch = WordMatch(word: Str, matched: bool, score: real)

  /** The state after the first k expected words: the student cursor and the matches so far. */
  datatype Walk = Walk(cursor: nat, matches: seq<WordMatch>)

  /** The entry recorded for word w searched around the cursor. */
  function Found(ratio: (Str, Str) -> real, w: Str, student: seq<Str>, cursor: nat): WordMatch {
    var m := BestMatch(ratio, w, student, cursor);
    WordMatch(w, m.0 >= 0, m.1)
  }

  /** One step of the walk: search around the cursor, record the outcome, and on a match move the cursor to max(cursor, idx + 1). */
  function Advance(ratio: (Str, Str) -> real, w: Str, student: seq<Str>, prev: Walk): (next: Walk)
    requires prev.cursor <= |student|
    ensures prev.cursor <= next.cursor <= |student|
    ensures next.matches == prev.matches + [Found(ratio, w, student, prev.cursor)]
  {
    var m := BestMatch(ratio, w, student, prev.cursor);
    BestMatchFound(ratio, w, student, prev.cursor);
    if m.0 >= 0 then
      Walk(if prev.cursor >= m.0 + 1 then prev.cursor else m.0 + 1, prev.matches + [WordMatch(w, true, m.1)])
    else Walk(prev.cursor, prev.matches + [WordMatch(w, false, m.1)])
  }

  /** The walk over the first k expected words. */
  function Walked(ratio: (Str, Str) -> real, expected: seq<Str>, student: seq<Str>, k: nat): (w: Walk)
    requires k <= |expected|
    ensures |w.matches| == k
    ensures w.cursor <= |student|
  {
    if k == 0 then Walk(0, [])
    else Advance(ratio, expected[k - 1], student, Walked(ratio, expected, student, k - 1))
  }

  /** Number of matched entries. */
  function MatchedCount(ms: seq<WordMatch>): (c: nat)
    ensures c <= |ms|
  {
    if ms == [] then 0 else MatchedCount(ms[..|ms| - 1]) + (if ms[|ms| - 1].matched then 1 else 0)
  }

  /** One step of the walk never moves the cursor back. */
  lemma CursorStep(ratio: (Str, Str) -> real, expected: seq<Str>, student: seq<Str>, k: nat)
    requires 0 < k <= |expected|
    ensures Walked(ratio, expected, student, k - 1).cursor <= Walked(ratio, expected, student, k).cursor
  {
  }

  /** The student cursor never moves back. */
  lemma {:induction false} CursorMonotone(ratio: (Str, Str) -> real, expected: seq<Str>, student: seq<Str>, j: nat, k: nat)
    requires j <= k <= |expected|
    ensures Walked(ratio, expected, student, j).cursor <= Walked(ratio, expected, student, k).cursor
    decreases k - j
  {
    if j < k {
      CursorMonotone(ratio, expected, student, j, k - 1);
      CursorStep(ratio, expected, student, k);
      var a := Walked(ratio, expected, student, j).cursor;
      var b := Walked(ratio, expected, student, k - 1).cursor;
      var c := Walked(ratio, expected, student, k).cursor;
      assert a <= b <= c;
    } else {
      assert j == k;
    }
  }

  /** Entry i records expected word i, matched exactly when the search around the cursor of the moment found a word. */
  lemma {:induction false} WalkedAt(ratio: (Str, Str) -> real, expected: seq<Str>, student: seq<Str>, k: nat, i: nat)
    requires i < k <= |expected|
    ensures Walked(ratio, expected, student, k).matches[i] == Found(ratio, expected[i], student, Walked(ratio, expected, student, i).cursor)
  {
    var prev := Walked(ratio, expected, student, k - 1);
    var w := Walked(ratio, expected, student, k);
    assert w.matches == prev.matches + [Found(ratio, expected[k - 1], student, prev.cursor)];
    if i < k - 1 {
      assert w.matches[i] == prev.matches[i];
      WalkedAt(ratio, expected, student, k - 1, i);
    }
  }

  /** The alignment loop: one entry per expected word, the matched count, and the cursor. */
  method AlignWords(ratio: (Str, Str) -> real, expectedWords: seq<Str>, studentWords: seq<Str>)
    returns (matchedCount: nat, wordMatches: seq<WordMatch>, studentCursor: nat)
    ensures Walk(studentCursor, wordMatches) == Walked(ratio, expectedWords, studentWords, |expectedWords|)
    ensures matchedCount == MatchedCount(wordMatches) <= |expectedWords|
  {
    matchedCount := 0;
    studentCursor := 0;
    wordMatches := [];
    for i := 0 to |expectedWords|
      invariant Walk(studentCursor, wordMatches) == Walked(ratio, expectedWords, studentWords, i)
      invariant matchedCount == MatchedCount(wordMatches)
    {
      var expWord := expectedWords[i];
      var idx, score := FindBestMatchInWindow(ratio, expWord, studentWords, studentCursor);
      BestMatchFound(ratio, expWord, studentWords, studentCursor);
      var entry;
      if idx >= 0 {
        matchedCount := matchedCount + 1;
        entry := WordMatch(expWord, true, score);
        studentCursor := if studentCursor >= idx + 1 then studentCursor else idx + 1;
      } else {
        entry := WordMatch(expWord, false, score);
      }
      assert (wordMatches + [entry])[..|wordMatches|] == wordMatches;
      wordMatches := wordMatches + [entry];
    }
  }

  // ---------------------------------------------------------------------------
  // Length penalty and ratio
  // ---------------------------------------------------------------------------

  /** Coverage times the length penalty, which applies when the student said fewer than 80% as many words; 0 without expected words. */
  function SimilarityRatio(matched: nat, nExpected: nat, nStudent: nat): real {
    if nExpected == 0 then 0.0
    else
      var penalty := if (nStudent as real) < (nExpected as real) * 0.8 then (nStudent as real) / ((nExpected as real) * 0.8) else 1.0;
      ((matched as real) / (nExpected as real)) * penalty
  }

  /** The ratio lies in [0, 1]; without a penalty it is the coverage, and it is 1 exactly when every word matched and the student said enough words. */
  lemma RatioBounds(matched: nat, nExpected: nat, nStudent: nat)
    requires matched <= nExpected
    ensures 0.0 <= SimilarityRatio(matched, nExpected, nStudent) <= 1.0
    ensures nExpected > 0 && (nStudent as real) >= (nExpected as real) * 0.8 ==>
      SimilarityRatio(matched, nExpected, nStudent) == (matched as real) / (nExpected as real)
    ensures SimilarityRatio(matched, nExpected, nStudent) == 1.0 <==>
      nExpected > 0 && matched == nExpected && (nStudent as real) >= (nExpected as real) * 0.8
  {
    if nExpected > 0 {
      var n := nExpected as real;
      Fraction(matched as real, n);
      if (nStudent as real) < n * 0.8 {
        Fraction(nStudent as real, n * 0.8);
        ProductBelowOne((matched as real) / n, (nStudent as real) / (n * 0.8));
      }
    }
  }

  /** a / b for 0 <= a <= b lies in [0, 1] and is 1 exactly when a == b. */
  lemma Fraction(a: real, b: real)
    requires 0.0 <= a <= b && b > 0.0
    ensures 0.0 <= a / b <= 1.0
    ensures a / b == 1.0 <==> a == b
  {
    assert (a / b) * b == a;
  }

  lemma ProductBelowOne(x: real, y: real)
    requires 0.0 <= x <= 1.0 && 0.0 <= y < 1.0
    ensures 0.0 <= x * y < 1.0
  {
    assert x * y <= y;
  }

  // ---------------------------------------------------------------------------
  // Missing passages
  // ---------------------------------------------------------------------------

  /** The first index at or after i whose word matched, or |ms|. */
  function UnmatchedRunEnd(ms: seq<WordMatch>, i: nat): (e: nat)
    requires i <= |ms|
    ensures i <= e <= |ms|
    ensures forall k :: i <= k < e ==> !ms[k].matched
    ensures e == |ms| || ms[e].matched
    decreases |ms| - i
  {
    if i == |ms| || ms[i].matched then i else UnmatchedRunEnd(ms, i + 1)
  }

  /** The words of some entries. */
  function WordsOf(ms: seq<WordMatch>): (ws: seq<Str>)
    ensures |ws| == |ms|
  {
    seq(|ms|, k requires 0 <= k < |ms| => ms[k].word)
  }

  /** The passage text of the unmatched run ms[s..e], if it has 3 words or more. */
  function PassageOf(ms: seq<WordMatch>, s: nat, e: nat): seq<Str>
    requires s <= e <= |ms|
  {
    if e - s >= 3 then [Join(WordsOf(ms[s..e]), " ")] else []
  }

  /** The missing passages from index i on: each maximal unmatched run of 3 words or more, joined by spaces, in order. */
  function Passages(ms: seq<WordMatch>, i: nat): seq<Str>
    requires i <= |ms|
    decreases |ms| - i
  {
    if i == |ms| then []
    else if ms[i].matched then Passages(ms, i + 1)
    else
      var e := UnmatchedRunEnd(ms, i);
      PassageOf(ms, i, e) + Passages(ms, e)
  }

  /** ms[s..e] is a maximal run of unmatched entries. */
  predicate MaximalRun(ms: seq<WordMatch>, s: nat, e: nat)
    requires s <= e <= |ms|
  {
    && s < e
    && (forall k :: s <= k < e ==> !ms[k].matched)
    && (s == 0 || ms[s - 1].matched)
    && (e == |ms| || ms[e].matched)
  }

  /** Every passage is the text of a maximal unmatched run of at least 3 words starting at or after i. */
  lemma {:induction false} PassagesAreRuns(ms: seq<WordMatch>, i: nat)
    requires i <= |ms|
    requires i == 0 || i == |ms| || ms[i - 1].matched || ms[i].matched
    ensures forall p :: p in Passages(ms, i) ==>
      exists s, e :: i <= s && s + 3 <= e <= |ms| && MaximalRun(ms, s, e) && p == Join(WordsOf(ms[s..e]), " ")
    decreases |ms| - i
  {
    if i < |ms| {
      if ms[i].matched {
        PassagesAreRuns(ms, i + 1);
      } else {
        var e := UnmatchedRunEnd(ms, i);
        PassagesAreRuns(ms, e);
        if e - i >= 3 {
          assert MaximalRun(ms, i, e);
        }
      }
    }
  }

  /** Every maximal unmatched run of at least 3 words starting at or after i gives a passage. */
  lemma {:induction false} RunsArePassages(ms: seq<WordMatch>, i: nat, s: nat, e: nat)
    requires i <= s && s + 3 <= e <= |ms|
    requires MaximalRun(ms, s, e)
    ensures Join(WordsOf(ms[s..e]), " ") in Passages(ms, i)
    decreases |ms| - i
  {
    if ms[i].matched {
      RunsArePassages(ms, i + 1, s, e);
    } else {
      var r := UnmatchedRunEnd(ms, i);
      if i != s {
        RunsArePassages(ms, r, s, e);
      }
    }
  }

  /** The run starting at s, all unmatched up to a matched entry i, ends at i. */
  lemma {:induction false} RunEndsAtMatch(ms: seq<WordMatch>, s: nat, i: nat)
    requires s <= i < |ms|
    requires forall k :: s <= k < i ==> !ms[k].matched
    requires ms[i].matched
    ensures UnmatchedRunEnd(ms, s) == i
    decreases i - s
  {
    if s < i {
      RunEndsAtMatch(ms, s + 1, i);
    }
  }

  /** The run starting at s, all unmatched to the end, ends at the end. */
  lemma {:induction false} RunEndsAtEnd(ms: seq<WordMatch>, s: nat)
    requires s <= |ms|
    requires forall k :: s <= k < |ms| ==> !ms[k].matched
    ensures UnmatchedRunEnd(ms, s) == |ms|
    decreases |ms| - s
  {
    if s < |ms| {
      RunEndsAtEnd(ms, s + 1);
    }
  }

  /** The passage-grouping loop. */
  method GroupMissingPassages(wordMatches: seq<WordMatch>) returns (missingPassages: seq<Str>)
    ensures missingPassages == Passages(wordMatches, 0)
  {
    missingPassages := [];
    var currentPassage: seq<Str> := [];
    ghost var s: nat := 0;
    for i := 0 to |wordMatches|
      invariant s <= i
      invariant forall k :: s <= k < i ==> !wordMatches[k].matched
      invariant currentPassage == WordsOf(wordMatches[s..i])
      invariant missingPassages + Passages(wordMatches, s) == Passages(wordMatches, 0)
    {
      if !wordMatches[i].matched {
        WordsOfExtend(wordMatches, s, i);
        currentPassage := currentPassage + [wordMatches[i].word];
      } else {
        PassagesAtMatch(wordMatches, s, i);
        if |currentPassage| >= 3 {
          missingPassages := missingPassages + [Join(currentPassage, " ")];
        }
        currentPassage := [];
        s := i + 1;
      }
    }
    PassagesAtEnd(wordMatches, s);
    if |currentPassage| >= 3 {
      missingPassages := missingPassages + [Join(currentPassage, " ")];
    }
  }

  lemma WordsOfExtend(ms: seq<WordMatch>, s: nat, i: nat)
    requires s <= i < |ms|
    ensures WordsOf(ms[s..i + 1]) == WordsOf(ms[s..i]) + [ms[i].word]
  {
  }

  /** A matched entry closes the run that started at s. */
  lemma PassagesAtMatch(ms: seq<WordMatch>, s: nat, i: nat)
    requires s <= i < |ms|
    requires forall k :: s <= k < i ==> !ms[k].matched
    requires ms[i].matched
    ensures Passages(ms, s) == PassageOf(ms, s, i) + Passages(ms, i + 1)
  {
    RunEndsAtMatch(ms, s, i);
  }

  /** A run still open at the end is the last passage. */
  lemma PassagesAtEnd(ms: seq<WordMatch>, s: nat)
    requires s <= |ms|
    requires forall k :: s <= k < |ms| ==> !ms[k].matched
    ensures Passages(ms, s) == PassageOf(ms, s, |ms|)
  {
    RunEndsAtEnd(ms, s);
    if s < |ms| {
      assert Passages(ms, s) == PassageOf(ms, s, |ms|) + Passages(ms, |ms|);
    }
  }

  // ---------------------------------------------------------------------------
  // The verdict
  // ---------------------------------------------------------------------------

  /** One entry of the details list: {"type", "word", "context"}. */
  datatype Detail = Detail(kind: Str, word: Str, context: Str)

  const PassageMissing: Str := "passage_manquant"
  const PassageContext: Str := "Ce passage n'a pas été détecté dans votre récitation."

  /** How the verdict was reached: the four tiers after the early answers. */
  datatype Tier = Unheard | TextMissing | Excellent | MinorGaps | Coached | Encouraged

  /** What validate_recitation decides: validity, tier, and the details list. */
  datatype Verdict = Verdict(valid: bool, tier: Tier, details: seq<Detail>)

  /** A passage_manquant entry for each of the first 3 missing passages. */
  function PassageDetails(passages: seq<Str>): (ds: seq<Detail>)
    ensures |ds| == if |passages| <= 3 then |passages| else 3
    ensures forall k :: 0 <= k < |ds| ==> ds[k] == Detail(PassageMissing, passages[k], PassageContext)
  {
    var firsts := if |passages| <= 3 then passages else passages[..3];
    seq(|firsts|, k requires 0 <= k < |firsts| => Detail(PassageMissing, firsts[k], PassageContext))
  }

  /** The tiers: at least 0.75 valid (with details when passages are missing), at least 0.45 valid with the coach's details, else invalid. */
  function TierOf(ratio: real, passages: seq<Str>, coachDetails: seq<Detail>): (v: Verdict)
    ensures v.valid <==> ratio >= 0.45
    ensures ratio >= 0.75 ==> v.details == PassageDetails(passages)
  {
    if ratio >= 0.75 && |passages| == 0 then Verdict(true, Excellent, [])
    else if ratio >= 0.75 then Verdict(true, MinorGaps, PassageDetails(passages))
    else if ratio >= 0.45 then Verdict(true, Coached, coachDetails)
    else Verdict(false, Encouraged, [])
  }

  /** The inputs from outside: the digit class, the matcher ratio and the details the coach returns. */
  datatype Env = Env(isDigit: char -> bool, ratio: (Str, Str) -> real, coachDetails: seq<Detail>)

  /** The whole decision for a stripped transcription and the page text, if one was found. */
  function VerdictOf(env: Env, transcribed: Str, expectedText: Option<Str>): Verdict {
    if |transcribed| < 5 then Verdict(false, Unheard, [])
    else if expectedText.None? || expectedText.value == [] then Verdict(true, TextMissing, [])
    else
      var expectedWords := Tokens(NormalizeArabic(env.isDigit, expectedText.value), IsPySpace);
      var studentWords := Tokens(NormalizeArabic(env.isDigit, transcribed), IsPySpace);
      var walk := Walked(env.ratio, expectedWords, studentWords, |expectedWords|);
      var ratio := SimilarityRatio(MatchedCount(walk.matches), |expectedWords|, |studentWords|);
      TierOf(ratio, Passages(walk.matches, 0), env.coachDetails)
  }

  /** validate_recitation after the transcription. */
  method ValidateRecitation(env: Env, transcribedText: Str, expectedText: Option<Str>) returns (v: Verdict)
    ensures v == VerdictOf(env, transcribedText, expectedText)
  {
    if |transcribedText| < 5 {
      return Verdict(false, Unheard, []);
    }
    if expectedText.None? || expectedText.value == [] {
      return Verdict(true, TextMissing, []);
    }
    var cleanExpected := NormalizeArabic(env.isDigit, expectedText.value);
    var cleanStudent := NormalizeArabic(env.isDigit, transcribedText);
    var expectedWords := Tokens(cleanExpected, IsPySpace);
    var studentWords := Tokens(cleanStudent, IsPySpace);
    var matchedCount, wordMatches, _ := AlignWords(env.ratio, expectedWords, studentWords);
    var similarityRatio := SimilarityRatio(matchedCount, |expectedWords|, |studentWords|);
    var missingPassages := GroupMissingPassages(wordMatches);
    v := TierOf(similarityRatio, missingPassages, env.coachDetails);
  }

  /**
   * A recitation is valid exactly when the transcription has 5 characters and
   * either no page text was found or the penalised coverage reaches 0.45.
   */
  lemma ValidityThreshold(env: Env, transcribed: Str, expectedText: Option<Str>)
    ensures var v := VerdictOf(env, transcribed, expectedText);
      v.valid <==> (|transcribed| >= 5 && (expectedText.None? || expectedText.value == [] ||
        var expectedWords := Tokens(NormalizeArabic(env.isDigit, expectedText.value), IsPySpace);
        var studentWords := Tokens(NormalizeArabic(env.isDigit, transcribed), IsPySpace);
        var walk := Walked(env.ratio, expectedWords, studentWords, |expectedWords|);
        SimilarityRatio(MatchedCount(walk.matches), |expectedWords|, |studentWords|) >= 0.45))
  {
  }
}
