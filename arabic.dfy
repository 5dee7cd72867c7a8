/**
 * The code points the recitation engine recognises: the diacritic set, the
 * letter groups of the Tajweed rules and the first base letter of a word.
 * Both copies of the engine (the TypeScript one in the mobile app and the
 * Python one in the backend) declare the same constants.
 */
module Arabic {
  import opened Text
  import opened Wrappers

  const Fatha := '\U{064E}'
  const Damma := '\U{064F}'
  const Kasra := '\U{0650}'
  const Sukoon := '\U{0652}'
  const Shadda := '\U{0651}'
  const Fathatan := '\U{064B}'
  const Dammatan := '\U{064C}'
  const Kasratan := '\U{064D}'
  const Maddah := '\U{0653}'
  const SuperscriptAlef := '\U{0670}'

  const Hamza := '\U{0621}'
  const AlefMaddaAbove := '\U{0622}'
  const AlefHamzaAbove := '\U{0623}'
  const WawHamzaAbove := '\U{0624}'
  const AlefHamzaBelow := '\U{0625}'
  const YehHamzaAbove := '\U{0626}'
  const Alef := '\U{0627}'
  const Beh := '\U{0628}'
  const TehMarbuta := '\U{0629}'
  const Jeem := '\U{062C}'
  const Hah := '\U{062D}'
  const Khah := '\U{062E}'
  const Dal := '\U{062F}'
  const Reh := '\U{0631}'
  const Tah := '\U{0637}'
  const Ain := '\U{0639}'
  const Ghain := '\U{063A}'
  const Tatweel := '\U{0640}'
  const Qaf := '\U{0642}'
  const Lam := '\U{0644}'
  const Meem := '\U{0645}'
  const Noon := '\U{0646}'
  const Heh := '\U{0647}'
  const Waw := '\U{0648}'
  const AlefMaksura := '\U{0649}'
  const Yeh := '\U{064A}'
  const AlefWasla := '\U{0671}'

  predicate IsTanween(c: char) {
    c == Fathatan || c == Dammatan || c == Kasratan
  }

  /** ALL_DIACRITICS: the vowel marks, sukoon, shadda, tanween and five further marks. */
  predicate IsDiacritic(c: char) {
    || c == Fatha || c == Damma || c == Kasra || c == Sukoon || c == Shadda
    || IsTanween(c) || c == Maddah || c == SuperscriptAlef
    || c == '\U{0654}' || c == '\U{0655}' || c == '\U{0656}' || c == '\U{065F}'
  }

  /** ق ط ب ج د */
  predicate IsQalqalahLetter(c: char) {
    c == Qaf || c == Tah || c == Beh || c == Jeem || c == Dal
  }

  /** ء ه ع ح غ خ, the letters of the throat. */
  predicate IsThroatLetter(c: char) {
    c == Hamza || c == Heh || c == Ain || c == Hah || c == Ghain || c == Khah
  }

  /** ي ن م و */
  predicate IsIdghamWithGhunnah(c: char) {
    c == Yeh || c == Noon || c == Meem || c == Waw
  }

  /** ل ر */
  predicate IsIdghamWithoutGhunnah(c: char) {
    c == Lam || c == Reh
  }

  /** ب */
  predicate IsIqlabLetter(c: char) {
    c == Beh
  }

  /** ء أ إ ئ ؤ آ */
  predicate IsHamzaLetter(c: char) {
    || c == Hamza || c == AlefHamzaAbove || c == AlefHamzaBelow
    || c == YehHamzaAbove || c == WawHamzaAbove || c == AlefMaddaAbove
  }

  /** The letter groups that decide a Noon Sakinah are pairwise disjoint. */
  lemma NoonGroupsDisjoint(c: char)
    ensures !(IsThroatLetter(c) && IsIqlabLetter(c))
    ensures !(IsThroatLetter(c) && IsIdghamWithGhunnah(c))
    ensures !(IsThroatLetter(c) && IsIdghamWithoutGhunnah(c))
    ensures !(IsIqlabLetter(c) && IsIdghamWithGhunnah(c))
    ensures !(IsIqlabLetter(c) && IsIdghamWithoutGhunnah(c))
    ensures !(IsIdghamWithGhunnah(c) && IsIdghamWithoutGhunnah(c))
  {
  }

  /** Index of the first code point of w that is not a diacritic, or |w| if there is none. */
  function FirstLetterIndex(w: Str): (k: nat)
    ensures k <= |w|
    ensures forall i :: 0 <= i < k ==> IsDiacritic(w[i])
    ensures k < |w| ==> !IsDiacritic(w[k])
  {
    if w == [] || !IsDiacritic(w[0]) then 0 else 1 + FirstLetterIndex(w[1..])
  }

  /** firstLetter / _first_letter: the first base letter, None standing for ''. */
  function FirstLetter(w: Str): (r: Option<char>)
    ensures r == None <==> forall c :: c in w ==> IsDiacritic(c)
    ensures r.Some? ==> r.value in w && !IsDiacritic(r.value)
  {
    var k := FirstLetterIndex(w);
    if k == |w| then
      None
    else
      Some(w[k])
  }

  /** Leading diacritics do not change the first base letter. */
  lemma {:induction false} FirstLetterSkipsMarks(marks: Str, w: Str)
    requires forall c :: c in marks ==> IsDiacritic(c)
    ensures FirstLetter(marks + w) == FirstLetter(w)
  {
    if marks != [] {
      assert (marks + w)[1..] == marks[1..] + w;
      assert marks[0] in marks;
      FirstLetterSkipsMarks(marks[1..], w);
      assert FirstLetterIndex(marks + w) == 1 + FirstLetterIndex(marks[1..] + w);
    } else {
      assert marks + w == w;
    }
  }
}
