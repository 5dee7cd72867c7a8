/**
 * The Quran-text helpers of the backend service: the Arabic normaliser the
 * Python engine compares words with, and the page text built from the
 * page endpoint's answer.
 */
module QuranPy {
  import opened Text
  import opened Wrappers
  import opened Arabic

  /**
   * The Unicode classes of Python's regular expressions that the normaliser
   * uses: \w (word characters) and \d (decimal digits). They come from the
   * Unicode database, so they are parameters here.
   */
  datatype CharClasses = CharClasses(isWord: char -> bool, isDigit: char -> bool)

  /** The marks U+064B to U+065F and U+0670 that the normaliser deletes. */
  predicate IsHaraka(c: char) {
    ('\U{064B}' <= c <= '\U{065F}') || c == SuperscriptAlef
  }

  /** أ إ آ, folded to ا (ٱ is not among them). */
  predicate IsHamzatedAlef(c: char) {
    c == AlefHamzaAbove || c == AlefHamzaBelow || c == AlefMaddaAbove
  }

  predicate IsAlefMaksura(c: char) { c == AlefMaksura }
  predicate IsWawHamza(c: char) { c == WawHamzaAbove }
  predicate IsTatweel(c: char) { c == Tatweel }

  /** [^\w\s]: neither a word character nor whitespace. */
  function NotWordNorSpace(cc: CharClasses): char -> bool {
    c => !cc.isWord(c) && !IsPySpace(c)
  }

  /** What normalize_arabic can leave in its output. */
  predicate Normalised(cc: CharClasses, c: char) {
    && !IsHaraka(c) && !IsHamzatedAlef(c) && !IsAlefMaksura(c) && !IsWawHamza(c) && !IsTatweel(c)
    && (cc.isWord(c) || IsPySpace(c)) && !cc.isDigit(c)
  }

  /** What the deleting and folding of the harakat and the three letter groups leaves. */
  predicate Unmarked(c: char) {
    !IsHaraka(c) && !IsHamzatedAlef(c) && !IsAlefMaksura(c) && !IsWawHamza(c)
  }

  /** The first four substitutions: harakat deleted, then أ إ آ, ى and ؤ folded. */
  function FoldLetters(text: Str): (r: Str)
    ensures forall c :: c in r ==> Unmarked(c)
    ensures forall c :: c in text && Unmarked(c) ==> c in r
  {
    var s1 := Remove(text, IsHaraka);
    var s2 := Replace(s1, IsHamzatedAlef, Alef);
    var s3 := Replace(s2, IsAlefMaksura, Yeh);
    ReplaceChars(s1, IsHamzatedAlef, Alef);
    ReplaceChars(s2, IsAlefMaksura, Yeh);
    ReplaceChars(s3, IsWawHamza, Waw);
    Replace(s3, IsWawHamza, Waw)
  }

  /** The substitutions of normalize_arabic before the final strip. */
  function Substitute(cc: CharClasses, text: Str): (r: Str)
    ensures forall c :: c in r ==> Normalised(cc, c)
    ensures forall c :: c in text && Normalised(cc, c) ==> c in r
  {
    var s4 := FoldLetters(text);
    var s5 := Remove(s4, IsTatweel);
    var s6 := Remove(s5, NotWordNorSpace(cc));
    Remove(s6, cc.isDigit)
  }

  /**
   * normalize_arabic: deletes the harakat, folds أ إ آ to ا, ى to ي and ؤ to
   * و, deletes tatweel, every character that is neither a word character nor
   * whitespace, and every digit, then strips the surrounding whitespace.
   */
  function NormalizeArabic(cc: CharClasses, text: Str): (r: Str)
    ensures forall c :: c in r ==> Normalised(cc, c)
    ensures r == [] || (!IsPySpace(r[0]) && !IsPySpace(r[|r| - 1]))
    ensures forall c :: c in text && Normalised(cc, c) && !IsPySpace(c) ==> c in r
  {
    var s := Substitute(cc, text);
    TrimKeeps(s, IsPySpace);
    Trim(s, IsPySpace)
  }

  /** The letters this normaliser does not fold (ٱ, ئ, ة) come through whenever they count as word characters. */
  lemma UnfoldedLettersKept(cc: CharClasses, text: Str, c: char)
    requires c == AlefWasla || c == YehHamzaAbove || c == TehMarbuta
    requires c in text && cc.isWord(c) && !cc.isDigit(c)
    ensures c in NormalizeArabic(cc, text)
  {
    assert !IsHaraka(c) && !IsHamzatedAlef(c) && !IsAlefMaksura(c) && !IsWawHamza(c) && !IsTatweel(c);
    assert Normalised(cc, c) && !IsPySpace(c);
  }

  /** Normalising a normalised text changes nothing. */
  lemma NormalizeIdempotent(cc: CharClasses, text: Str)
    ensures NormalizeArabic(cc, NormalizeArabic(cc, text)) == NormalizeArabic(cc, text)
  {
    var r := NormalizeArabic(cc, text);
    RemoveNothing(r, IsHaraka);
    ReplaceNothing(r, IsHamzatedAlef, Alef);
    ReplaceNothing(r, IsAlefMaksura, Yeh);
    ReplaceNothing(r, IsWawHamza, Waw);
    RemoveNothing(r, IsTatweel);
    RemoveNothing(r, NotWordNorSpace(cc));
    RemoveNothing(r, cc.isDigit);
    assert Substitute(cc, r) == r;
    TrimUntouched(r, IsPySpace);
  }

  /** The outcome of the request for a page: an exception, or a status with the ayah texts when the body had them. */
  datatype PageReply = Raised | Answered(status: int, ayahTexts: Option<seq<Str>>)

  /**
   * get_quran_page_text: the ayah texts joined by single spaces on status 200,
   * None on any other status, and None when the request or the body raised.
   */
  function GetQuranPageText(reply: PageReply): (r: Option<Str>)
    ensures r.Some? <==> reply.Answered? && reply.status == 200 && reply.ayahTexts.Some?
    ensures r.Some? ==> Tokens(r.value, IsPySpace) == Flatten(seq(|reply.ayahTexts.value|,
      i requires 0 <= i < |reply.ayahTexts.value| => Tokens(reply.ayahTexts.value[i], IsPySpace)))
  {
    match reply
    case Raised => None
    case Answered(status, texts) =>
      if status != 200 then None
      else if texts.None? then None
      else
        TokensOfJoinedTexts(texts.value, IsPySpace);
        Some(Join(texts.value, " "))
  }
}
