/**
 * The Quran-text helpers of the mobile app: the Arabic normaliser used before
 * words are compared, the page text and page words of a fetched page, and the
 * in-memory cache in front of the page fetch.
 */
module QuranTs {
  import opened Text
  import opened Wrappers
  import opened Arabic
  import PyInt

  /** The marks U+064B to U+065F and U+0670 that the normaliser deletes. */
  predicate IsHaraka(c: char) {
    ('\U{064B}' <= c <= '\U{065F}') || c == SuperscriptAlef
  }

  /** أ إ آ ٱ, folded to ا. */
  predicate IsAlefVariant(c: char) {
    c == AlefHamzaAbove || c == AlefHamzaBelow || c == AlefMaddaAbove || c == AlefWasla
  }

  predicate IsWawHamza(c: char) { c == WawHamzaAbove }
  predicate IsYehHamza(c: char) { c == YehHamzaAbove }
  predicate IsTehMarbuta(c: char) { c == TehMarbuta }
  predicate IsTatweel(c: char) { c == Tatweel }

  /** The characters that never survive normalisation. */
  predicate Normalised(c: char) {
    !IsHaraka(c) && !IsAlefVariant(c) && !IsWawHamza(c) && !IsYehHamza(c) && !IsTehMarbuta(c) && !IsTatweel(c)
  }

  /** The folding and deleting steps, before the final trim. */
  function Fold(text: Str): (r: Str)
    ensures forall c :: c in r ==> Normalised(c)
    ensures forall c :: c in text && Normalised(c) ==> c in r
  {
    var s1 := Remove(text, IsHaraka);
    var s2 := Replace(s1, IsAlefVariant, Alef);
    var s3 := Replace(s2, IsWawHamza, Waw);
    var s4 := Replace(s3, IsYehHamza, Yeh);
    var s5 := Replace(s4, IsTehMarbuta, Heh);
    ReplaceChars(s1, IsAlefVariant, Alef);
    ReplaceChars(s2, IsWawHamza, Waw);
    ReplaceChars(s3, IsYehHamza, Yeh);
    ReplaceChars(s4, IsTehMarbuta, Heh);
    Remove(s5, IsTatweel)
  }

  /**
   * normalizeArabic: deletes the harakat and tatweel, folds أ إ آ ٱ to ا,
   * ؤ to و, ئ to ي and ة to ه, and trims the surrounding whitespace. Every
   * other character that is not whitespace, ى included, is kept.
   */
  function NormalizeArabic(text: Str): (r: Str)
    ensures forall c :: c in r ==> Normalised(c)
    ensures r == [] || (!IsJsSpace(r[0]) && !IsJsSpace(r[|r| - 1]))
    ensures forall c :: c in text && Normalised(c) && !IsJsSpace(c) ==> c in r
  {
    var f := Fold(text);
    TrimKeeps(f, IsJsSpace);
    Trim(f, IsJsSpace)
  }

  /** Every folded letter lands on its plain form, and ى is left as it is. */
  lemma NormalizeFolds(text: Str, c: char)
    requires c in text && !IsHaraka(c)
    ensures IsAlefVariant(c) ==> Alef in NormalizeArabic(text)
    ensures IsWawHamza(c) ==> Waw in NormalizeArabic(text)
    ensures IsYehHamza(c) ==> Yeh in NormalizeArabic(text)
    ensures IsTehMarbuta(c) ==> Heh in NormalizeArabic(text)
    ensures c == AlefMaksura ==> AlefMaksura in NormalizeArabic(text)
  {
    if IsAlefVariant(c) || IsWawHamza(c) || IsYehHamza(c) || IsTehMarbuta(c) || c == AlefMaksura {
      FoldedIn(text, c);
      var d := FoldChar(c);
      assert Normalised(d) && !IsJsSpace(d);
      TrimKeeps(Fold(text), IsJsSpace);
    }
  }

  /** Where the folding steps send a character that is not deleted. */
  function FoldChar(c: char): char {
    if IsAlefVariant(c) then Alef
    else if IsWawHamza(c) then Waw
    else if IsYehHamza(c) then Yeh
    else if IsTehMarbuta(c) then Heh
    else c
  }

  /** A character the folding steps do not delete reaches their result in its folded form. */
  lemma FoldedIn(text: Str, c: char)
    requires c in text && !IsHaraka(c) && !IsTatweel(c)
    ensures FoldChar(c) in Fold(text)
  {
    var s1 := Remove(text, IsHaraka);
    var s2 := Replace(s1, IsAlefVariant, Alef);
    var s3 := Replace(s2, IsWawHamza, Waw);
    var s4 := Replace(s3, IsYehHamza, Yeh);
    var s5 := Replace(s4, IsTehMarbuta, Heh);
    var c2 := ReplaceMaps(s1, IsAlefVariant, Alef, c);
    var c3 := ReplaceMaps(s2, IsWawHamza, Waw, c2);
    var c4 := ReplaceMaps(s3, IsYehHamza, Yeh, c3);
    var c5 := ReplaceMaps(s4, IsTehMarbuta, Heh, c4);
    assert c5 == FoldChar(c) && !IsTatweel(c5);
  }

  /** Normalising a normalised text changes nothing. */
  lemma NormalizeIdempotent(text: Str)
    ensures NormalizeArabic(NormalizeArabic(text)) == NormalizeArabic(text)
  {
    var r := NormalizeArabic(text);
    assert forall c :: c in r ==> !IsHaraka(c);
    RemoveNothing(r, IsHaraka);
    ReplaceNothing(r, IsAlefVariant, Alef);
    ReplaceNothing(r, IsWawHamza, Waw);
    ReplaceNothing(r, IsYehHamza, Yeh);
    ReplaceNothing(r, IsTehMarbuta, Heh);
    RemoveNothing(r, IsTatweel);
    assert Fold(r) == r;
    TrimUntouched(r, IsJsSpace);
  }

  datatype Surah = Surah(number: int, name: Str, englishName: Str)
  datatype Verse = Verse(number: int, text: Str, surah: Surah)
  datatype QuranPage = QuranPage(number: int, ayahs: seq<Verse>, surahName: Str)

  function AyahTexts(page: QuranPage): (ts: seq<Str>)
    ensures |ts| == |page.ayahs|
  {
    seq(|page.ayahs|, i requires 0 <= i < |page.ayahs| => page.ayahs[i].text)
  }

  /** getPageText: the ayah texts in order, separated by single spaces. */
  function GetPageText(page: QuranPage): Str {
    Join(AyahTexts(page), " ")
  }

  /** getPageWords: the non-empty pieces of the page text between runs of whitespace. */
  function GetPageWords(page: QuranPage): (ws: seq<Str>)
    ensures forall w :: w in ws ==> w != [] && forall c :: c in w ==> !IsJsSpace(c)
  {
    Tokens(GetPageText(page), IsJsSpace)
  }

  /** The page words are the words of each ayah, ayah after ayah, and spell out the page without its whitespace. */
  lemma PageWordsPerAyah(page: QuranPage)
    ensures GetPageWords(page) == Flatten(seq(|page.ayahs|, i requires 0 <= i < |page.ayahs| => Tokens(page.ayahs[i].text, IsJsSpace)))
    ensures Concat(GetPageWords(page)) == Remove(GetPageText(page), IsJsSpace)
  {
    var ts := AyahTexts(page);
    TokensOfJoinedTexts(ts, IsJsSpace);
    assert seq(|ts|, i requires 0 <= i < |ts| => Tokens(ts[i], IsJsSpace))
      == seq(|page.ayahs|, i requires 0 <= i < |page.ayahs| => Tokens(page.ayahs[i].text, IsJsSpace));
    TokensInOrder(GetPageText(page), IsJsSpace);
  }

  /** A page whose ayahs are single words gives those words back. */
  lemma PageWordsOfSingleWords(page: QuranPage)
    requires forall i :: 0 <= i < |page.ayahs| ==> page.ayahs[i].text != [] && forall c :: c in page.ayahs[i].text ==> !IsJsSpace(c)
    ensures GetPageWords(page) == AyahTexts(page)
  {
    var ts := AyahTexts(page);
    forall w | w in ts ensures w != [] && forall c :: c in w ==> !IsJsSpace(c) {
      var i :| 0 <= i < |ts| && ts[i] == w;
    }
    TokensOfJoin(ts, IsJsSpace);
  }

  /** What the page endpoint answered: its HTTP status and, when it succeeded, the ayahs. */
  datatype Reply = Reply(ok: bool, status: int, ayahs: seq<Verse>)

  /** The page built from a successful reply; the surah name is the first ayah's, or ''. */
  function PageOf(page: int, ayahs: seq<Verse>): QuranPage {
    QuranPage(page, ayahs, if ayahs == [] then [] else ayahs[0].surah.name)
  }

  /** fetchQuranPage with the module-level pageCache; the reply stands for the network answer. */
  class PageCache {
    var pages: map<int, QuranPage>

    constructor ()
      ensures pages == map[]
    {
      pages := map[];
    }

    /**
     * A cached page is returned without using the network (fetched false).
     * Otherwise the reply is used: a failed reply raises and caches nothing,
     * a successful one is cached and returned.
     */
    method FetchQuranPage(page: int, reply: Reply) returns (r: Result<QuranPage, Str>, fetched: bool)
      modifies this
      ensures page in old(pages) ==> !fetched && r == Ok(old(pages)[page]) && pages == old(pages)
      ensures page !in old(pages) ==> fetched
      ensures page !in old(pages) && !reply.ok ==>
        r == Err("AlQuran API error: " + PyInt.ToStr(reply.status)) && pages == old(pages)
      ensures page !in old(pages) && reply.ok ==>
        r == Ok(PageOf(page, reply.ayahs)) && pages == old(pages)[page := PageOf(page, reply.ayahs)]
      ensures r.Ok? ==> page in pages && pages[page] == r.value
    {
      if page in pages {
        return Ok(pages[page]), false;
      }
      fetched := true;
      if !reply.ok {
        r := Err("AlQuran API error: " + PyInt.ToStr(reply.status));
        return;
      }
      var result := PageOf(page, reply.ayahs);
      pages := pages[page := result];
      r := Ok(result);
    }
  }
}
