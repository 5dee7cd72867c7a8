/**
 * The page-image endpoint: a request such as "57" or "057.svg" names a mushaf
 * page; the image on disk is numbered two higher (the scans start with two
 * cover pages), zero-padded to three digits. Whether a file onDisk in the
 * pages directory is a parameter.
 */
module Pages {
  import opened Text
  import opened Wrappers
  import opened PyInt

  datatype Response = File(name: Str) | NotFound

  /** The image file of a page: Quran_Page_ followed by page + 2 zero-padded to three characters, then .jpg. */
  function PageFileName(page: int): (f: Str)
    ensures |f| >= 18
    ensures f[..11] == "Quran_Page_" && f[|f| - 4..] == ".jpg"
  {
    "Quran_Page_" + ZFill(ToStr(page + 2), 3) + ".jpg"
  }

  /** The number a request names: the text before its first '.', read as an integer. */
  function RequestedPage(request: Str): Option<int> {
    Parse(SplitOn(request, '.')[0])
  }

  /** The endpoint: 404 when the prefix is not an integer or the computed file does not exist. */
  function GetQuranPage(request: Str, onDisk: Str -> bool): (r: Response)
    ensures RequestedPage(request).None? ==> r == NotFound
    ensures RequestedPage(request).Some? ==>
      var f := PageFileName(RequestedPage(request).value);
      r == (if onDisk(f) then File(f) else NotFound)
  {
    match RequestedPage(request)
    case None => NotFound
    case Some(page) =>
      var f := PageFileName(page);
      if onDisk(f) then File(f) else NotFound
  }

  /** The number in a file name reads back as page + 2, so no two pages share an image. */
  lemma PageFileNameRoundTrip(page: int)
    ensures var f := PageFileName(page);
      Parse(f[11..|f| - 4]) == Some(page + 2)
  {
    var f := PageFileName(page);
    var z := ZFill(ToStr(page + 2), 3);
    assert f[11..|f| - 4] == z;
    ParseZFill(page + 2, 3);
  }

  lemma PageFileNameInjective(a: int, b: int)
    requires PageFileName(a) == PageFileName(b)
    ensures a == b
  {
    var f := PageFileName(a);
    var digits := f[11..|f| - 4];
    PageFileNameRoundTrip(a);
    PageFileNameRoundTrip(b);
    assert Some(a + 2) == Parse(digits) == Some(b + 2);
  }

  /** An extension after the first '.' does not change which image is served ("057.svg" and "057"). */
  lemma ExtensionIgnored(stem: Str, extension: Str, onDisk: Str -> bool)
    requires '.' !in stem
    ensures GetQuranPage(stem + "." + extension, onDisk) == GetQuranPage(stem, onDisk)
  {
    SplitOnFirst(stem, '.', extension);
  }

  /** A page number, zero-padded or not, with or without an extension, is served its page + 2 image when that onDisk. */
  lemma PaddedRequest(page: int, width: nat, extension: Str, onDisk: Str -> bool)
    ensures var stem := ZFill(ToStr(page), width);
      && GetQuranPage(stem, onDisk) == GetQuranPage(stem + "." + extension, onDisk)
      && GetQuranPage(stem, onDisk) == (if onDisk(PageFileName(page)) then File(PageFileName(page)) else NotFound)
  {
    var stem := ZFill(ToStr(page), width);
    ToStrNoDot(page);
    ZFillNoDot(ToStr(page), width);
    ExtensionIgnored(stem, extension, onDisk);
    SplitOnFirst(stem, '.', []);
    ParseZFill(page, width);
  }

  lemma ZFillNoDot(s: Str, width: nat)
    requires '.' !in s
    ensures '.' !in ZFill(s, width)
  {
    if |s| < width && |s| > 0 && (s[0] == '+' || s[0] == '-') {
      assert ZFill(s, width) == [s[0]] + Zeros(width - |s|) + s[1..];
      assert forall c :: c in s[1..] ==> c in s;
    }
  }

  lemma {:induction false} DecimalNoDot(n: nat)
    ensures '.' !in Decimal(n)
  {
    assert AllDigits(Decimal(n));
  }

  lemma ToStrNoDot(n: int)
    ensures '.' !in ToStr(n)
  {
    if n < 0 {
      DecimalNoDot(-n);
    } else {
      DecimalNoDot(n);
    }
  }
}
