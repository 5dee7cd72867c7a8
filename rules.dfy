/**
 * The rule detectors of the recitation engine, as a specification shared by
 * both copies: the TypeScript detectors (detectQalqalah, detectNoonSakinah,
 * detectMeemSakinah, detectGhunnah, detectMadd) and the Python ones
 * (_detect_qalqalah, _detect_noon_sakinah, _detect_meem_sakinah,
 * _detect_ghunnah_mushaddada, _detect_madd) run the same scan over the code
 * points of the expected word. Each detector looks at every position in turn
 * and emits at most one rule there; RuleAt says what it emits at a position
 * and Scan collects the rules of the positions below n in order.
 */
module TajweedRules {
  import opened Text
  import opened Wrappers
  import opened Arabic

  /** A detected rule with its two feedback messages (TajweedRule / the rule dicts). */
  datatype Rule = Rule(rule: Str, subtype: Str, letter: Str, feedbackCorrect: Str, feedbackMissing: Str)

  /** The five detectors. */
  datatype Detector = QalqalahScan | NoonScan | MeemScan | GhunnahScan | MaddScan

  /** The Noon Sakinah / Tanween classifications. */
  datatype NoonRule = Izhar | Iqlab | IdghamWithGhunnah | IdghamWithoutGhunnah | Ikhfa {
    function Name(): Str {
      match this
      case Izhar => "Izhar"
      case Iqlab => "Iqlab"
      case IdghamWithGhunnah => "Idgham avec Ghunnah"
      case IdghamWithoutGhunnah => "Idgham sans Ghunnah"
      case Ikhfa => "Ikhfa"
    }
  }

  /** The Meem Sakinah classifications. */
  datatype MeemRule = IzharShafawi | IdghamShafawi | IkhfaShafawi {
    function Name(): Str {
      match this
      case IzharShafawi => "Izhar Shafawi"
      case IdghamShafawi => "Idgham Shafawi"
      case IkhfaShafawi => "Ikhfa Shafawi"
    }
  }

  /** The Madd classifications. */
  datatype MaddKind = Tabii | Muttasil | Munfasil {
    function Name(): Str {
      match this
      case Tabii => "Madd Tabii (2 temps)"
      case Muttasil => "Madd Wajib Muttasil (4-5 temps)"
      case Munfasil => "Madd Jaiz Munfasil (2-4 temps)"
    }
  }

  /** `!nextWord` / `not next_word`: no following word, or an empty one. */
  predicate NoNextWord(next: Option<Str>) {
    next.None? || next.value == []
  }

  /** The first base letter of the following word, when there is one. */
  function NextLetter(next: Option<Str>): Option<char> {
    if NoNextWord(next) then None else FirstLetter(next.value)
  }

  /** classifyNoonRule / _classify_noon_rule. */
  function ClassifyNoon(next: Option<Str>): (r: NoonRule) {
    var first := NextLetter(next);
    if first.None? then Izhar
    else if IsThroatLetter(first.value) then Izhar
    else if IsIqlabLetter(first.value) then Iqlab
    else if IsIdghamWithGhunnah(first.value) then IdghamWithGhunnah
    else if IsIdghamWithoutGhunnah(first.value) then IdghamWithoutGhunnah
    else Ikhfa
  }

  /**
   * Since the letter groups are disjoint, each classification is decided by
   * its own group alone, whatever the order of the tests; a missing next word,
   * or one made only of diacritics, gives Izhar.
   */
  lemma ClassifyNoonByGroup(next: Option<Str>)
    ensures NoNextWord(next) ==> ClassifyNoon(next) == Izhar
    ensures !NoNextWord(next) && (forall c :: c in next.value ==> IsDiacritic(c)) ==> ClassifyNoon(next) == Izhar
    ensures ClassifyNoon(next) == Iqlab <==> NextLetter(next) == Some(Beh)
    ensures ClassifyNoon(next) == IdghamWithGhunnah <==> NextLetter(next).Some? && IsIdghamWithGhunnah(NextLetter(next).value)
    ensures ClassifyNoon(next) == IdghamWithoutGhunnah <==> NextLetter(next).Some? && IsIdghamWithoutGhunnah(NextLetter(next).value)
    ensures ClassifyNoon(next) == Izhar <==> NextLetter(next).None? || IsThroatLetter(NextLetter(next).value)
    ensures ClassifyNoon(next) == Ikhfa <==>
      && NextLetter(next).Some?
      && var c := NextLetter(next).value;
      !IsThroatLetter(c) && !IsIqlabLetter(c) && !IsIdghamWithGhunnah(c) && !IsIdghamWithoutGhunnah(c)
  {
    if NextLetter(next).Some? {
      NoonGroupsDisjoint(NextLetter(next).value);
    }
  }

  /** classifyMeemRule / _classify_meem_rule. */
  function ClassifyMeem(next: Option<Str>): (r: MeemRule) {
    if NoNextWord(next) then IzharShafawi
    else
      var first := FirstLetter(next.value);
      if first == Some(Meem) then IdghamShafawi
      else if first == Some(Beh) then IkhfaShafawi
      else IzharShafawi
  }

  /** Meem Sakinah: Idgham before م, Ikhfa before ب, Izhar otherwise (no next word included). */
  lemma ClassifyMeemByLetter(next: Option<Str>)
    ensures ClassifyMeem(next) == IdghamShafawi <==> NextLetter(next) == Some(Meem)
    ensures ClassifyMeem(next) == IkhfaShafawi <==> NextLetter(next) == Some(Beh)
    ensures ClassifyMeem(next) == IzharShafawi <==> NextLetter(next) != Some(Meem) && NextLetter(next) != Some(Beh)
  {
  }

  predicate HasHamzaLetter(s: Str) {
    exists c :: c in s && IsHamzaLetter(c)
  }

  /** The classification of a Madd letter at i. */
  function ClassifyMadd(w: Str, next: Option<Str>, i: nat): (k: MaddKind)
    requires i < |w|
  {
    var remaining := Remove(w[i + 1..], IsDiacritic);
    if HasHamzaLetter(remaining) then Muttasil
    else if !NoNextWord(next) && FirstLetter(next.value).Some? && IsHamzaLetter(FirstLetter(next.value).value) then Munfasil
    else Tabii
  }

  /**
   * The loop body both Madd detectors share: position i holds a Madd when a
   * prolongation letter follows its vowel sign, and is then classified.
   */
  method MaddAt(chars: Str, nextWord: Option<Str>, i: nat) returns (found: Option<Rule>)
    requires 1 <= i < |chars|
    ensures found == RuleAt(MaddScan, chars, nextWord, i)
  {
    var c := chars[i];
    var prev := chars[i - 1];
    var isMadd := false;
    if c == Alef && prev == Fatha {
      isMadd := true;
    } else if c == Waw && prev == Damma {
      isMadd := true;
    } else if c == Yeh && prev == Kasra {
      isMadd := true;
    }
    if !isMadd {
      return None;
    }
    var maddType := MaddTypeAt(chars, nextWord, i);
    found := Some(MaddRule(c, maddType));
  }

  /**
   * The classification step of the Madd detectors: a Hamza letter later in
   * the word, else a next word starting with one.
   */
  method MaddTypeAt(chars: Str, nextWord: Option<Str>, i: nat) returns (maddType: MaddKind)
    requires i < |chars|
    ensures maddType == ClassifyMadd(chars, nextWord, i)
  {
    var remaining := Remove(chars[i + 1..], IsDiacritic);
    var hasInternalHamza := HasHamzaLetter(remaining);
    if hasInternalHamza {
      maddType := Muttasil;
    } else if !NoNextWord(nextWord) && FirstLetter(nextWord.value).Some? && IsHamzaLetter(FirstLetter(nextWord.value).value) {
      maddType := Munfasil;
    } else {
      maddType := Tabii;
    }
  }

  /**
   * Muttasil exactly when a Hamza letter occurs anywhere after i in the word
   * (dropping the diacritics first makes no difference); otherwise Munfasil
   * exactly when the next word begins with a Hamza letter; otherwise Tabii.
   */
  lemma ClassifyMaddByHamza(w: Str, next: Option<Str>, i: nat)
    requires i < |w|
    ensures ClassifyMadd(w, next, i) == Muttasil <==> exists k :: i < k < |w| && IsHamzaLetter(w[k])
    ensures ClassifyMadd(w, next, i) == Munfasil <==>
      (forall k :: i < k < |w| ==> !IsHamzaLetter(w[k])) && NextLetter(next).Some? && IsHamzaLetter(NextLetter(next).value)
    ensures ClassifyMadd(w, next, i) == Tabii <==>
      (forall k :: i < k < |w| ==> !IsHamzaLetter(w[k])) && !(NextLetter(next).Some? && IsHamzaLetter(NextLetter(next).value))
  {
    var tail := w[i + 1..];
    var remaining := Remove(tail, IsDiacritic);
    if exists k :: i < k < |w| && IsHamzaLetter(w[k]) {
      var k :| i < k < |w| && IsHamzaLetter(w[k]);
      assert tail[k - i - 1] == w[k];
      assert w[k] in remaining;
    } else {
      forall c | c in remaining ensures !IsHamzaLetter(c) {
        var k :| 0 <= k < |tail| && tail[k] == c;
        assert w[i + 1 + k] == c;
      }
    }
  }

  /** End of the run of diacritics that starts at j: the loop `while j < n && isDiacritic(chars[j])`. */
  function RunEnd(w: Str, j: nat): (e: nat)
    requires j <= |w|
    ensures j <= e <= |w|
    ensures forall k :: j <= k < e ==> IsDiacritic(w[k])
    ensures e == |w| || !IsDiacritic(w[e])
    decreases |w| - j
  {
    if j < |w| && IsDiacritic(w[j]) then RunEnd(w, j + 1) else j
  }

  /** Whether the run of diacritics that starts at j holds the mark m. */
  function RunHas(w: Str, j: nat, m: char): (b: bool)
    requires j <= |w|
    ensures b <==> exists k :: j <= k < RunEnd(w, j) && w[k] == m
    decreases |w| - j
  {
    if j < |w| && IsDiacritic(w[j]) then w[j] == m || RunHas(w, j + 1, m) else false
  }

  /** The letter at i carries the mark m among the diacritics that follow it. */
  predicate MarkedWith(w: Str, i: nat, m: char)
    requires i < |w|
  {
    exists k :: i < k < |w| && w[k] == m && forall l :: i < l <= k ==> IsDiacritic(w[l])
  }

  /** No base letter follows position i. */
  predicate NoLetterAfter(w: Str, i: nat)
    requires i < |w|
  {
    forall k :: i < k < |w| ==> IsDiacritic(w[k])
  }

  /** The scan of the diacritic run after i finds m exactly when the letter at i is marked with m. */
  lemma RunAfterLetter(w: Str, i: nat, m: char)
    requires i < |w|
    ensures RunHas(w, i + 1, m) <==> MarkedWith(w, i, m)
    ensures RunEnd(w, i + 1) >= |w| <==> NoLetterAfter(w, i)
  {
    var e := RunEnd(w, i + 1);
    if MarkedWith(w, i, m) {
      var k :| i < k < |w| && w[k] == m && forall l :: i < l <= k ==> IsDiacritic(w[l]);
      assert k < e;
    }
    if RunHas(w, i + 1, m) {
      var k :| i + 1 <= k < e && w[k] == m;
      assert forall l :: i < l <= k ==> IsDiacritic(w[l]);
    }
  }

  function QalqalahRule(letter: char, sukoon: bool): Rule {
    var subtype := if sukoon then "Sughra" else "Kubra";
    Rule("Qalqalah", subtype, [letter],
      "Qalqalah " + subtype + " bien appliquée sur '" + [letter] + "'.",
      "Appliquez le rebond (Qalqalah " + subtype + ") sur '" + [letter] + "'.")
  }

  function NoonSakinahRule(t: NoonRule): Rule {
    Rule("Noon Sakinah", t.Name(), [Noon],
      "Noon Sakinah (" + t.Name() + ") bien appliquée.",
      "Appliquez la règle " + t.Name() + " sur le Noon Sakinah.")
  }

  function TanweenRule(t: NoonRule): Rule {
    Rule("Tanween", t.Name(), [],
      "Tanween (" + t.Name() + ") bien appliqué.",
      "Appliquez la règle " + t.Name() + " sur le Tanween.")
  }

  function MeemSakinahRule(t: MeemRule): Rule {
    Rule("Meem Sakinah", t.Name(), [Meem],
      "Meem Sakinah (" + t.Name() + ") bien appliquée.",
      "Appliquez la règle " + t.Name() + " sur le Meem Sakinah.")
  }

  function GhunnahRule(letter: char): Rule {
    var name := if letter == Noon then "Noon" else "Meem";
    Rule("Ghunnah Mushaddada", name, [letter],
      "Ghunnah bien nasalisée sur le " + name + " Mushaddad (2 temps).",
      "Nasalisez le " + name + " avec Shadda (Ghunnah 2 temps).")
  }

  function MaddRule(letter: char, k: MaddKind): Rule {
    Rule("Madd", k.Name(), [letter],
      k.Name() + " bien respecté.",
      "Allongez correctement : " + k.Name() + ".")
  }

  /** A vowel sign followed by its letter of prolongation: (Fatha, ا), (Damma, و), (Kasra, ي). */
  predicate MaddPair(prev: char, c: char) {
    (c == Alef && prev == Fatha) || (c == Waw && prev == Damma) || (c == Yeh && prev == Kasra)
  }

  /** What detector d emits at position i of w. */
  function RuleAt(d: Detector, w: Str, next: Option<Str>, i: nat): Option<Rule>
    requires i < |w|
  {
    match d
    case QalqalahScan =>
      if !IsQalqalahLetter(w[i]) then None
      else
        var sukoon := RunHas(w, i + 1, Sukoon);
        if sukoon || RunEnd(w, i + 1) >= |w| then Some(QalqalahRule(w[i], sukoon)) else None
    case NoonScan =>
      if w[i] == Noon && i + 1 < |w| && w[i + 1] == Sukoon then Some(NoonSakinahRule(ClassifyNoon(next))) else None
    case MeemScan =>
      if w[i] == Meem && i + 1 < |w| && w[i + 1] == Sukoon then Some(MeemSakinahRule(ClassifyMeem(next))) else None
    case GhunnahScan =>
      if (w[i] == Noon || w[i] == Meem) && RunHas(w, i + 1, Shadda) then Some(GhunnahRule(w[i])) else None
    case MaddScan =>
      if i >= 1 && MaddPair(w[i - 1], w[i]) then Some(MaddRule(w[i], ClassifyMadd(w, next, i))) else None
  }

  /** The rules detector d emits at the positions below n, in order. */
  function Scan(d: Detector, w: Str, next: Option<Str>, n: nat): seq<Rule>
    requires n <= |w|
  {
    if n == 0 then []
    else
      var r := RuleAt(d, w, next, n - 1);
      Scan(d, w, next, n - 1) + (if r.Some? then [r.value] else [])
  }

  /** One more position of the Madd scan: a prolongation letter after its vowel sign adds its rule. */
  lemma MaddScanStep(w: Str, next: Option<Str>, i: nat)
    requires 1 <= i < |w|
    ensures Scan(MaddScan, w, next, i + 1) == Scan(MaddScan, w, next, i) +
      (if MaddPair(w[i - 1], w[i]) then [MaddRule(w[i], ClassifyMadd(w, next, i))] else [])
  {
  }

  /** The positions below n where detector d fires, increasing. */
  function Firing(d: Detector, w: Str, next: Option<Str>, n: nat): (ps: seq<nat>)
    requires n <= |w|
    ensures forall k :: 0 <= k < |ps| ==> ps[k] < n && RuleAt(d, w, next, ps[k]).Some?
    ensures forall k, l :: 0 <= k < l < |ps| ==> ps[k] < ps[l]
    ensures forall i :: 0 <= i < n && RuleAt(d, w, next, i).Some? ==> i in ps
  {
    if n == 0 then []
    else Firing(d, w, next, n - 1) + (if RuleAt(d, w, next, n - 1).Some? then [n - 1] else [])
  }

  /** The k-th rule a detector emits is the rule of the k-th position where it fires. */
  lemma {:induction false} ScanByPosition(d: Detector, w: Str, next: Option<Str>, n: nat)
    requires n <= |w|
    ensures |Scan(d, w, next, n)| == |Firing(d, w, next, n)|
    ensures forall k :: 0 <= k < |Scan(d, w, next, n)| ==>
      Scan(d, w, next, n)[k] == RuleAt(d, w, next, Firing(d, w, next, n)[k]).value
  {
    ScanFiringLength(d, w, next, n);
    forall k | 0 <= k < |Scan(d, w, next, n)|
      ensures Scan(d, w, next, n)[k] == RuleAt(d, w, next, Firing(d, w, next, n)[k]).value
    {
      ScanAt(d, w, next, n, k);
    }
  }

  lemma {:induction false} ScanFiringLength(d: Detector, w: Str, next: Option<Str>, n: nat)
    requires n <= |w|
    ensures |Scan(d, w, next, n)| == |Firing(d, w, next, n)|
  {
    if n > 0 {
      ScanFiringLength(d, w, next, n - 1);
    }
  }

  lemma {:induction false} ScanAt(d: Detector, w: Str, next: Option<Str>, n: nat, k: nat)
    requires n <= |w| && k < |Scan(d, w, next, n)|
    ensures k < |Firing(d, w, next, n)|
    ensures Scan(d, w, next, n)[k] == RuleAt(d, w, next, Firing(d, w, next, n)[k]).value
  {
    ScanFiringLength(d, w, next, n);
    var s0, f0 := Scan(d, w, next, n - 1), Firing(d, w, next, n - 1);
    var r := RuleAt(d, w, next, n - 1);
    ScanFiringLength(d, w, next, n - 1);
    if k < |s0| {
      ScanAt(d, w, next, n - 1, k);
      assert Scan(d, w, next, n)[k] == s0[k];
      assert Firing(d, w, next, n)[k] == f0[k];
    } else {
      assert Firing(d, w, next, n)[k] == n - 1;
    }
  }

  /** Qalqalah fires on a letter of ق ط ب ج د marked with Sukoon (Sughra) or with no letter after it (Kubra); Sukoon wins. */
  lemma QalqalahAt(w: Str, i: nat)
    requires i < |w|
    ensures RuleAt(QalqalahScan, w, None, i).Some? <==>
      IsQalqalahLetter(w[i]) && (MarkedWith(w, i, Sukoon) || NoLetterAfter(w, i))
    ensures RuleAt(QalqalahScan, w, None, i).Some? ==>
      RuleAt(QalqalahScan, w, None, i).value == QalqalahRule(w[i], MarkedWith(w, i, Sukoon))
  {
    RunAfterLetter(w, i, Sukoon);
  }

  /** Ghunnah Mushaddada fires on every ن or م marked with Shadda, named after the letter. */
  lemma GhunnahAt(w: Str, i: nat)
    requires i < |w|
    ensures RuleAt(GhunnahScan, w, None, i).Some? <==> (w[i] == Noon || w[i] == Meem) && MarkedWith(w, i, Shadda)
    ensures RuleAt(GhunnahScan, w, None, i).Some? ==>
      RuleAt(GhunnahScan, w, None, i).value.subtype == (if w[i] == Noon then "Noon" else "Meem")
  {
    RunAfterLetter(w, i, Shadda);
  }

  /** The Qalqalah, Ghunnah and Madd positions do not depend on the next word, only Madd's kind does. */
  lemma NextWordOnlyClassifies(d: Detector, w: Str, n1: Option<Str>, n2: Option<Str>, i: nat)
    requires i < |w|
    ensures RuleAt(d, w, n1, i).Some? == RuleAt(d, w, n2, i).Some?
    ensures d == QalqalahScan || d == GhunnahScan ==> RuleAt(d, w, n1, i) == RuleAt(d, w, n2, i)
  {
  }

  /** detectNoonSakinah: the Noon Sakinah scan, then one Tanween rule if any tanween mark occurs. */
  function NoonAndTanween(w: Str, next: Option<Str>): seq<Rule> {
    Scan(NoonScan, w, next, |w|) + (if exists c :: c in w && IsTanween(c) then [TanweenRule(ClassifyNoon(next))] else [])
  }

  /** At most one Tanween rule, always last, and every rule carries the same classification. */
  lemma NoonAndTanweenShape(w: Str, next: Option<Str>)
    ensures forall r :: r in NoonAndTanween(w, next) ==> r.subtype == ClassifyNoon(next).Name()
    ensures forall k :: 0 <= k < |NoonAndTanween(w, next)| - 1 ==> NoonAndTanween(w, next)[k].rule == "Noon Sakinah"
    ensures |NoonAndTanween(w, next)| > 0 && NoonAndTanween(w, next)[|NoonAndTanween(w, next)| - 1].rule == "Tanween" <==>
      exists c :: c in w && IsTanween(c)
  {
    var s := Scan(NoonScan, w, next, |w|);
    var all := NoonAndTanween(w, next);
    ScanRulesAre(NoonScan, w, next, |w|);
    forall k | 0 <= k < |s| ensures all[k].rule == "Noon Sakinah" {
      assert all[k] == s[k] && s[k] in s;
    }
  }

  /** Every rule a scan emits is the detector's own kind of rule. */
  lemma {:induction false} ScanRulesAre(d: Detector, w: Str, next: Option<Str>, n: nat)
    requires n <= |w|
    ensures d == NoonScan ==> forall r :: r in Scan(d, w, next, n) ==> r == NoonSakinahRule(ClassifyNoon(next))
    ensures d == MeemScan ==> forall r :: r in Scan(d, w, next, n) ==> r == MeemSakinahRule(ClassifyMeem(next))
    ensures d == QalqalahScan ==> forall r :: r in Scan(d, w, next, n) ==> r.rule == "Qalqalah"
    ensures d == GhunnahScan ==> forall r :: r in Scan(d, w, next, n) ==> r.rule == "Ghunnah Mushaddada"
    ensures d == MaddScan ==> forall r :: r in Scan(d, w, next, n) ==> r.rule == "Madd"
  {
    if n > 0 {
      ScanRulesAre(d, w, next, n - 1);
    }
  }

  /**
   * The rules gathered for a word (_get_rules_for_word, and the rawRules of
   * analyzeWord): Qalqalah, Noon Sakinah / Tanween, Meem Sakinah, Ghunnah,
   * then Madd only from level 3 on.
   */
  function RulesForWord(w: Str, next: Option<Str>, level: int): seq<Rule> {
    Scan(QalqalahScan, w, None, |w|) + NoonAndTanween(w, next) + Scan(MeemScan, w, next, |w|)
      + Scan(GhunnahScan, w, None, |w|) + (if level >= 3 then Scan(MaddScan, w, next, |w|) else [])
  }

  /** Below level 3 no Madd rule is gathered; from level 3 on the Madd rules come last, in scan order. */
  lemma MaddOnlyFromLevel3(w: Str, next: Option<Str>, level: int)
    ensures level < 3 ==> forall r :: r in RulesForWord(w, next, level) ==> r.rule != "Madd"
    ensures level >= 3 ==> RulesForWord(w, next, level) == RulesForWord(w, next, 2) + Scan(MaddScan, w, next, |w|)
  {
    if level < 3 {
      ScanRulesAre(QalqalahScan, w, None, |w|);
      ScanRulesAre(NoonScan, w, next, |w|);
      ScanRulesAre(MeemScan, w, next, |w|);
      ScanRulesAre(GhunnahScan, w, None, |w|);
      var s := Scan(NoonScan, w, next, |w|);
      forall r | r in NoonAndTanween(w, next) ensures r.rule != "Madd" {
        if r !in s {
          assert r == TanweenRule(ClassifyNoon(next));
        }
      }
    }
  }
}
