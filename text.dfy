/**
 * Character-level string operations shared by the normalisers and tokenisers:
 * deleting and replacing characters (a regular-expression substitution over a
 * character class), trimming, collapsing and splitting on whitespace, joining.
 * Strings are sequences of Unicode code points.
 */
module Text {

  type Str = seq<char>

  /** Whitespace as JavaScript's trim() and the regular-expression class \s see it. */
  predicate IsJsSpace(c: char) {
    || ('\t' <= c <= '\r')
    || c == ' ' || c == '\U{00A0}' || c == '\U{1680}'
    || ('\U{2000}' <= c <= '\U{200A}')
    || c == '\U{2028}' || c == '\U{2029}' || c == '\U{202F}' || c == '\U{205F}'
    || c == '\U{3000}' || c == '\U{FEFF}'
  }

  /** Whitespace as Python's str.isspace(), str.strip(), str.split() and the regular-expression class \s see it. */
  predicate IsPySpace(c: char) {
    || ('\t' <= c <= '\r')
    || ('\U{001C}' <= c <= '\U{001F}')
    || c == ' ' || c == '\U{0085}' || c == '\U{00A0}' || c == '\U{1680}'
    || ('\U{2000}' <= c <= '\U{200A}')
    || c == '\U{2028}' || c == '\U{2029}' || c == '\U{202F}' || c == '\U{205F}'
    || c == '\U{3000}'
  }

  /** Deletes every character that drop selects (substituting '' for a character class). */
  function Remove(s: Str, drop: char -> bool): (r: Str)
    ensures |r| <= |s|
    ensures forall c :: c in r <==> c in s && !drop(c)
  {
    if s == [] then [] else (if drop(s[0]) then [] else [s[0]]) + Remove(s[1..], drop)
  }

  /** Replaces every character that from selects by to. */
  function Replace(s: Str, from: char -> bool, to: char): (r: Str)
  {
    seq(|s|, i requires 0 <= i < |s| => if from(s[i]) then to else s[i])
  }

  /** The image of a character under a replacement occurs in the result. */
  lemma ReplaceMaps(s: Str, from: char -> bool, to: char, c: char) returns (d: char)
    requires c in s
    ensures d == (if from(c) then to else c) && d in Replace(s, from, to)
  {
    var i :| 0 <= i < |s| && s[i] == c;
    d := Replace(s, from, to)[i];
  }

  lemma ReplaceChars(s: Str, from: char -> bool, to: char)
    ensures forall c :: c in Replace(s, from, to) ==> (c in s && !from(c)) || c == to
    ensures forall c :: c in s && !from(c) ==> c in Replace(s, from, to)
  {
    var r := Replace(s, from, to);
    forall c | c in r ensures (c in s && !from(c)) || c == to {
      var i :| 0 <= i < |r| && r[i] == c;
    }
    forall c | c in s && !from(c) ensures c in r {
      var i :| 0 <= i < |s| && s[i] == c;
      assert r[i] == c;
    }
  }

  /** Number of leading characters that sp selects. */
  function LeadingRun(s: Str, sp: char -> bool): (k: nat)
    ensures k <= |s|
    ensures forall i :: 0 <= i < k ==> sp(s[i])
    ensures k == |s| || !sp(s[k])
  {
    if s == [] || !sp(s[0]) then 0 else 1 + LeadingRun(s[1..], sp)
  }

  /** Index where the trailing run of characters that sp selects begins. */
  function TrailingStart(s: Str, sp: char -> bool): (k: nat)
    ensures k <= |s|
    ensures forall i :: k <= i < |s| ==> sp(s[i])
    ensures k == 0 || !sp(s[k - 1])
  {
    if s == [] || !sp(s[|s| - 1]) then |s| else TrailingStart(s[..|s| - 1], sp)
  }

  /** Deletes the leading and trailing whitespace (JavaScript trim(), Python strip()). */
  function Trim(s: Str, sp: char -> bool): (r: Str)
    ensures r == [] || (!sp(r[0]) && !sp(r[|r| - 1]))
    ensures forall c :: c in r ==> c in s
  {
    var a := LeadingRun(s, sp);
    var t := s[a..];
    var b := TrailingStart(t, sp);
    assert forall c :: c in t[..b] ==> c in s by {
      forall c | c in t[..b] ensures c in s {
        var i :| 0 <= i < b && t[..b][i] == c;
        assert s[a + i] == c;
      }
    }
    t[..b]
  }

  /** Trimming a string whose ends are not whitespace gives the string back. */
  lemma TrimUntouched(s: Str, sp: char -> bool)
    requires s == [] || (!sp(s[0]) && !sp(s[|s| - 1]))
    ensures Trim(s, sp) == s
  {
  }

  /** Trimming keeps every character that is not whitespace. */
  lemma TrimKeeps(s: Str, sp: char -> bool)
    ensures forall c :: c in s && !sp(c) ==> c in Trim(s, sp)
  {
    var a := LeadingRun(s, sp);
    var t := s[a..];
    var b := TrailingStart(t, sp);
    forall c | c in s && !sp(c) ensures c in Trim(s, sp) {
      var i :| 0 <= i < |s| && s[i] == c;
      assert a <= i;
      assert t[i - a] == c;
      assert i - a < b;
      assert t[..b][i - a] == c;
    }
  }

  /** Replacing characters none of which is selected leaves the string unchanged. */
  lemma ReplaceNothing(s: Str, from: char -> bool, to: char)
    requires forall c :: c in s ==> !from(c)
    ensures Replace(s, from, to) == s
  {
    var r := Replace(s, from, to);
    forall i | 0 <= i < |s| ensures r[i] == s[i] {
      assert s[i] in s;
    }
  }

  /** Number of leading characters that sp does not select. */
  function WordRun(s: Str, sp: char -> bool): (k: nat)
    ensures k <= |s|
    ensures forall i :: 0 <= i < k ==> !sp(s[i])
    ensures k == |s| || sp(s[k])
  {
    if s == [] || sp(s[0]) then 0 else 1 + WordRun(s[1..], sp)
  }

  /**
   * The maximal runs of non-whitespace characters, in order: JavaScript's
   * split(/\s+/) with the empty pieces filtered out, and Python's str.split().
   */
  function Tokens(s: Str, sp: char -> bool): (ws: seq<Str>)
    ensures forall w :: w in ws ==> w != [] && forall c :: c in w ==> !sp(c)
    decreases |s|
  {
    if s == [] then []
    else if sp(s[0]) then Tokens(s[1..], sp)
    else
      var k := WordRun(s, sp);
      [s[..k]] + Tokens(s[k..], sp)
  }

  /** Concatenation of a sequence of strings. */
  function Concat(ws: seq<Str>): Str {
    if ws == [] then [] else ws[0] + Concat(ws[1..])
  }

  lemma {:induction false} ConcatAppend(a: seq<Str>, b: seq<Str>)
    ensures Concat(a + b) == Concat(a) + Concat(b)
  {
    if a != [] {
      assert (a + b)[0] == a[0];
      assert (a + b)[1..] == a[1..] + b;
      ConcatAppend(a[1..], b);
      calc {
        Concat(a + b);
        a[0] + Concat(a[1..] + b);
        a[0] + (Concat(a[1..]) + Concat(b));
        (a[0] + Concat(a[1..])) + Concat(b);
      }
    } else {
      assert a + b == b;
    }
  }

  lemma {:induction false} RemoveAppend(a: Str, b: Str, drop: char -> bool)
    ensures Remove(a + b, drop) == Remove(a, drop) + Remove(b, drop)
  {
    if a != [] {
      var ab := a + b;
      assert ab[0] == a[0] && ab[1..] == a[1..] + b;
      var h := if drop(a[0]) then [] else [a[0]];
      assert Remove(ab, drop) == h + Remove(a[1..] + b, drop);
      RemoveAppend(a[1..], b, drop);
      assert Remove(a, drop) == h + Remove(a[1..], drop);
    } else {
      assert a + b == b;
    }
  }

  /** Removing characters none of which is selected leaves the string unchanged. */
  lemma {:induction false} RemoveNothing(s: Str, drop: char -> bool)
    requires forall c :: c in s ==> !drop(c)
    ensures Remove(s, drop) == s
  {
    if s != [] {
      RemoveNothing(s[1..], drop);
    }
  }

  /** The tokens, read in order, are exactly the non-whitespace characters of the text. */
  lemma {:induction false} TokensInOrder(s: Str, sp: char -> bool)
    ensures Concat(Tokens(s, sp)) == Remove(s, sp)
    decreases |s|
  {
    if s == [] {
    } else if sp(s[0]) {
      TokensInOrder(s[1..], sp);
    } else {
      var k := WordRun(s, sp);
      TokensInOrder(s[k..], sp);
      assert s == s[..k] + s[k..];
      RemoveAppend(s[..k], s[k..], sp);
      RemoveNothing(s[..k], sp);
      assert Tokens(s, sp) == [s[..k]] + Tokens(s[k..], sp);
      assert ([s[..k]] + Tokens(s[k..], sp))[1..] == Tokens(s[k..], sp);
    }
  }

  /** The words joined with sep between consecutive ones (Python's sep.join, JavaScript's join). */
  function Join(ws: seq<Str>, sep: Str): Str {
    if |ws| == 0 then [] else if |ws| == 1 then ws[0] else ws[0] + sep + Join(ws[1..], sep)
  }

  /** Every character of a join comes from a word or from the separator. */
  lemma {:induction false} JoinChars(ws: seq<Str>, sep: Str)
    ensures forall c :: c in Join(ws, sep) ==> c in sep || exists w :: w in ws && c in w
  {
    if |ws| > 1 {
      JoinChars(ws[1..], sep);
      forall c | c in Join(ws, sep) ensures c in sep || exists w :: w in ws && c in w {
        if c in ws[0] {
        } else if c in sep {
        } else {
          assert c in Join(ws[1..], sep);
          var w :| w in ws[1..] && c in w;
          assert w in ws;
        }
      }
    }
  }

  /** Splitting a space-joined list of non-empty whitespace-free words gives the words back. */
  lemma {:induction false} TokensOfJoin(ws: seq<Str>, sp: char -> bool)
    requires sp(' ')
    requires forall w :: w in ws ==> w != [] && forall c :: c in w ==> !sp(c)
    ensures Tokens(Join(ws, " "), sp) == ws
    decreases |ws|
  {
    if |ws| == 1 {
      var s := ws[0];
      assert s in ws;
      assert s + [] == s;
      WordRunOf(s, [], sp);
      assert s[..|s|] == s;
      assert s[|s|..] == [];
    } else if |ws| > 1 {
      assert ws[0] in ws;
      assert forall w :: w in ws[1..] ==> w in ws;
      var rest := " " + Join(ws[1..], " ");
      var s := ws[0] + rest;
      assert Join(ws, " ") == s;
      WordRunOf(ws[0], rest, sp);
      assert s[..|ws[0]|] == ws[0];
      assert s[|ws[0]|..] == rest;
      assert rest[1..] == Join(ws[1..], " ");
      TokensOfJoin(ws[1..], sp);
    }
  }

  lemma {:induction false} WordRunOf(w: Str, rest: Str, sp: char -> bool)
    requires w != [] && forall c :: c in w ==> !sp(c)
    requires rest == [] || sp(rest[0])
    ensures WordRun(w + rest, sp) == |w|
    decreases |w|
  {
    var s := w + rest;
    assert s[0] == w[0];
    if |w| > 1 {
      assert s[1..] == w[1..] + rest;
      WordRunOf(w[1..], rest, sp);
    } else {
      assert s[1..] == rest;
    }
  }

  /** A word run stops at the first whitespace character. */
  lemma {:induction false} WordRunStops(a: Str, rest: Str, sp: char -> bool)
    requires rest != [] && sp(rest[0])
    ensures WordRun(a + rest, sp) == WordRun(a, sp)
    decreases |a|
  {
    if a == [] {
      assert a + rest == rest;
    } else {
      assert (a + rest)[0] == a[0];
      assert (a + rest)[1..] == a[1..] + rest;
      WordRunStops(a[1..], rest, sp);
    }
  }

  /** The words of two texts joined by a space are the words of the first, then those of the second. */
  lemma {:induction false} TokensAroundSpace(a: Str, b: Str, sp: char -> bool)
    requires sp(' ')
    ensures Tokens(a + " " + b, sp) == Tokens(a, sp) + Tokens(b, sp)
    decreases |a|
  {
    var x := a + " " + b;
    if a == [] {
      assert x == " " + b;
      assert x[1..] == b;
    } else if sp(a[0]) {
      assert x[0] == a[0];
      assert x[1..] == a[1..] + " " + b;
      TokensAroundSpace(a[1..], b, sp);
    } else {
      var k := WordRun(a, sp);
      assert x == a + (" " + b);
      WordRunStops(a, " " + b, sp);
      assert x[0] == a[0];
      assert x[..k] == a[..k];
      assert x[k..] == a[k..] + " " + b;
      TokensAroundSpace(a[k..], b, sp);
    }
  }

  /** Concatenation of a sequence of sequences. */
  function Flatten<T>(xss: seq<seq<T>>): seq<T> {
    if xss == [] then [] else xss[0] + Flatten(xss[1..])
  }

  /** The words of texts joined by single spaces are the words of each text, in order. */
  lemma {:induction false} TokensOfJoinedTexts(ts: seq<Str>, sp: char -> bool)
    requires sp(' ')
    ensures Tokens(Join(ts, " "), sp) == Flatten(seq(|ts|, i requires 0 <= i < |ts| => Tokens(ts[i], sp)))
    decreases |ts|
  {
    var per := seq(|ts|, i requires 0 <= i < |ts| => Tokens(ts[i], sp));
    if |ts| == 1 {
      assert Flatten(per) == per[0] + Flatten(per[1..]);
      assert per[1..] == [];
    } else if |ts| > 1 {
      TokensAroundSpace(ts[0], Join(ts[1..], " "), sp);
      TokensOfJoinedTexts(ts[1..], sp);
      assert per[1..] == seq(|ts[1..]|, i requires 0 <= i < |ts[1..]| => Tokens(ts[1..][i], sp));
    }
  }

  /** Replaces every maximal run of whitespace by a single ' ' (Python re.sub(r'\s+', ' ', text)). */
  function CollapseSpaces(s: Str, sp: char -> bool): (r: Str)
    requires sp(' ')
    ensures forall i :: 0 <= i < |r| && sp(r[i]) ==> r[i] == ' '
    ensures forall i :: 0 <= i < |r| - 1 ==> !(sp(r[i]) && sp(r[i + 1]))
    ensures forall c :: c in r ==> c == ' ' || (c in s && !sp(c))
    ensures forall c :: c in s && !sp(c) ==> c in r
    ensures s == [] <==> r == []
    ensures r != [] ==> s != [] && (sp(r[0]) <==> sp(s[0]))
    decreases |s|
  {
    if s == [] then []
    else if sp(s[0]) then
      var k := LeadingRun(s, sp);
      var tail := CollapseSpaces(s[k..], sp);
      assert tail == [] || !sp(tail[0]);
      assert forall c :: c in s && !sp(c) ==> c in s[k..] by {
        forall c | c in s && !sp(c) ensures c in s[k..] {
          var i :| 0 <= i < |s| && s[i] == c;
          assert s[k..][i - k] == c;
        }
      }
      [' '] + tail
    else
      var tail := CollapseSpaces(s[1..], sp);
      assert forall c :: c in s ==> c == s[0] || c in s[1..];
      [s[0]] + tail
  }

  /** Whether a occurs in b as a contiguous block (Python's `a in b` on strings). */
  predicate IsSubstring(a: Str, b: Str) {
    exists i :: 0 <= i <= |b| - |a| && OccursAt(a, b, i)
  }

  predicate OccursAt(a: Str, b: Str, i: int)
    requires 0 <= i <= |b| - |a|
  {
    b[i..i + |a|] == a
  }
}
