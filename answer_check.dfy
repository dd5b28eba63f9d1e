/**
  The answer verifier of the results screen (components/ResultsView.tsx):
  the normalisation pipeline, accent folding, the two-stage comparison and
  the fold that counts correct answers and collects the mistakes.

  Characters are Unicode scalar values.  Lower-casing and accent folding are
  modelled over a fixed alphabet: ASCII plus the Spanish letters
  á é í ó ú ü ñ and their capitals.
 */
module AnswerCheck {
  import opened Types

  // ---------------------------------------------------------------------
  // Character classes
  // ---------------------------------------------------------------------

  /** JavaScript's `\s` class; `trim` removes exactly these characters too. */
  predicate IsSpace(c: char) {
    || c == ' ' || c == '\t' || c == '\n' || c == '\r'
    || c == '\U{000B}' || c == '\U{000C}' || c == '\U{00A0}' || c == '\U{1680}'
    || ('\U{2000}' <= c <= '\U{200A}')
    || c == '\U{2028}' || c == '\U{2029}' || c == '\U{202F}' || c == '\U{205F}'
    || c == '\U{3000}' || c == '\U{FEFF}'
  }

  /** The characters of the charge class `[+\-]`. */
  predicate IsSign(c: char) { c == '+' || c == '-' }

  /** The combining diacritical marks, U+0300 to U+036F. */
  predicate IsCombiningMark(c: char) { '\U{0300}' <= c <= '\U{036F}' }

  predicate NoSpace(s: string) { forall i :: 0 <= i < |s| ==> !IsSpace(s[i]) }

  predicate NoSign(s: string) { forall i :: 0 <= i < |s| ==> !IsSign(s[i]) }

  /** Every character of `s` is its own lower case. */
  predicate IsLowered(s: string) { forall i :: 0 <= i < |s| ==> LowerChar(s[i]) == s[i] }

  // ---------------------------------------------------------------------
  // trim
  // ---------------------------------------------------------------------

  function TrimStart(s: string): (r: string)
    ensures |r| <= |s| && r == s[|s| - |r|..]
    ensures r == [] || !IsSpace(r[0])
    ensures forall i :: 0 <= i < |s| - |r| ==> IsSpace(s[i])
  {
    if |s| > 0 && IsSpace(s[0]) then TrimStart(s[1..]) else s
  }

  function TrimEnd(s: string): (r: string)
    ensures |r| <= |s| && r == s[..|r|]
    ensures r == [] || !IsSpace(r[|r| - 1])
    ensures forall i :: |r| <= i < |s| ==> IsSpace(s[i])
  {
    if |s| > 0 && IsSpace(s[|s| - 1]) then TrimEnd(s[..|s| - 1]) else s
  }

  /** `String.prototype.trim`: the result is a slice of `s` with no space at
      either end, and everything cut off is space. */
  function Trim(s: string): (r: string)
    ensures exists a, b ::
      && 0 <= a <= b <= |s| && r == s[a..b]
      && (forall i :: 0 <= i < a ==> IsSpace(s[i]))
      && (forall i :: b <= i < |s| ==> IsSpace(s[i]))
    ensures r == [] || (!IsSpace(r[0]) && !IsSpace(r[|r| - 1]))
    ensures s == [] || (!IsSpace(s[0]) && !IsSpace(s[|s| - 1])) ==> r == s
  {
    var t := TrimStart(s);
    var u := TrimEnd(t);
    assert u == s[|s| - |t|..|s| - |t| + |u|];
    u
  }

  // ---------------------------------------------------------------------
  // toLowerCase, over the modelled alphabet
  // ---------------------------------------------------------------------

  function LowerChar(c: char): (r: char)
  {
    if 'A' <= c <= 'Z' then (c as int + 32) as char
    else if c == 'Á' then 'á'
    else if c == 'É' then 'é'
    else if c == 'Í' then 'í'
    else if c == 'Ó' then 'ó'
    else if c == 'Ú' then 'ú'
    else if c == 'Ü' then 'ü'
    else if c == 'Ñ' then 'ñ'
    else c
  }

  function Lower(s: string): (r: string)
    ensures |r| == |s| && forall i :: 0 <= i < |s| ==> r[i] == LowerChar(s[i])
    ensures IsLowered(r)
    ensures IsLowered(s) ==> r == s
  {
    seq(|s|, i requires 0 <= i < |s| => LowerChar(s[i]))
  }

  // ---------------------------------------------------------------------
  // /^(ion|anion|anión|cation|catión)\s+/
  // ---------------------------------------------------------------------

  /** The alternatives of the ion prefix, in the order the regex tries them. */
  const IonWords: seq<string> := ["ion", "anion", "anión", "cation", "catión"]

  /** Length of the maximal run of spaces that starts `s` (the greedy `\s+`). */
  function SpaceRun(s: string): (n: nat)
    ensures n <= |s|
    ensures forall i :: 0 <= i < n ==> IsSpace(s[i])
    ensures n < |s| ==> !IsSpace(s[n])
  {
    if |s| > 0 && IsSpace(s[0]) then 1 + SpaceRun(s[1..]) else 0
  }

  /** `w` is a prefix of `s`, compared character by character. */
  predicate StartsWith(s: string, w: string)
    ensures StartsWith(s, w) <==> w <= s
  {
    w == [] || (|s| > 0 && s[0] == w[0] && StartsWith(s[1..], w[1..]))
  }

  /** Tries the alternatives `words` in order at the start of `s`; the first
      one followed by at least one space is removed with all of those spaces. */
  function StripFirstWord(s: string, words: seq<string>): (r: string)
    ensures |r| <= |s| && r == s[|s| - |r|..]
    ensures NoSpace(s) ==> r == s
    ensures (forall k :: 0 <= k < |words| ==>
      !(StartsWith(s, words[k]) && |words[k]| < |s| && IsSpace(s[|words[k]|]))) ==> r == s
  {
    if words == [] then s
    else
      var w := words[0];
      if StartsWith(s, w) && |w| < |s| && IsSpace(s[|w|]) then s[|w| + SpaceRun(s[|w|..])..]
      else StripFirstWord(s, words[1..])
  }

  function StripIonPrefix(s: string): (r: string)
    ensures |r| <= |s| && r == s[|s| - |r|..]
    ensures NoSpace(s) ==> r == s
    ensures (forall k :: 0 <= k < |IonWords| ==>
      !(StartsWith(s, IonWords[k]) && |IonWords[k]| < |s| && IsSpace(s[|IonWords[k]|]))) ==> r == s
  {
    StripFirstWord(s, IonWords)
  }

  /** When the first alternative that matches is `words[k]`, followed by a
      space, the word and the whole run of spaces after it are removed. */
  lemma {:induction false} StripFirstWordAt(s: string, words: seq<string>, k: nat)
    requires k < |words|
    requires forall j :: 0 <= j < k ==> !StartsWith(s, words[j])
    requires StartsWith(s, words[k]) && |words[k]| < |s| && IsSpace(s[|words[k]|])
    ensures StripFirstWord(s, words) == s[|words[k]| + SpaceRun(s[|words[k]|..])..]
  {
    if k > 0 {
      StripFirstWordAt(s, words[1..], k - 1);
    }
  }

  /** A run of spaces followed by text that does not start with a space is
      one whole `\s+` match. */
  lemma {:induction false} SpaceRunOf(sp: string, t: string)
    requires forall i :: 0 <= i < |sp| ==> IsSpace(sp[i])
    requires t == [] || !IsSpace(t[0])
    ensures SpaceRun(sp + t) == |sp|
  {
    if sp == [] {
      assert sp + t == t;
    } else {
      assert (sp + t)[0] == sp[0] && (sp + t)[1..] == sp[1..] + t;
      SpaceRunOf(sp[1..], t);
    }
  }

  /** Two different ion words disagree at some position both of them have,
      so no ion word is a prefix of another. */
  lemma IonWordsClash(j: nat, k: nat)
    requires j < k < |IonWords|
    ensures exists i :: 0 <= i < |IonWords[j]| && i < |IonWords[k]| && IonWords[j][i] != IonWords[k][i]
  {
    var a, b := IonWords[j], IonWords[k];
    if a[0] != b[0] {
      assert 0 < |a| && 0 < |b|;
    } else if j == 1 && k == 2 {
      assert a[3] != b[3];
    } else {
      assert j == 3 && k == 4;
      assert a[4] != b[4];
    }
  }

  /** A leading ion word followed by one or more spaces is removed together
      with all of those spaces, whichever of the five words it is. */
  lemma StripIonWord(k: nat, sp: string, t: string)
    requires k < |IonWords|
    requires sp != [] && forall i :: 0 <= i < |sp| ==> IsSpace(sp[i])
    requires t == [] || !IsSpace(t[0])
    ensures StripIonPrefix(IonWords[k] + sp + t) == t
  {
    var w := IonWords[k];
    var s := w + sp + t;
    assert s[..|w|] == w;
    assert s[|w|..] == sp + t;
    assert s[|w|] == sp[0];
    forall j | 0 <= j < k ensures !StartsWith(s, IonWords[j]) {
      IonWordsClash(j, k);
      var i :| 0 <= i < |IonWords[j]| && i < |w| && IonWords[j][i] != w[i];
      assert s[i] == w[i];
    }
    StripFirstWordAt(s, IonWords, k);
    SpaceRunOf(sp, t);
    assert s[|w| + |sp|..] == t;
  }

  // ---------------------------------------------------------------------
  // /(\^?\d*[+\-])/g
  // ---------------------------------------------------------------------

  /** Length of the maximal run of digits that starts `s` (the greedy `\d*`). */
  function DigitRun(s: string): (n: nat)
    ensures n <= |s|
    ensures forall i :: 0 <= i < n ==> IsDigit(s[i])
    ensures n < |s| ==> !IsDigit(s[n])
  {
    if |s| > 0 && IsDigit(s[0]) then 1 + DigitRun(s[1..]) else 0
  }

  /** Length of the match of `\^?\d*[+\-]` that starts at the first character
      of `s`, or 0 when there is none.  The optional caret is tried first. */
  function ChargeAt(s: string): (n: nat)
    ensures n <= |s|
    ensures n > 0 ==> IsSign(s[n - 1])
    ensures |s| > 0 && IsSign(s[0]) ==> n == 1
  {
    if |s| > 0 && s[0] == '^' && 1 + DigitRun(s[1..]) < |s| && IsSign(s[1 + DigitRun(s[1..])]) then
      2 + DigitRun(s[1..])
    else if DigitRun(s) < |s| && IsSign(s[DigitRun(s)]) then
      DigitRun(s) + 1
    else
      0
  }

  /** The global replace: scanning left to right, every match is deleted and
      the scan resumes after it. */
  function StripCharges(s: string): (r: string)
    ensures NoSign(r)
    decreases |s|
  {
    if s == [] then []
    else
      var m := ChargeAt(s);
      if m > 0 then StripCharges(s[m..])
      else [s[0]] + StripCharges(s[1..])
  }

  /** A character that is neither a caret, a digit nor a sign ends every
      digit run, and every charge match, that reaches it. */
  lemma {:induction false} DigitRunStops(a: string, c: char, b: string)
    requires !IsDigit(c)
    ensures DigitRun(a + [c] + b) == DigitRun(a)
  {
    if a == [] {
      assert a + [c] + b == [c] + b;
    } else {
      assert (a + [c] + b)[0] == a[0] && (a + [c] + b)[1..] == a[1..] + [c] + b;
      if IsDigit(a[0]) {
        DigitRunStops(a[1..], c, b);
      }
    }
  }

  lemma ChargeAtStops(a: string, c: char, b: string)
    requires c != '^' && !IsDigit(c) && !IsSign(c)
    ensures ChargeAt(a + [c] + b) == ChargeAt(a)
  {
    var s := a + [c] + b;
    DigitRunStops(a, c, b);
    assert s[|a|] == c;
    forall i | 0 <= i < |a| ensures s[i] == a[i] { }
    if a != [] {
      assert s[1..] == a[1..] + [c] + b;
      DigitRunStops(a[1..], c, b);
    }
  }

  /** Charges are deleted independently on both sides of a plain
      character, which itself is kept: the text between matches survives. */
  lemma {:induction false} PlainSplits(a: string, c: char, b: string)
    requires c != '^' && !IsDigit(c) && !IsSign(c)
    ensures StripCharges(a + [c] + b) == StripCharges(a) + [c] + StripCharges(b)
    decreases |a|
  {
    var s := a + [c] + b;
    ChargeAtStops(a, c, b);
    if a == [] {
      assert s == [c] + b && s[1..] == b;
      assert ChargeAt(s) == 0;
    } else {
      var m := ChargeAt(a);
      if m > 0 {
        assert s[m..] == a[m..] + [c] + b;
        PlainSplits(a[m..], c, b);
      } else {
        assert s[0] == a[0] && s[1..] == a[1..] + [c] + b;
        PlainSplits(a[1..], c, b);
      }
    }
  }

  /** A whole match of `\^?\d*[+\-]` at the front is deleted, and the scan
      resumes right after it. */
  lemma ChargeMatchDeleted(caret: bool, d: string, sign: char, t: string)
    requires forall i :: 0 <= i < |d| ==> IsDigit(d[i])
    requires IsSign(sign)
    ensures StripCharges((if caret then "^" else "") + d + [sign] + t) == StripCharges(t)
  {
    var m := (if caret then "^" else "") + d + [sign];
    var s := m + t;
    DigitRunStops(d, sign, t);
    assert DigitRun(d) == |d|;
    if caret {
      assert s[0] == '^' && s[1..] == d + [sign] + t;
      assert s[1 + |d|] == sign;
    } else {
      assert s == d + [sign] + t;
      assert s[|d|] == sign;
      assert d != [] ==> s[0] == d[0];
    }
    assert ChargeAt(s) == |m|;
    assert s[|m|..] == t;
  }

  /** Deleting charges keeps an answer lower case, and an answer with no sign
      has nothing to delete. */
  lemma {:induction false} StripChargesKeeps(s: string)
    ensures IsLowered(s) ==> IsLowered(StripCharges(s))
    ensures NoSign(s) ==> StripCharges(s) == s
    decreases |s|
  {
    if s != [] {
      var m := ChargeAt(s);
      if m > 0 {
        StripChargesKeeps(s[m..]);
        assert IsLowered(s) ==> IsLowered(s[m..]);
      } else {
        StripChargesKeeps(s[1..]);
        assert IsLowered(s) ==> IsLowered(s[1..]);
        assert NoSign(s) ==> NoSign(s[1..]);
        assert NoSign(s) ==> [s[0]] + s[1..] == s;
        var r := [s[0]] + StripCharges(s[1..]);
        assert IsLowered(s) ==> IsLowered(r) by {
          if IsLowered(s) {
            forall i | 0 <= i < |r| ensures LowerChar(r[i]) == r[i] {
              if i > 0 { assert r[i] == StripCharges(s[1..])[i - 1]; }
            }
          }
        }
      }
    }
  }

  // ---------------------------------------------------------------------
  // /\s+/g replaced by ''
  // ---------------------------------------------------------------------

  function RemoveSpaces(s: string): (r: string)
    ensures NoSpace(r)
  {
    if s == [] then []
    else if IsSpace(s[0]) then RemoveSpaces(s[1..])
    else [s[0]] + RemoveSpaces(s[1..])
  }

  /** Deleting spaces keeps an answer lower case and free of signs, and an
      answer with no space has nothing to delete. */
  lemma {:induction false} RemoveSpacesKeeps(s: string)
    ensures IsLowered(s) ==> IsLowered(RemoveSpaces(s))
    ensures NoSign(s) ==> NoSign(RemoveSpaces(s))
    ensures NoSpace(s) ==> RemoveSpaces(s) == s
  {
    if s != [] {
      RemoveSpacesKeeps(s[1..]);
      assert IsLowered(s) ==> IsLowered(s[1..]);
      assert NoSign(s) ==> NoSign(s[1..]);
      assert NoSpace(s) ==> NoSpace(s[1..]) && [s[0]] + s[1..] == s;
      if !IsSpace(s[0]) {
        var t := RemoveSpaces(s[1..]);
        var r := [s[0]] + t;
        assert IsLowered(s) ==> IsLowered(r) by {
          if IsLowered(s) {
            forall i | 0 <= i < |r| ensures LowerChar(r[i]) == r[i] {
              if i > 0 { assert r[i] == t[i - 1]; }
            }
          }
        }
        assert NoSign(s) ==> NoSign(r) by {
          if NoSign(s) {
            forall i | 0 <= i < |r| ensures !IsSign(r[i]) {
              if i > 0 { assert r[i] == t[i - 1]; }
            }
          }
        }
      }
    }
  }

  // ---------------------------------------------------------------------
  // normalizeAnswer
  // ---------------------------------------------------------------------

  lemma LoweredSuffix(s: string, k: nat)
    requires IsLowered(s) && k <= |s|
    ensures IsLowered(s[k..])
  {
    forall i | 0 <= i < |s| - k ensures LowerChar(s[k..][i]) == s[k..][i] {
      assert s[k..][i] == s[k + i];
    }
  }

  /** `normalizeAnswer`: trim, lower-case, drop one ion prefix, delete every
      charge, delete every space.  The result has no space and no sign, and
      every character is already lower case. */
  function Normalize(s: string): (r: string)
    ensures NoSpace(r) && NoSign(r)
    ensures IsLowered(r)
  {
    if s == "" then ""
    else
      var l := Lower(Trim(s));
      var u := StripIonPrefix(l);
      LoweredSuffix(l, |l| - |u|);
      var t := StripCharges(u);
      StripChargesKeeps(u);
      RemoveSpacesKeeps(t);
      RemoveSpaces(t)
  }

  /** Normalising twice is normalising once. */
  lemma NormalizeIdempotent(s: string)
    ensures Normalize(Normalize(s)) == Normalize(s)
  {
    var t := Normalize(s);
    if t != "" {
      assert Trim(t) == t;
      assert Lower(t) == t;
      StripChargesKeeps(t);
      RemoveSpacesKeeps(t);
    }
  }

  lemma RemoveSpacesAppend(a: string, b: string)
    ensures RemoveSpaces(a + b) == RemoveSpaces(a) + RemoveSpaces(b)
  {
    if a != [] {
      assert (a + b)[0] == a[0] && (a + b)[1..] == a[1..] + b;
      RemoveSpacesAppend(a[1..], b);
      if !IsSpace(a[0]) {
        assert RemoveSpaces(a + b) == [a[0]] + (RemoveSpaces(a[1..]) + RemoveSpaces(b));
      }
    } else {
      assert a + b == b;
    }
  }

  lemma SeqConsAssoc(a: string, t: string)
    requires a != []
    ensures [a[0]] + (a[1..] + t) == a + t
  {
    assert [a[0]] + a[1..] == a;
  }

  /** A prefix with no sign, digit or caret cannot take part in a charge match. */
  lemma StripChargesPlainPrefix(a: string, b: string)
    requires forall i :: 0 <= i < |a| ==> !IsSign(a[i]) && !IsDigit(a[i]) && a[i] != '^'
    ensures StripCharges(a + b) == a + StripCharges(b)
  {
    if a != [] {
      var s := a + b;
      assert s[0] == a[0] && s[1..] == a[1..] + b;
      assert DigitRun(s) == 0;
      assert ChargeAt(s) == 0;
      StripChargesPlainPrefix(a[1..], b);
      calc {
        StripCharges(s);
        [s[0]] + StripCharges(s[1..]);
        [a[0]] + StripCharges(a[1..] + b);
        [a[0]] + (a[1..] + StripCharges(b));
        { SeqConsAssoc(a, StripCharges(b)); }
        a + StripCharges(b);
      }
    } else {
      assert a + b == b;
    }
  }

  // ---------------------------------------------------------------------
  // removeAccents
  // ---------------------------------------------------------------------

  /** The accented letters of the modelled alphabet. */
  const Accented: string := "áéíóúüñÁÉÍÓÚÜÑ"

  /** The base letter of a precomposed accented letter of the alphabet. */
  function FoldChar(c: char): (r: char)
    ensures !IsCombiningMark(r) || r == c
  {
    if c == 'á' then 'a' else if c == 'é' then 'e' else if c == 'í' then 'i'
    else if c == 'ó' then 'o' else if c == 'ú' || c == 'ü' then 'u' else if c == 'ñ' then 'n'
    else if c == 'Á' then 'A' else if c == 'É' then 'E' else if c == 'Í' then 'I'
    else if c == 'Ó' then 'O' else if c == 'Ú' || c == 'Ü' then 'U' else if c == 'Ñ' then 'N'
    else c
  }

  /** The fold table: each accented letter goes to its base letter, in the
      same case, and every other character is kept. */
  lemma FoldTable()
    ensures FoldChar('á') == 'a' && FoldChar('é') == 'e' && FoldChar('í') == 'i' && FoldChar('ó') == 'o'
    ensures FoldChar('ú') == 'u' && FoldChar('ü') == 'u' && FoldChar('ñ') == 'n'
    ensures FoldChar('Á') == 'A' && FoldChar('É') == 'E' && FoldChar('Í') == 'I' && FoldChar('Ó') == 'O'
    ensures FoldChar('Ú') == 'U' && FoldChar('Ü') == 'U' && FoldChar('Ñ') == 'N'
    ensures forall c :: c !in Accented ==> FoldChar(c) == c
  {
  }

  /** `removeAccents`: decomposition followed by deletion of every combining
      mark, so accented letters fold to their base and stray marks vanish. */
  function RemoveAccents(s: string): (r: string)
    ensures |r| <= |s|
  {
    if s == [] then []
    else if IsCombiningMark(s[0]) then RemoveAccents(s[1..])
    else [FoldChar(s[0])] + RemoveAccents(s[1..])
  }

  /** No combining mark survives accent removal. */
  lemma {:induction false} RemoveAccentsNoMarks(s: string)
    ensures forall i :: 0 <= i < |RemoveAccents(s)| ==> !IsCombiningMark(RemoveAccents(s)[i])
  {
    if s != [] {
      RemoveAccentsNoMarks(s[1..]);
      if !IsCombiningMark(s[0]) {
        var t := RemoveAccents(s[1..]);
        var r := [FoldChar(s[0])] + t;
        forall i | 0 <= i < |r| ensures !IsCombiningMark(r[i]) {
          if i > 0 { assert r[i] == t[i - 1]; }
        }
      }
    }
  }

  /** `acceptedAnswers.map(normalizeAnswer)`. */
  function NormalizeAll(xs: seq<string>): (r: seq<string>)
    ensures |r| == |xs| && forall i :: 0 <= i < |xs| ==> r[i] == Normalize(xs[i])
  {
    if xs == [] then [] else [Normalize(xs[0])] + NormalizeAll(xs[1..])
  }

  /** `normalizedAccepted.map(removeAccents)`. */
  function FoldAll(xs: seq<string>): (r: seq<string>)
    ensures |r| == |xs| && forall i :: 0 <= i < |xs| ==> r[i] == RemoveAccents(xs[i])
  {
    if xs == [] then [] else [RemoveAccents(xs[0])] + FoldAll(xs[1..])
  }

  lemma InNormalizeAll(xs: seq<string>, x: string)
    ensures x in NormalizeAll(xs) <==> exists a :: a in xs && Normalize(a) == x
  {
    var r := NormalizeAll(xs);
    if x in r {
      var i :| 0 <= i < |r| && r[i] == x;
      assert xs[i] in xs;
    }
    if exists a :: a in xs && Normalize(a) == x {
      var a :| a in xs && Normalize(a) == x;
      var i :| 0 <= i < |xs| && xs[i] == a;
      assert r[i] == x;
    }
  }

  lemma InFoldAll(xs: seq<string>, x: string)
    ensures x in FoldAll(NormalizeAll(xs)) <==> exists a :: a in xs && RemoveAccents(Normalize(a)) == x
  {
    var r := FoldAll(NormalizeAll(xs));
    if x in r {
      var i :| 0 <= i < |r| && r[i] == x;
      assert xs[i] in xs;
    }
    if exists a :: a in xs && RemoveAccents(Normalize(a)) == x {
      var a :| a in xs && RemoveAccents(Normalize(a)) == x;
      var i :| 0 <= i < |xs| && xs[i] == a;
      assert r[i] == x;
    }
  }

  lemma RemoveAccentsAppend(a: string, b: string)
    ensures RemoveAccents(a + b) == RemoveAccents(a) + RemoveAccents(b)
  {
    if a != [] {
      assert (a + b)[0] == a[0] && (a + b)[1..] == a[1..] + b;
      RemoveAccentsAppend(a[1..], b);
      if !IsCombiningMark(a[0]) {
        assert RemoveAccents(a + b) == [FoldChar(a[0])] + (RemoveAccents(a[1..]) + RemoveAccents(b));
      }
    } else {
      assert a + b == b;
    }
  }

  // ---------------------------------------------------------------------
  // checkAnswer
  // ---------------------------------------------------------------------

  datatype Verdict = Verdict(isCorrect: bool, accentError: bool)

  /** The user's normalised answer equals the normalised canonical answer or
      a normalised accepted one. */
  ghost predicate ExactMatch(user: string, correct: string, accepted: seq<string>) {
    || Normalize(user) == Normalize(correct)
    || exists a :: a in accepted && Normalize(a) == Normalize(user)
  }

  /** The same comparison after accent folding. */
  ghost predicate LooseMatch(user: string, correct: string, accepted: seq<string>) {
    || RemoveAccents(Normalize(user)) == RemoveAccents(Normalize(correct))
    || exists a :: a in accepted && RemoveAccents(Normalize(a)) == RemoveAccents(Normalize(user))
  }

  lemma ExactIsLoose(user: string, correct: string, accepted: seq<string>)
    ensures ExactMatch(user, correct, accepted) ==> LooseMatch(user, correct, accepted)
  {
  }

  function CheckAnswer(user: string, correct: string, accepted: seq<string>): (v: Verdict)
    ensures user == "" ==> v == Verdict(false, false)
    ensures v.accentError ==> v.isCorrect
    ensures user != "" && ExactMatch(user, correct, accepted) ==> v == Verdict(true, false)
    ensures v == Verdict(true, true) <==> user != "" && !ExactMatch(user, correct, accepted) && LooseMatch(user, correct, accepted)
    ensures v.isCorrect <==> user != "" && LooseMatch(user, correct, accepted)
  {
    if user == "" then Verdict(false, false)
    else
      ExactIsLoose(user, correct, accepted);
      var normUser := Normalize(user);
      var normCorrect := Normalize(correct);
      var normAccepted := NormalizeAll(accepted);
      if normUser == normCorrect then Verdict(true, false)
      else if normUser in normAccepted then Verdict(true, false)
      else
        var looseUser := RemoveAccents(normUser);
        var looseCorrect := RemoveAccents(normCorrect);
        var looseAccepted := FoldAll(normAccepted);
        InNormalizeAll(accepted, normUser);
        InFoldAll(accepted, looseUser);
        if looseUser == looseCorrect then Verdict(true, true)
        else if looseUser in looseAccepted then Verdict(true, true)
        else Verdict(false, false)
  }

  lemma {:induction false} TrimStartAllSpace(s: string)
    requires forall i :: 0 <= i < |s| ==> IsSpace(s[i])
    ensures TrimStart(s) == []
  {
    if s != [] {
      assert IsSpace(s[0]);
      TrimStartAllSpace(s[1..]);
    }
  }

  /** An answer made only of spaces normalises to the empty string. */
  lemma BlankNormal(user: string)
    requires user != "" && forall i :: 0 <= i < |user| ==> IsSpace(user[i])
    ensures Normalize(user) == ""
  {
    TrimStartAllSpace(user);
    assert Trim(user) == [];
    assert Lower([]) == [];
    assert StripIonPrefix([]) == [];
    assert Normalize(user) == RemoveSpaces(StripCharges([]));
  }

  /** Such an answer gets past the emptiness test, which looks at the raw
      string, and is accepted exactly when the correct answer also
      normalises to nothing. */
  lemma BlankAnswer(user: string, correct: string)
    requires user != "" && forall i :: 0 <= i < |user| ==> IsSpace(user[i])
    ensures CheckAnswer(user, correct, []).isCorrect <==> RemoveAccents(Normalize(correct)) == ""
  {
    BlankNormal(user);
    assert RemoveAccents([]) == [];
    LooseWithoutAccepted(user, correct);
  }

  /** With no accepted alternatives, the loose match is the accent-free
      comparison with the correct answer alone. */
  lemma LooseWithoutAccepted(user: string, correct: string)
    ensures LooseMatch(user, correct, []) <==> RemoveAccents(Normalize(user)) == RemoveAccents(Normalize(correct))
  {
  }

  // ---------------------------------------------------------------------
  // The results fold (correct count and list of mistakes)
  // ---------------------------------------------------------------------

  /** `userAnswers[q.id] || ''`: a question nobody answered counts as the
      empty answer. */
  function AnswerFor(answers: map<int, string>, id: int): string {
    if id in answers then answers[id] else ""
  }

  /** The verdict for one question of the results screen.  A question with
      no stored answer, or with an empty one, is always wrong. */
  function Check(q: Question, answers: map<int, string>): (v: Verdict)
    ensures q.id !in answers || answers[q.id] == "" ==> v == Verdict(false, false)
    ensures v.isCorrect ==> q.id in answers && answers[q.id] != ""
  {
    CheckAnswer(AnswerFor(answers, q.id), q.correctAnswer, q.acceptedAnswers)
  }

  /** A question with its verdict, as the fold's `map` returns it. */
  datatype Graded = Graded(question: Question, isCorrect: bool, accentError: bool)

  function GradeOne(q: Question, answers: map<int, string>): Graded {
    Graded(q, Check(q, answers).isCorrect, Check(q, answers).accentError)
  }

  /** How many of `qs` are answered correctly. */
  function CorrectCount(qs: seq<Question>, answers: map<int, string>): (n: nat)
    ensures n <= |qs|
  {
    if qs == [] then 0
    else CorrectCount(qs[..|qs| - 1], answers) + (if Check(qs[|qs| - 1], answers).isCorrect then 1 else 0)
  }

  /** The questions of `qs` answered incorrectly, in their order in `qs`. */
  function Mistakes(qs: seq<Question>, answers: map<int, string>): (m: seq<Question>)
    ensures |m| <= |qs|
  {
    if qs == [] then []
    else Mistakes(qs[..|qs| - 1], answers) + (if Check(qs[|qs| - 1], answers).isCorrect then [] else [qs[|qs| - 1]])
  }

  /** Every question is counted correct or listed as a mistake, never both. */
  lemma {:induction false} CountsPartition(qs: seq<Question>, answers: map<int, string>)
    ensures CorrectCount(qs, answers) + |Mistakes(qs, answers)| == |qs|
  {
    if qs != [] {
      CountsPartition(qs[..|qs| - 1], answers);
    }
  }

  /** The mistakes are exactly the questions whose check fails. */
  lemma {:induction false} MistakesAreFailures(qs: seq<Question>, answers: map<int, string>, q: Question)
    ensures q in Mistakes(qs, answers) <==> q in qs && !Check(q, answers).isCorrect
  {
    if qs != [] {
      var init := qs[..|qs| - 1];
      MistakesAreFailures(init, answers, q);
      assert qs == init + [qs[|qs| - 1]];
    }
  }

  /** A question nobody answered is always among the mistakes. */
  lemma UnansweredIsMistake(qs: seq<Question>, answers: map<int, string>, q: Question)
    requires q in qs && q.id !in answers
    ensures q in Mistakes(qs, answers)
  {
    MistakesAreFailures(qs, answers, q);
  }

  /** With no answers at all, nothing is counted correct and every question,
      in order, is a mistake. */
  lemma {:induction false} NothingAnswered(qs: seq<Question>)
    ensures CorrectCount(qs, map[]) == 0
    ensures Mistakes(qs, map[]) == qs
  {
    if qs != [] {
      NothingAnswered(qs[..|qs| - 1]);
      assert qs[..|qs| - 1] + [qs[|qs| - 1]] == qs;
    }
  }

  /** The graded list the fold's `map` builds, one entry per question. */
  function GradeAll(qs: seq<Question>, answers: map<int, string>): (r: seq<Graded>)
    ensures |r| == |qs|
  {
    if qs == [] then [] else GradeAll(qs[..|qs| - 1], answers) + [GradeOne(qs[|qs| - 1], answers)]
  }

  lemma {:induction false} GradeAllPointwise(qs: seq<Question>, answers: map<int, string>)
    ensures |GradeAll(qs, answers)| == |qs|
    ensures forall i :: 0 <= i < |qs| ==> GradeAll(qs, answers)[i] == GradeOne(qs[i], answers)
  {
    if qs != [] {
      var init := qs[..|qs| - 1];
      GradeAllPointwise(init, answers);
      forall i | 0 <= i < |qs| ensures GradeAll(qs, answers)[i] == GradeOne(qs[i], answers) {
        if i < |init| { assert qs[i] == init[i]; }
      }
    }
  }

  /** One more question folded in. */
  lemma FoldStep(qs: seq<Question>, answers: map<int, string>, i: nat)
    requires i < |qs|
    ensures CorrectCount(qs[..i + 1], answers) ==
      CorrectCount(qs[..i], answers) + (if Check(qs[i], answers).isCorrect then 1 else 0)
    ensures Mistakes(qs[..i + 1], answers) ==
      Mistakes(qs[..i], answers) + (if Check(qs[i], answers).isCorrect then [] else [qs[i]])
    ensures GradeAll(qs[..i + 1], answers) == GradeAll(qs[..i], answers) + [GradeOne(qs[i], answers)]
  {
    assert qs[..i + 1][..i] == qs[..i] && qs[..i + 1][i] == qs[i];
  }

  /** The fold of the results screen, with its mutable counter and list:
      grades every question in order, counting the correct ones and
      collecting the others. */
  method Grade(qs: seq<Question>, answers: map<int, string>)
    returns (correctCount: nat, mistakes: seq<Question>, results: seq<Graded>)
    ensures correctCount == CorrectCount(qs, answers)
    ensures mistakes == Mistakes(qs, answers)
    ensures |results| == |qs| && forall i :: 0 <= i < |qs| ==> results[i] == GradeOne(qs[i], answers)
  {
    correctCount := 0;
    mistakes := [];
    results := [];
    for i := 0 to |qs|
      invariant correctCount == CorrectCount(qs[..i], answers)
      invariant mistakes == Mistakes(qs[..i], answers)
      invariant results == GradeAll(qs[..i], answers)
    {
      var q := qs[i];
      var v := Check(q, answers);
      FoldStep(qs, answers, i);
      if v.isCorrect {
        correctCount := correctCount + 1;
      } else {
        mistakes := mistakes + [q];
      }
      results := results + [Graded(q, v.isCorrect, v.accentError)];
    }
    assert qs[..|qs|] == qs;
    GradeAllPointwise(qs, answers);
  }

}


/**
  Worked examples of the answer check, each derived
  from a general lemma about a family of answers: words of lower-case
  letters, joined by single spaces or followed by a charge.
 */
module AnswerCheckExamples {
  import opened AnswerCheck
  import opened Types

  /** A lower-case letter of the modelled alphabet. */
  predicate IsLetter(c: char) {
    ('a' <= c <= 'z') || c == 'á' || c == 'é' || c == 'í' || c == 'ó' || c == 'ú' || c == 'ü' || c == 'ñ'
  }

  predicate IsWord(w: string) {
    w != [] && forall i :: 0 <= i < |w| ==> IsLetter(w[i])
  }

  /** No ion word followed by a space opens `s`. */
  predicate NoIonHead(s: string) {
    forall k :: 0 <= k < |IonWords| ==>
      !(StartsWith(s, IonWords[k]) && |IonWords[k]| < |s| && IsSpace(s[|IonWords[k]|]))
  }

  /** Trim, lower-casing and the ion prefix leave such an answer alone, so
      normalising only deletes charges and spaces. */
  lemma NormalizeQuiet(s: string)
    requires s != [] && !IsSpace(s[0]) && !IsSpace(s[|s| - 1])
    requires IsLowered(s) && NoIonHead(s)
    ensures Normalize(s) == RemoveSpaces(StripCharges(s))
  {
    assert Trim(s) == s;
    assert Lower(s) == s;
  }

  /** Every ion word is itself a word: it holds no space. */
  lemma IonWordsAreWords()
    ensures forall k :: 0 <= k < |IonWords| ==> IsWord(IonWords[k])
  {
    assert IsWord("ion") && IsWord("anion") && IsWord("anión");
    assert IsWord("cation") && IsWord("catión");
  }

  /** A word that is not itself an ion word, followed by a space, cannot
      start with an ion word followed by a space. */
  lemma PhraseHead(w: string, rest: string)
    requires IsWord(w) && w !in IonWords
    requires rest != [] && IsSpace(rest[0])
    ensures NoIonHead(w + rest)
  {
    var s := w + rest;
    IonWordsAreWords();
    forall k | 0 <= k < |IonWords| && StartsWith(s, IonWords[k]) && |IonWords[k]| < |s|
      ensures !IsSpace(s[|IonWords[k]|])
    {
      var v := IonWords[k];
      assert s[..|v|] == v;
      if |v| < |w| {
        assert s[|v|] == w[|v|];
        LetterFacts(w[|v|]);
      } else if |v| > |w| {
        assert v[|w|] == s[|w|] == rest[0];
        LetterFacts(v[|w|]);
      }
    }
  }

  lemma LetterFacts(c: char)
    requires IsLetter(c)
    ensures LowerChar(c) == c && !IsSpace(c) && !IsSign(c) && !IsDigit(c) && c != '^'
  {
  }

  lemma WordFacts(w: string)
    requires IsWord(w)
    ensures IsLowered(w) && NoSpace(w) && NoSign(w)
    ensures forall i :: 0 <= i < |w| ==> !IsDigit(w[i]) && w[i] != '^'
  {
    forall i | 0 <= i < |w|
      ensures LowerChar(w[i]) == w[i] && !IsSpace(w[i]) && !IsSign(w[i]) && !IsDigit(w[i]) && w[i] != '^'
    {
      LetterFacts(w[i]);
    }
  }

  lemma LoweredConcat(a: string, b: string)
    requires IsLowered(a) && IsLowered(b)
    ensures IsLowered(a + b)
  {
    forall i | 0 <= i < |a + b| ensures LowerChar((a + b)[i]) == (a + b)[i] {
      if i < |a| { assert (a + b)[i] == a[i]; } else { assert (a + b)[i] == b[i - |a|]; }
    }
  }

  lemma NoSignConcat(a: string, b: string)
    requires NoSign(a) && NoSign(b)
    ensures NoSign(a + b)
  {
    forall i | 0 <= i < |a + b| ensures !IsSign((a + b)[i]) {
      if i < |a| { assert (a + b)[i] == a[i]; } else { assert (a + b)[i] == b[i - |a|]; }
    }
  }

  lemma DigitsLowered(d: string)
    requires forall i :: 0 <= i < |d| ==> IsDigit(d[i])
    ensures IsLowered(d)
  {
    forall i | 0 <= i < |d| ensures LowerChar(d[i]) == d[i] {
      assert IsDigit(d[i]);
    }
  }

  /** A word normalises to itself. */
  lemma WordNormal(w: string)
    requires IsWord(w)
    ensures Normalize(w) == w
  {
    WordFacts(w);
    LetterFacts(w[0]);
    LetterFacts(w[|w| - 1]);
    NormalizeQuiet(w);
    StripChargesKeeps(w);
    RemoveSpacesKeeps(w);
  }

  lemma ChargedWordQuiet(a: string, d: string, sign: char)
    requires IsWord(a)
    requires forall i :: 0 <= i < |d| ==> IsDigit(d[i])
    requires IsSign(sign)
    ensures Normalize(a + (d + [sign])) == RemoveSpaces(StripCharges(a + (d + [sign])))
  {
    var t := d + [sign];
    var s := a + t;
    WordFacts(a);
    LetterFacts(a[0]);
    DigitsLowered(d);
    assert IsLowered([sign]);
    LoweredConcat(d, [sign]);
    LoweredConcat(a, t);
    forall i | 0 <= i < |s| ensures !IsSpace(s[i]) {
      if i < |a| { assert s[i] == a[i]; } else { assert s[i] == t[i - |a|]; }
    }
    assert s[0] == a[0] && s[|s| - 1] == sign;
    NormalizeQuiet(s);
  }

  /** A run of digits closed by a sign is one whole charge match. */
  lemma ChargeOnly(d: string, sign: char)
    requires forall i :: 0 <= i < |d| ==> IsDigit(d[i])
    requires IsSign(sign)
    ensures StripCharges(d + [sign]) == []
  {
    ChargeMatchDeleted(false, d, sign, []);
    assert (if false then "^" else "") + d + [sign] + [] == d + [sign];
  }

  /** A trailing charge, with every digit in front of its sign, is deleted
      from a word: `\d*` swallows a subscript as well as a charge number. */
  lemma ChargeSuffixIgnored(a: string, d: string, sign: char)
    requires IsWord(a)
    requires forall i :: 0 <= i < |d| ==> IsDigit(d[i])
    requires IsSign(sign)
    ensures Normalize(a + d + [sign]) == a
  {
    var t := d + [sign];
    assert a + d + [sign] == a + t;
    ChargedWordQuiet(a, d, sign);
    WordFacts(a);
    StripChargesPlainPrefix(a, t);
    ChargeOnly(d, sign);
    assert a + [] == a;
    RemoveSpacesKeeps(a);
  }

  /** Three words separated by single spaces, as one string. */
  function Phrase(w1: string, w2: string, w3: string): string {
    w1 + ([' '] + (w2 + ([' '] + w3)))
  }

  lemma PhraseQuiet(w1: string, w2: string, w3: string)
    requires IsWord(w1) && IsWord(w2) && IsWord(w3) && w1 !in IonWords
    ensures Normalize(Phrase(w1, w2, w3)) == RemoveSpaces(Phrase(w1, w2, w3))
  {
    var sp := [' '];
    var tail := w2 + (sp + w3);
    var s := w1 + (sp + tail);
    assert s == Phrase(w1, w2, w3);
    WordFacts(w1);
    WordFacts(w2);
    WordFacts(w3);
    assert IsLowered(sp) && NoSign(sp);
    LoweredConcat(sp, w3);
    LoweredConcat(w2, sp + w3);
    LoweredConcat(sp, tail);
    LoweredConcat(w1, sp + tail);
    NoSignConcat(sp, w3);
    NoSignConcat(w2, sp + w3);
    NoSignConcat(sp, tail);
    NoSignConcat(w1, sp + tail);
    LetterFacts(w1[0]);
    LetterFacts(w3[|w3| - 1]);
    assert s[0] == w1[0] && s[|s| - 1] == w3[|w3| - 1];
    PhraseHead(w1, sp + tail);
    NormalizeQuiet(s);
    StripChargesKeeps(s);
  }

  lemma PhraseUnspaced(w1: string, w2: string, w3: string)
    requires IsWord(w1) && IsWord(w2) && IsWord(w3)
    ensures RemoveSpaces(Phrase(w1, w2, w3)) == w1 + w2 + w3
  {
    WordFacts(w1);
    WordFacts(w2);
    WordFacts(w3);
    RemoveSpacesAroundSpace(w1, ' ', w2 + ([' '] + w3));
    RemoveSpacesAroundSpace(w2, ' ', w3);
    RemoveSpacesKeeps(w1);
    RemoveSpacesKeeps(w2);
    RemoveSpacesKeeps(w3);
  }

  /** Three words separated by single spaces normalise to the three words
      run together, unless the first one is an ion word. */
  lemma WordsRunTogether(w1: string, w2: string, w3: string)
    requires IsWord(w1) && IsWord(w2) && IsWord(w3) && w1 !in IonWords
    ensures Normalize(w1 + " " + w2 + " " + w3) == w1 + w2 + w3
  {
    assert w1 + " " + w2 + " " + w3 == Phrase(w1, w2, w3);
    PhraseQuiet(w1, w2, w3);
    PhraseUnspaced(w1, w2, w3);
  }

  lemma RemoveSpacesAroundSpace(a: string, c: char, b: string)
    requires IsSpace(c)
    ensures RemoveSpaces(a + ([c] + b)) == RemoveSpaces(a) + RemoveSpaces(b)
  {
    var t := [c] + b;
    assert t[0] == c && t[1..] == b;
    RemoveSpacesAppend(a, t);
  }

  /** Lower-case ASCII letters carry no accent. */
  lemma RemoveAccentsAscii(s: string)
    requires forall i :: 0 <= i < |s| ==> 'a' <= s[i] <= 'z'
    ensures RemoveAccents(s) == s
  {
    if s != [] {
      var c := s[0];
      assert 'a' <= c <= 'z';
      assert !IsCombiningMark(c) && FoldChar(c) == c;
      RemoveAccentsAscii(s[1..]);
      assert RemoveAccents(s) == [c] + s[1..];
    }
  }

  lemma FoldHead(c: char, rest: string)
    requires !IsCombiningMark(c)
    ensures RemoveAccents([c] + rest) == [FoldChar(c)] + RemoveAccents(rest)
  {
    assert ([c] + rest)[0] == c && ([c] + rest)[1..] == rest;
  }

  /** An acute accent on the first letter of an ASCII word is folded away. */
  lemma AcuteHead(rest: string)
    requires forall i :: 0 <= i < |rest| ==> 'a' <= rest[i] <= 'z'
    ensures RemoveAccents(['ó'] + rest) == ['o'] + rest
  {
    FoldHead('ó', rest);
    assert FoldChar('ó') == 'o';
    RemoveAccentsAscii(rest);
  }

  lemma PlainHead(rest: string)
    requires forall i :: 0 <= i < |rest| ==> 'a' <= rest[i] <= 'z'
    ensures RemoveAccents(['o'] + rest) == ['o'] + rest
  {
    RemoveAccentsAscii(['o'] + rest);
  }

  lemma SameNormal(user: string, correct: string)
    requires user != "" && Normalize(user) == Normalize(correct)
    ensures CheckAnswer(user, correct, []) == Verdict(true, false)
  {
  }

  lemma AccentOnly(user: string, correct: string)
    requires user != "" && Normalize(user) != Normalize(correct)
    requires RemoveAccents(Normalize(user)) == RemoveAccents(Normalize(correct))
    ensures CheckAnswer(user, correct, []) == Verdict(true, true)
  {
  }

  lemma ExampleFormula(user: string)
    requires user == "Fe2O3"
    ensures CheckAnswer(user, user, []) == Verdict(true, false)
  {
  }

  /** "cloruro2+" is accepted for "cloruro": the charge is ignored. */
  lemma ExampleCharge(user: string, correct: string)
    requires user == "cloruro2+" && correct == "cloruro"
    ensures CheckAnswer(user, correct, []) == Verdict(true, false)
  {
    assert user == correct + "2" + ['+'];
    assert IsWord(correct);
    ChargeSuffixIgnored(correct, "2", '+');
    WordNormal(correct);
    SameNormal(user, correct);
  }

  /** "so42-" normalises to "so": the subscript goes with the charge. */
  lemma ExampleSulfate(s: string)
    requires s == "so42-"
    ensures Normalize(s) == "so"
  {
    assert IsWord("so");
    assert s == "so" + "42" + ['-'];
    ChargeSuffixIgnored("so", "42", '-');
  }

  /** Two charged forms of one word are accepted for each other, whatever
      their digits: the charge and any subscript in front of it are ignored. */
  lemma ChargesIgnored(a: string, d1: string, d2: string, s1: char, s2: char)
    requires IsWord(a)
    requires forall i :: 0 <= i < |d1| ==> IsDigit(d1[i])
    requires forall i :: 0 <= i < |d2| ==> IsDigit(d2[i])
    requires IsSign(s1) && IsSign(s2)
    ensures CheckAnswer(a + d1 + [s1], a + d2 + [s2], []) == Verdict(true, false)
  {
    ChargeSuffixIgnored(a, d1, s1);
    ChargeSuffixIgnored(a, d2, s2);
    SameNormal(a + d1 + [s1], a + d2 + [s2]);
  }

  /** Because `\d*` also takes the subscript, the nitrite ion is accepted
      for the nitrate ion: both normalise to "no". */
  lemma ExampleNitrite(user: string, correct: string)
    requires user == "no2-" && correct == "no3-"
    ensures CheckAnswer(user, correct, []) == Verdict(true, false)
  {
    assert IsWord("no");
    assert user == "no" + "2" + ['-'] && correct == "no" + "3" + ['-'];
    ChargesIgnored("no", "2", "3", '-', '-');
  }

  lemma AnionTrimmed(s: string)
    requires s == "Anión  Cloruro"
    ensures Trim(s) == s
  {
    assert !IsSpace(s[0]) && !IsSpace(s[|s| - 1]);
  }

  lemma AnionLowered(s: string)
    requires s == "Anión  Cloruro"
    ensures Lower(s) == IonWords[2] + "  " + "cloruro"
  {
    var l := IonWords[2] + "  " + "cloruro";
    assert |Lower(s)| == |l|;
    forall i | 0 <= i < |s| ensures Lower(s)[i] == l[i] {
      assert Lower(s)[i] == LowerChar(s[i]);
    }
  }

  lemma CloruroNormal(t: string)
    requires t == "cloruro"
    ensures RemoveSpaces(StripCharges(t)) == t
  {
    assert IsWord(t);
    WordFacts(t);
    StripChargesKeeps(t);
    RemoveSpacesKeeps(t);
  }

  /** An ion word with its spaces is dropped before the comparison:
      "Anión  Cloruro" normalises to "cloruro". */
  lemma ExampleAnion(s: string)
    requires s == "Anión  Cloruro"
    ensures Normalize(s) == "cloruro"
  {
    AnionTrimmed(s);
    AnionLowered(s);
    assert "  "[0] == ' ' && "  "[1] == ' ';
    StripIonWord(2, "  ", "cloruro");
    CloruroNormal("cloruro");
  }

  lemma NormalOxido(u: string)
    requires u == "óxido de hierro"
    ensures Normalize(u) == ['ó'] + "xidodehierro"
  {
    assert u == "óxido" + " " + "de" + " " + "hierro";
    assert "óxido" + "de" + "hierro" == ['ó'] + "xidodehierro";
    assert IsWord("óxido") && IsWord("de") && IsWord("hierro") && "óxido" !in IonWords;
    WordsRunTogether("óxido", "de", "hierro");
  }

  lemma NormalPlainOxido(c: string)
    requires c == "oxido de hierro"
    ensures Normalize(c) == ['o'] + "xidodehierro"
  {
    assert c == "oxido" + " " + "de" + " " + "hierro";
    assert "oxido" + "de" + "hierro" == ['o'] + "xidodehierro";
    assert IsWord("oxido") && IsWord("de") && IsWord("hierro") && "oxido" !in IonWords;
    WordsRunTogether("oxido", "de", "hierro");
  }

  /** "óxido de hierro" is accepted for "oxido de hierro" and flagged. */
  lemma ExampleAccent(user: string, correct: string)
    requires user == "óxido de hierro" && correct == "oxido de hierro"
    ensures CheckAnswer(user, correct, []) == Verdict(true, true)
  {
    var rest := "xidodehierro";
    assert forall i :: 0 <= i < |rest| ==> 'a' <= rest[i] <= 'z';
    NormalOxido(user);
    NormalPlainOxido(correct);
    AcuteHead(rest);
    PlainHead(rest);
    assert (['ó'] + rest)[0] != (['o'] + rest)[0];
    AccentOnly(user, correct);
  }
}
