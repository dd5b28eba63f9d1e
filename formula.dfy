/**
  The formula renderer of the question card (components/QuestionCard.tsx):
  a prompt is split into alternating text and digit-run pieces, the digit
  runs are shown as subscripts, and a question asks for a formula exactly
  when its target notation is the formula notation.
 */
module Formula {
  import opened Types

  predicate NoDigit(s: string) { forall i :: 0 <= i < |s| ==> !IsDigit(s[i]) }

  predicate AllDigits(s: string) { forall i :: 0 <= i < |s| ==> IsDigit(s[i]) }

  /** Length of the longest digit-free prefix of `s`. */
  function PlainLen(s: string): (n: nat)
    ensures n <= |s| && forall i :: 0 <= i < n ==> !IsDigit(s[i])
    ensures n < |s| ==> IsDigit(s[n])
    ensures |s| > 0 && !IsDigit(s[0]) ==> n > 0
  {
    if s == [] || IsDigit(s[0]) then 0 else 1 + PlainLen(s[1..])
  }

  /** Length of the maximal digit run that starts `s` (the greedy `\d+`). */
  function DigitLen(s: string): (n: nat)
    ensures n <= |s| && forall i :: 0 <= i < n ==> IsDigit(s[i])
    ensures n < |s| ==> !IsDigit(s[n])
    ensures |s| > 0 && IsDigit(s[0]) ==> n > 0
  {
    if s != [] && IsDigit(s[0]) then 1 + DigitLen(s[1..]) else 0
  }

  /** Where the first digit run of `s` ends. */
  function RunEnd(s: string): (e: nat)
    requires PlainLen(s) < |s|
    ensures PlainLen(s) < e <= |s|
    ensures forall i :: PlainLen(s) <= i < e ==> IsDigit(s[i])
    ensures e < |s| ==> !IsDigit(s[e])
  {
    var t := s[PlainLen(s)..];
    assert forall i :: 0 <= i < |t| ==> t[i] == s[PlainLen(s) + i];
    PlainLen(s) + DigitLen(t)
  }

  /** `text.split(/(\d+)/g)`: because the pattern captures, the pieces
      between the digit runs and the digit runs themselves alternate, always
      starting and ending with a (possibly empty) text piece. */
  function Split(s: string): (parts: seq<string>)
    ensures |parts| > 0
    decreases |s|
  {
    if PlainLen(s) == |s| then [s]
    else [s[..PlainLen(s)], s[PlainLen(s)..RunEnd(s)]] + Split(s[RunEnd(s)..])
  }

  /** The concatenation of a list of pieces. */
  function Join(parts: seq<string>): string {
    if parts == [] then [] else parts[0] + Join(parts[1..])
  }

  lemma JoinCons2(a: string, b: string, rest: seq<string>)
    ensures Join([a, b] + rest) == a + b + Join(rest)
  {
    var x := [a, b] + rest;
    assert x[0] == a && x[1..] == [b] + rest;
    assert ([b] + rest)[0] == b && ([b] + rest)[1..] == rest;
  }

  /** Concatenating the pieces gives back the text. */
  lemma {:induction false} SplitJoin(s: string)
    ensures Join(Split(s)) == s
    decreases |s|
  {
    if PlainLen(s) == |s| {
      assert Split(s) == [s];
      assert [s][1..] == [];
      assert s + [] == s;
    } else {
      var n, e := PlainLen(s), RunEnd(s);
      var rest := s[e..];
      assert Split(s) == [s[..n], s[n..e]] + Split(rest);
      SplitJoin(rest);
      JoinCons2(s[..n], s[n..e], Split(rest));
      ThreeSlices(s, n, e);
    }
  }

  /** The pieces at even positions contain no digit. */
  lemma {:induction false} SplitEvenPlain(s: string)
    ensures forall i :: 0 <= i < |Split(s)| && i % 2 == 0 ==> NoDigit(Split(s)[i])
    decreases |s|
  {
    if PlainLen(s) == |s| {
      assert Split(s) == [s];
    } else {
      var n, e := PlainLen(s), RunEnd(s);
      var tail := Split(s[e..]);
      SplitEvenPlain(s[e..]);
      assert Split(s) == [s[..n], s[n..e]] + tail;
      assert NoDigit(s[..n]) by {
        forall j | 0 <= j < n ensures !IsDigit(s[..n][j]) { assert s[..n][j] == s[j]; }
      }
      EvenPlainCons(s[..n], s[n..e], tail);
    }
  }

  /** Putting a digit-free piece and any other piece in front of a list
      whose even-indexed pieces are digit-free keeps that property. */
  lemma EvenPlainCons(a: string, b: string, tail: seq<string>)
    requires NoDigit(a)
    requires forall i :: 0 <= i < |tail| && i % 2 == 0 ==> NoDigit(tail[i])
    ensures forall i :: 0 <= i < |[a, b] + tail| && i % 2 == 0 ==> NoDigit(([a, b] + tail)[i])
  {
    forall i | 2 <= i < |[a, b] + tail| ensures ([a, b] + tail)[i] == tail[i - 2] { }
  }

  /** The pieces at odd positions are non-empty runs of digits. */
  lemma {:induction false} SplitOddDigits(s: string)
    ensures forall i :: 0 <= i < |Split(s)| && i % 2 == 1 ==> Split(s)[i] != [] && AllDigits(Split(s)[i])
    decreases |s|
  {
    if PlainLen(s) < |s| {
      var n, e := PlainLen(s), RunEnd(s);
      var tail := Split(s[e..]);
      SplitOddDigits(s[e..]);
      var parts := Split(s);
      assert parts == [s[..n], s[n..e]] + tail;
      assert AllDigits(parts[1]) by {
        forall i | 0 <= i < e - n ensures IsDigit(parts[1][i]) { assert parts[1][i] == s[n + i]; }
      }
      forall i | 2 <= i < |parts| ensures parts[i] == tail[i - 2] { }
    }
  }

  /** Every text piece strictly between two digit runs is non-empty, so no
      two runs touch: each run is maximal. */
  lemma {:induction false} SplitInteriorNonEmpty(s: string)
    ensures forall i :: 0 < i < |Split(s)| - 1 && i % 2 == 0 ==> Split(s)[i] != []
    decreases |s|
  {
    if PlainLen(s) < |s| {
      var n, e := PlainLen(s), RunEnd(s);
      var rest := s[e..];
      var tail := Split(rest);
      SplitInteriorNonEmpty(rest);
      if |tail| > 1 {
        assert PlainLen(rest) < |rest|;
        assert rest[0] == s[e];
        assert PlainLen(rest) > 0;
        assert tail[0] == rest[..PlainLen(rest)];
      }
      var parts := Split(s);
      assert parts == [s[..n], s[n..e]] + tail;
      forall i | 2 <= i < |parts| ensures parts[i] == tail[i - 2] { }
    }
  }

  /** `prev` says whether the character just before `s` was a digit. */
  function RunStarts(s: string, prev: bool): nat {
    if s == [] then 0
    else (if IsDigit(s[0]) && !prev then 1 else 0) + RunStarts(s[1..], IsDigit(s[0]))
  }

  /** The number of maximal digit runs of `s`: the digits not preceded by a
      digit. */
  function RunCount(s: string): nat {
    RunStarts(s, false)
  }

  lemma {:induction false} RunStartsPlain(a: string, t: string, prev: bool)
    requires NoDigit(a)
    ensures RunStarts(a + t, prev) == RunStarts(t, if a == [] then prev else false)
  {
    if a != [] {
      assert (a + t)[0] == a[0] && (a + t)[1..] == a[1..] + t;
      RunStartsPlain(a[1..], t, false);
    } else {
      assert a + t == t;
    }
  }

  lemma {:induction false} RunStartsDigits(b: string, t: string, prev: bool)
    requires b != [] && AllDigits(b)
    ensures RunStarts(b + t, prev) == (if prev then 0 else 1) + RunStarts(t, true)
  {
    assert (b + t)[0] == b[0] && (b + t)[1..] == b[1..] + t;
    if |b| > 1 {
      RunStartsDigits(b[1..], t, true);
    } else {
      assert b[1..] + t == t;
    }
  }

  lemma RunStartsAfterRun(t: string)
    requires t == [] || !IsDigit(t[0])
    ensures RunStarts(t, true) == RunStarts(t, false)
  {
  }

  lemma ThreeSlices(s: string, n: nat, e: nat)
    requires n <= e <= |s|
    ensures s == s[..n] + (s[n..e] + s[e..])
  {
    assert s[n..] == s[n..e] + s[e..];
    assert s == s[..n] + s[n..];
  }

  lemma RunCountPlain(s: string)
    requires PlainLen(s) == |s|
    ensures RunCount(s) == 0
  {
    RunStartsPlain(s, [], false);
    assert s + [] == s;
  }

  /** Past the first text piece and the first digit run, one run fewer is
      left to count. */
  lemma RunCountStep(s: string)
    requires PlainLen(s) < |s|
    ensures RunCount(s) == 1 + RunCount(s[RunEnd(s)..])
  {
    var n, e := PlainLen(s), RunEnd(s);
    var rest := s[e..];
    var run := s[n..e];
    assert AllDigits(run) && run != [] by {
      forall i | 0 <= i < e - n ensures IsDigit(run[i]) { assert run[i] == s[n + i]; }
    }
    assert NoDigit(s[..n]) by {
      forall i | 0 <= i < n ensures !IsDigit(s[..n][i]) { assert s[..n][i] == s[i]; }
    }
    assert rest == [] || !IsDigit(rest[0]) by {
      if rest != [] { assert rest[0] == s[e]; }
    }
    calc {
      RunCount(s);
      { ThreeSlices(s, n, e); }
      RunStarts(s[..n] + (run + rest), false);
      { RunStartsPlain(s[..n], run + rest, false); }
      RunStarts(run + rest, false);
      { RunStartsDigits(run, rest, false); }
      1 + RunStarts(rest, true);
      { RunStartsAfterRun(rest); }
      1 + RunCount(rest);
    }
  }

  /** The split has one digit piece per maximal digit run, and one text
      piece more than that. */
  lemma {:induction false} SplitCount(s: string)
    ensures |Split(s)| == 2 * RunCount(s) + 1
    decreases |s|
  {
    if PlainLen(s) == |s| {
      assert Split(s) == [s];
      RunCountPlain(s);
    } else {
      var n, e := PlainLen(s), RunEnd(s);
      assert Split(s) == [s[..n], s[n..e]] + Split(s[e..]);
      SplitCount(s[e..]);
      RunCountStep(s);
    }
  }

  /** The test `/^\d+$/` that decides whether a piece is a subscript. */
  predicate IsSubscript(p: string) {
    p != [] && AllDigits(p)
  }

  /** A piece of the split is shown as a subscript exactly when it sits at an
      odd position, that is, when it is a digit run. */
  lemma SubscriptAtOdd(s: string)
    ensures forall i :: 0 <= i < |Split(s)| ==> (IsSubscript(Split(s)[i]) <==> i % 2 == 1)
  {
    SplitEvenPlain(s);
    SplitOddDigits(s);
    var parts := Split(s);
    forall i | 0 <= i < |parts| && i % 2 == 0 ensures !IsSubscript(parts[i]) {
      assert NoDigit(parts[i]);
      if parts[i] != [] {
        assert !IsDigit(parts[i][0]);
      }
    }
  }

  /** What `FormulaRenderer` draws for one piece. */
  datatype Piece = Sub(text: string) | Plain(text: string)

  function RenderParts(parts: seq<string>): (r: seq<Piece>)
    ensures |r| == |parts|
    ensures forall i :: 0 <= i < |parts| ==> r[i].text == parts[i] && (r[i].Sub? <==> IsSubscript(parts[i]))
  {
    if parts == [] then []
    else [if IsSubscript(parts[0]) then Sub(parts[0]) else Plain(parts[0])] + RenderParts(parts[1..])
  }

  /** `FormulaRenderer`: split, then draw each digit piece as a subscript.
      The rendering starts and ends with a plain piece. */
  function Render(text: string): (r: seq<Piece>)
    ensures |r| == |Split(text)|
    ensures r[0].Plain? && r[|r| - 1].Plain?
  {
    SplitEvenPlain(text);
    SplitCount(text);
    SubscriptAtOdd(text);
    RenderParts(Split(text))
  }

  function Texts(r: seq<Piece>): (ts: seq<string>)
    ensures |ts| == |r| && forall i :: 0 <= i < |r| ==> ts[i] == r[i].text
  {
    if r == [] then [] else [r[0].text] + Texts(r[1..])
  }

  lemma {:induction false} TextsOfRender(parts: seq<string>)
    ensures Texts(RenderParts(parts)) == parts
  {
    var ts := Texts(RenderParts(parts));
    assert |ts| == |parts|;
    forall i | 0 <= i < |parts| ensures ts[i] == parts[i] { }
  }

  /** The rendering alternates text and subscripts, starting and ending with
      text, with one subscript per digit run. */
  lemma RenderAlternates(text: string)
    ensures |Render(text)| == 2 * RunCount(text) + 1
    ensures forall i :: 0 <= i < |Render(text)| ==> (Render(text)[i].Sub? <==> i % 2 == 1)
  {
    SubscriptAtOdd(text);
    SplitCount(text);
  }

  /** The pieces of the rendering spell out the prompt. */
  lemma RenderSpells(text: string)
    ensures Join(Texts(Render(text))) == text
  {
    TextsOfRender(Split(text));
    SplitJoin(text);
  }

  /** `isTargetFormula`: the question asks for a formula, so the card
      shows the hint to write plain digits. */
  predicate IsTargetFormula(q: Question) {
    q.targetNotation == Formula
  }
}
