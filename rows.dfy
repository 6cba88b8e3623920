/**
 * The grid-row grammar and `GridProcessor.parse_row`: cutting a row into
 * one fragment per delimiter, merging the last fragment into the one before
 * it, and turning each fragment into a `BarBlock`.
 */
module Rows {
  import opened Wrappers
  import opened Text
  import opened Ast
  import Bars
  import opened Atoms

  // ------------------------------------------------------------- the grammar

  /** `[|\[\]].*[|\[\]]$` from index `k`. */
  predicate DelimBody(L: string, k: nat)
  {
    k + 1 < |L| && IsDelim(L[k]) && IsDelim(L[|L| - 1])
  }

  /** `^(?:(?P<num>\d)/(?P<den>\d))?\s*([|\[\]].*[|\[\]])$` on a line without newlines. */
  predicate IsGridRow(L: string)
  {
    (|L| >= 3 && IsDigit(L[0]) && L[1] == '/' && IsDigit(L[2]) && DelimBody(L, SkipSpaces(L, 3)))
    || DelimBody(L, SkipSpaces(L, 0))
  }

  // ------------------------------------------------ re.findall over the row

  /** The end of `[^|\[\]]*` from `i`: the next delimiter, or `|t|`. */
  function RunEnd(t: string, i: nat): (k: nat)
    requires i <= |t|
    ensures i <= k <= |t|
    ensures k < |t| ==> IsDelim(t[k])
    ensures forall j :: i <= j < k ==> !IsDelim(t[j])
    decreases |t| - i
  {
    if i == |t| || IsDelim(t[i]) then i else RunEnd(t, i + 1)
  }

  /** Whether `\d/\d\s+` followed by a delimiter starts at `i`. */
  predicate TimePrefixAt(t: string, i: nat)
  {
    i + 3 < |t| && IsDigit(t[i]) && t[i + 1] == '/' && IsDigit(t[i + 2]) && IsSpace(t[i + 3])
    && SkipSpaces(t, i + 3) < |t| && IsDelim(t[SkipSpaces(t, i + 3)])
  }

  /** The end of a match of `(?:\d/\d\s+)?[|\[\]][^|\[\]]*` at `i`, if there is one. */
  function MatchAt(t: string, i: nat): (r: Option<nat>)
    requires i < |t|
    ensures r.None? ==> !IsDelim(t[i])
    ensures r.Some? ==> i < r.value <= |t| && (r.value < |t| ==> IsDelim(t[r.value]))
  {
    if TimePrefixAt(t, i) then Some(RunEnd(t, SkipSpaces(t, i + 3) + 1))
    else if IsDelim(t[i]) then Some(RunEnd(t, i + 1))
    else None
  }

  /** `re.findall(...)` from index `i`: successive non-overlapping matches. */
  function FindAll(t: string, i: nat): seq<string>
    requires i <= |t|
    decreases |t| - i
  {
    if i == |t| then []
    else
      match MatchAt(t, i)
      case None => FindAll(t, i + 1)
      case Some(e) => [t[i..e]] + FindAll(t, e)
  }

  /** The `measures` list of `parse_row` before the merge. */
  function Fragments(t: string): seq<string>
  {
    FindAll(t, 0)
  }

  /** `measures[-2] += measures[-1]; measures.pop(-1)`. */
  function Merge(fs: seq<string>): (r: seq<string>)
    requires |fs| >= 2
    ensures |r| == |fs| - 1
    ensures r[..|r| - 1] == fs[..|fs| - 2] && r[|r| - 1] == fs[|fs| - 2] + fs[|fs| - 1]
  {
    fs[..|fs| - 2] + [fs[|fs| - 2] + fs[|fs| - 1]]
  }

  // ------------------------------------------------------ counting delimiters

  function DelimsIn(t: string, i: nat, j: nat): nat
    requires i <= j <= |t|
    decreases j - i
  {
    if i == j then 0 else (if IsDelim(t[i]) then 1 else 0) + DelimsIn(t, i + 1, j)
  }

  lemma {:induction false} DelimsSplit(t: string, i: nat, j: nat, k: nat)
    requires i <= j <= k <= |t|
    ensures DelimsIn(t, i, k) == DelimsIn(t, i, j) + DelimsIn(t, j, k)
    decreases j - i
  {
    if i < j {
      DelimsSplit(t, i + 1, j, k);
    }
  }

  lemma {:induction false} DelimsNone(t: string, i: nat, j: nat)
    requires i <= j <= |t|
    requires forall m :: i <= m < j ==> !IsDelim(t[m])
    ensures DelimsIn(t, i, j) == 0
    decreases j - i
  {
    if i < j {
      DelimsNone(t, i + 1, j);
    }
  }

  lemma {:induction false} DelimsAtLeastOne(t: string, i: nat, j: nat, m: nat)
    requires i <= m < j <= |t| && IsDelim(t[m])
    ensures DelimsIn(t, i, j) >= 1
    decreases j - i
  {
    if i < m {
      DelimsAtLeastOne(t, i + 1, j, m);
    }
  }

  /** One delimiter at `d` and none around it in `[i, e)`. */
  lemma OneDelim(t: string, i: nat, d: nat, e: nat)
    requires i <= d < e <= |t| && IsDelim(t[d])
    requires forall m :: i <= m < d ==> !IsDelim(t[m])
    requires forall m :: d < m < e ==> !IsDelim(t[m])
    ensures DelimsIn(t, i, e) == 1
  {
    DelimsNone(t, i, d);
    DelimsNone(t, d + 1, e);
    DelimsSplit(t, i, d, e);
    DelimsSplit(t, d, d + 1, e);
  }

  /** Every match holds exactly one delimiter. */
  lemma MatchHoldsOneDelim(t: string, i: nat)
    requires i < |t| && MatchAt(t, i).Some?
    ensures DelimsIn(t, i, MatchAt(t, i).value) == 1
  {
    var e := MatchAt(t, i).value;
    if TimePrefixAt(t, i) {
      var d := SkipSpaces(t, i + 3);
      assert forall m :: i + 3 <= m < d ==> IsSpace(t[m]);
      OneDelim(t, i, d, e);
    } else {
      OneDelim(t, i, i, e);
    }
  }

  /** `findall` yields exactly one fragment per delimiter character. */
  lemma {:induction false} FindAllCount(t: string, i: nat)
    requires i <= |t|
    ensures |FindAll(t, i)| == DelimsIn(t, i, |t|)
    decreases |t| - i
  {
    if i < |t| {
      match MatchAt(t, i)
      case None =>
        FindAllCount(t, i + 1);
      case Some(e) =>
        FindAllCount(t, e);
        MatchHoldsOneDelim(t, i);
        DelimsSplit(t, i, e, |t|);
    }
  }

  /** The first index at or after `i` where a match starts, or `|t|`. */
  function FirstMatch(t: string, i: nat): (r: nat)
    requires i <= |t|
    ensures i <= r <= |t| && (r < |t| ==> MatchAt(t, r).Some?)
    ensures forall j :: i <= j < r ==> MatchAt(t, j).None?
    decreases |t| - i
  {
    if i == |t| || MatchAt(t, i).Some? then i else FirstMatch(t, i + 1)
  }

  /** A fragment holding one delimiter, as its first character. */
  predicate DelimLed(f: string)
  {
    f != [] && IsDelim(f[0]) && forall j :: 1 <= j < |f| ==> !IsDelim(f[j])
  }

  /** A fragment `d/d`, whitespace, then a delimiter-led rest. */
  predicate TimeLed(f: string)
  {
    |f| >= 5 && IsDigit(f[0]) && f[1] == '/' && IsDigit(f[2]) && IsSpace(f[3])
    && SkipSpaces(f, 3) < |f| && DelimLed(f[SkipSpaces(f, 3)..])
  }

  /**
   * The fragments of `findall` tile the text from the first match to the end:
   * nothing after the first match is dropped, nothing is repeated.
   */
  lemma {:induction false} FindAllCovers(t: string, i: nat)
    requires i <= |t|
    ensures Concat(FindAll(t, i)) == t[FirstMatch(t, i)..]
    decreases |t| - i
  {
    if i < |t| {
      match MatchAt(t, i)
      case None =>
        FindAllCovers(t, i + 1);
        assert FindAll(t, i) == FindAll(t, i + 1) && FirstMatch(t, i) == FirstMatch(t, i + 1);
      case Some(e) =>
        FindAllCovers(t, e);
        assert FindAll(t, i) == [t[i..e]] + FindAll(t, e) && FirstMatch(t, i) == i;
        if e < |t| {
          FirstMatchAtDelim(t, e);
        }
        CoverCons(t, i, e, FindAll(t, e));
    }
  }

  lemma FirstMatchAtDelim(t: string, e: nat)
    requires e < |t| && IsDelim(t[e])
    ensures FirstMatch(t, e) == e
  {
    assert !TimePrefixAt(t, e);
  }

  lemma CoverCons(t: string, i: nat, e: nat, rest: seq<string>)
    requires i < e <= |t| && Concat(rest) == t[e..]
    ensures Concat([t[i..e]] + rest) == t[i..]
  {
    var fs := [t[i..e]] + rest;
    assert fs[0] == t[i..e] && fs[1..] == rest;
    assert t[i..e] + t[e..] == t[i..];
  }

  /** From a delimiter on, every fragment is delimiter-led. */
  lemma {:induction false} DelimLedFrom(t: string, i: nat)
    requires i == |t| || (i < |t| && IsDelim(t[i]))
    ensures forall k :: 0 <= k < |FindAll(t, i)| ==> DelimLed(FindAll(t, i)[k])
    decreases |t| - i
  {
    if i < |t| {
      assert !TimePrefixAt(t, i);
      var e := RunEnd(t, i + 1);
      assert MatchAt(t, i) == Some(e);
      DelimLedFrom(t, e);
      var fs := FindAll(t, i);
      assert fs[0] == t[i..e] && fs[1..] == FindAll(t, e);
      assert DelimLed(t[i..e]);
      forall k | 0 < k < |fs|
        ensures DelimLed(fs[k])
      {
        assert fs[k] == FindAll(t, e)[k - 1];
      }
    }
  }

  /** The first match read as a fragment: a time prefix, or delimiter-led. */
  lemma FirstFragment(t: string, i: nat, e: nat)
    requires i < |t| && MatchAt(t, i) == Some(e)
    ensures DelimLed(t[i..e]) || TimeLed(t[i..e])
  {
    var f := t[i..e];
    if TimePrefixAt(t, i) {
      var d := SkipSpaces(t, i + 3);
      assert forall j :: 3 <= j < d - i ==> f[j] == t[i + j];
      SkipSpacesIs(f, 3, d - i);
      assert f[d - i..] == t[d..e];
    }
  }

  /**
   * Each fragment holds exactly one delimiter: as its first character, or,
   * in the first fragment only, after a `d/d` and whitespace prefix.
   */
  lemma {:induction false} FindAllPieces(t: string, i: nat)
    requires i <= |t|
    ensures forall k :: 0 <= k < |FindAll(t, i)| ==>
      DelimLed(FindAll(t, i)[k]) || (k == 0 && TimeLed(FindAll(t, i)[k]))
    decreases |t| - i
  {
    if i < |t| {
      match MatchAt(t, i)
      case None =>
        FindAllPieces(t, i + 1);
      case Some(e) =>
        FirstFragment(t, i, e);
        DelimLedFrom(t, e);
        var fs := FindAll(t, i);
        assert fs[0] == t[i..e] && fs[1..] == FindAll(t, e);
        forall k | 0 < k < |fs|
          ensures DelimLed(fs[k])
        {
          assert fs[k] == FindAll(t, e)[k - 1];
        }
    }
  }

  /** From a delimiter on, the last fragment of a row ending in a delimiter is that delimiter alone. */
  lemma {:induction false} LastFragmentFromDelim(t: string, i: nat)
    requires i < |t| && IsDelim(t[i]) && IsDelim(t[|t| - 1])
    ensures FindAll(t, i) != [] && FindAll(t, i)[|FindAll(t, i)| - 1] == [t[|t| - 1]]
    decreases |t| - i
  {
    assert !TimePrefixAt(t, i);
    var e := RunEnd(t, i + 1);
    assert MatchAt(t, i) == Some(e);
    if i == |t| - 1 {
      assert FindAll(t, e) == [];
      assert t[i..e] == [t[|t| - 1]];
    } else {
      assert e < |t|;
      LastFragmentFromDelim(t, e);
    }
  }

  lemma {:induction false} LastFragment(t: string, i: nat)
    requires i <= |t| && DelimsIn(t, i, |t|) >= 2 && IsDelim(t[|t| - 1])
    ensures FindAll(t, i) != [] && FindAll(t, i)[|FindAll(t, i)| - 1] == [t[|t| - 1]]
    decreases |t| - i
  {
    assert i < |t|;
    if IsDelim(t[i]) {
      LastFragmentFromDelim(t, i);
    } else {
      match MatchAt(t, i)
      case None =>
        LastFragment(t, i + 1);
      case Some(e) =>
        MatchHoldsOneDelim(t, i);
        DelimsSplit(t, i, e, |t|);
        assert e < |t|;
        LastFragmentFromDelim(t, e);
    }
  }

  /**
   * A line the grid-row grammar accepts has at least two delimiters, so
   * `findall` gives at least two fragments, one per delimiter, and the last
   * is the closing delimiter alone: the merge never indexes out of range.
   */
  lemma GridRowFragments(L: string)
    requires IsGridRow(L)
    ensures |Fragments(L)| == DelimsIn(L, 0, |L|) >= 2
    ensures Fragments(L)[|Fragments(L)| - 1] == [L[|L| - 1]]
  {
    var k := if |L| >= 3 && IsDigit(L[0]) && L[1] == '/' && IsDigit(L[2]) && DelimBody(L, SkipSpaces(L, 3))
             then SkipSpaces(L, 3) else SkipSpaces(L, 0);
    assert DelimBody(L, k);
    DelimsAtLeastOne(L, 0, k + 1, k);
    DelimsAtLeastOne(L, k + 1, |L|, |L| - 1);
    DelimsSplit(L, 0, k + 1, |L|);
    FindAllCount(L, 0);
    LastFragment(L, 0);
  }

  // ------------------------------------------------------ one bar fragment

  const StartMeasure: Measure := Measure(Normal, None, Bars.EmptyBar)

  /** One pass of the atom loop of `parse_row` on a non-empty atom. */
  function Step(m: Measure, tk: string): Measure
    requires tk != ""
  {
    var a := Classify(tk);
    Measure(if a.size.Some? then a.size.value else m.size,
            if a.caseLabel.Some? then a.caseLabel else m.caseLabel,
            Bars.AppendEach(m.bar, a.emit))
  }

  /** The `BarBlock` after the atom loop has seen `tks` (empty atoms are skipped). */
  function FoldSteps(tks: seq<string>): Measure
  {
    if tks == [] then StartMeasure
    else
      var m := FoldSteps(tks[..|tks| - 1]);
      if tks[|tks| - 1] == "" then m else Step(m, tks[|tks| - 1])
  }

  /** The `BarBlock` `parse_row` builds from one (merged) fragment. */
  function MeasureOf(fragment: string): Measure
  {
    FoldSteps(Tokens(fragment))
  }

  /** Everything the atoms of `tks` append to the bar, in order. */
  function Emitted(tks: seq<string>): seq<BarElement>
  {
    if tks == [] then []
    else if tks[|tks| - 1] == "" then Emitted(tks[..|tks| - 1])
    else Emitted(tks[..|tks| - 1]) + Classify(tks[|tks| - 1]).emit
  }

  /**
   * The bar of a measure holds every element its atoms emit: all chord-likes
   * in one block placed at the first of them, every other element outside it,
   * each group in atom order.
   */
  lemma {:induction false} BarOfMeasure(tks: seq<string>)
    ensures FoldSteps(tks).bar == Bars.Grouping(Emitted(tks))
    ensures Bars.Valid(FoldSteps(tks).bar)
  {
    EmittedBar(tks);
    Bars.AppendAllIsGrouping(Emitted(tks));
  }

  lemma {:induction false} EmittedBar(tks: seq<string>)
    ensures FoldSteps(tks).bar == Bars.AppendEach(Bars.EmptyBar, Emitted(tks))
  {
    if tks != [] {
      var init, tk := tks[..|tks| - 1], tks[|tks| - 1];
      EmittedBar(init);
      if tk != "" {
        Bars.AppendEachConcat(Bars.EmptyBar, Emitted(init), Classify(tk).emit);
      }
    }
  }

  /** Whether an atom writes `bb.size` (a pause, `.l` or `.s`). */
  predicate SetsSize(tk: string)
  {
    tk != "" && Classify(tk).size.Some?
  }

  /** The size is that written by the last atom that writes one. */
  lemma {:induction false} SizeIsLastWriter(tks: seq<string>, i: nat)
    requires i < |tks| && SetsSize(tks[i])
    requires forall j :: i < j < |tks| ==> !SetsSize(tks[j])
    ensures FoldSteps(tks).size == Classify(tks[i]).size.value
  {
    var init := tks[..|tks| - 1];
    if i < |tks| - 1 {
      assert forall j :: i < j < |init| ==> init[j] == tks[j];
      SizeIsLastWriter(init, i);
    }
  }

  /** With no size-writing atom the size stays `''`. */
  lemma {:induction false} SizeDefault(tks: seq<string>)
    requires forall j :: 0 <= j < |tks| ==> !SetsSize(tks[j])
    ensures FoldSteps(tks).size == Normal
  {
    if tks != [] {
      var init := tks[..|tks| - 1];
      assert forall j :: 0 <= j < |init| ==> init[j] == tks[j];
      SizeDefault(init);
    }
  }

  predicate SetsCase(tk: string)
  {
    tk != "" && Classify(tk).caseLabel.Some?
  }

  /** The case text is that of the last `(...)` atom. */
  lemma {:induction false} CaseIsLast(tks: seq<string>, i: nat)
    requires i < |tks| && SetsCase(tks[i])
    requires forall j :: i < j < |tks| ==> !SetsCase(tks[j])
    ensures FoldSteps(tks).caseLabel == Some(CaseText(tks[i]))
  {
    var init := tks[..|tks| - 1];
    if i < |tks| - 1 {
      assert forall j :: i < j < |init| ==> init[j] == tks[j];
      CaseIsLast(init, i);
    }
  }

  /** With no `(...)` atom the case stays `None`. */
  lemma {:induction false} CaseDefault(tks: seq<string>)
    requires forall j :: 0 <= j < |tks| ==> !SetsCase(tks[j])
    ensures FoldSteps(tks).caseLabel == None
  {
    if tks != [] {
      var init := tks[..|tks| - 1];
      assert forall j :: 0 <= j < |init| ==> init[j] == tks[j];
      CaseDefault(init);
    }
  }

  // ----------------------------------------------------------- parse_row

  /** The atom list of one fragment: the `for s in temp` loop of `parse_row`. */
  method CollectTokens(measure: string) returns (tokens: seq<string>)
    ensures tokens == Tokens(measure)
  {
    var temp := CasePieces(measure);
    tokens := [];
    for p := 0 to |temp|
      invariant tokens == TokensOf(temp[..p])
    {
      TokensOfSnoc(temp, p);
      tokens := AddPiece(tokens, temp[p]);
    }
    assert temp[..|temp|] == temp;
  }

  lemma TokensOfSnoc(pieces: seq<string>, p: nat)
    requires p < |pieces|
    ensures TokensOf(pieces[..p + 1]) == TokensOf(pieces[..p]) + PieceTokens(pieces[p])
  {
    assert pieces[..p + 1][..p] == pieces[..p];
  }

  /** One pass of that loop: a stripped case run is kept whole, anything else is split on whitespace. */
  method AddPiece(tokens: seq<string>, piece: string) returns (tokens': seq<string>)
    ensures tokens' == tokens + PieceTokens(piece)
  {
    var s := Strip(piece);
    if CaseMatch(s) {
      tokens' := tokens + [s];
    } else {
      tokens' := tokens + SplitWS(s);
    }
  }

  /** The `bb.bar.append(...)` calls of one atom, in order. */
  method AppendAll(bar: Bar, es: seq<BarElement>) returns (bar': Bar)
    ensures bar' == Bars.AppendEach(bar, es)
  {
    bar' := bar;
    for n := 0 to |es|
      invariant bar' == Bars.AppendEach(bar, es[..n])
    {
      bar' := Bars.Append(bar', es[n]);
      assert es[..n + 1][..n] == es[..n];
    }
    assert es[..|es|] == es;
  }

  /** What one non-empty atom does to the `BarBlock`. */
  method ApplyAtom(bb: Measure, tk: string) returns (bb': Measure)
    requires tk != ""
    ensures bb' == Step(bb, tk)
  {
    var a := Classify(tk);
    var bar := AppendAll(bb.bar, a.emit);
    bb' := bb.(bar := bar);
    if a.size.Some? {
      bb' := bb'.(size := a.size.value);
    }
    if a.caseLabel.Some? {
      bb' := bb'.(caseLabel := a.caseLabel);
    }
  }

  /** One `BarBlock`: the `for tk in tokens` loop of `parse_row`. */
  method ParseMeasure(measure: string) returns (bb: Measure)
    ensures bb == MeasureOf(measure)
  {
    var tokens := CollectTokens(measure);
    bb := StartMeasure;
    for j := 0 to |tokens|
      invariant bb == FoldSteps(tokens[..j])
    {
      bb := NextToken(bb, tokens, j);
    }
    assert tokens[..|tokens|] == tokens;
  }

  /** One pass of the loop: an empty atom is skipped, any other is applied. */
  method NextToken(bb: Measure, tokens: seq<string>, j: nat) returns (bb': Measure)
    requires j < |tokens| && bb == FoldSteps(tokens[..j])
    ensures bb' == FoldSteps(tokens[..j + 1])
  {
    var tk := tokens[j];
    assert tokens[..j + 1][..j] == tokens[..j];
    if tk == "" {
      return bb;
    }
    bb' := ApplyAtom(bb, tk);
  }

  /** The `BarBlock`s of the fragments `fs`, in order. */
  function MeasuresOf(fs: seq<string>): (r: seq<Measure>)
    ensures |r| == |fs|
  {
    if fs == [] then [] else MeasuresOf(fs[..|fs| - 1]) + [MeasureOf(fs[|fs| - 1])]
  }

  lemma {:induction false} MeasuresOfAt(fs: seq<string>, k: nat)
    requires k < |fs|
    ensures MeasuresOf(fs)[k] == MeasureOf(fs[k])
  {
    var init := fs[..|fs| - 1];
    assert MeasuresOf(fs) == MeasuresOf(init) + [MeasureOf(fs[|fs| - 1])];
    if k < |fs| - 1 {
      MeasuresOfAt(init, k);
      assert init[k] == fs[k];
    }
  }

  /** The `BarBlock`s of a row: one per merged fragment. */
  method ParseRow(text: string) returns (out: seq<Measure>)
    requires |Fragments(text)| >= 2
    ensures |out| == |Fragments(text)| - 1
    ensures out == MeasuresOf(Merge(Fragments(text)))
  {
    var measures := Fragments(text);
    measures := measures[..|measures| - 2] + [measures[|measures| - 2] + measures[|measures| - 1]];
    MergeIs(Fragments(text), measures);
    out := ParseMeasures(measures);
  }

  lemma MergeIs(fs: seq<string>, ms: seq<string>)
    requires |fs| >= 2 && ms == fs[..|fs| - 2] + [fs[|fs| - 2] + fs[|fs| - 1]]
    ensures ms == Merge(fs)
  {
  }

  lemma MeasuresOfSnoc(fs: seq<string>, m: nat)
    requires m < |fs|
    ensures MeasuresOf(fs[..m + 1]) == MeasuresOf(fs[..m]) + [MeasureOf(fs[m])]
  {
    assert fs[..m + 1][..m] == fs[..m];
  }

  /** The `for measure in measures` loop of `parse_row`. */
  method ParseMeasures(measures: seq<string>) returns (out: seq<Measure>)
    ensures out == MeasuresOf(measures)
  {
    out := [];
    for m := 0 to |measures|
      invariant out == MeasuresOf(measures[..m])
    {
      var bb := ParseMeasure(measures[m]);
      MeasuresOfSnoc(measures, m);
      out := out + [bb];
    }
    assert measures[..|measures|] == measures;
  }
}
