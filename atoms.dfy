/**
 * The atoms of one bar fragment of a grid row and how each atom is
 * classified (`GridProcessor.parse_row`, the per-fragment part).
 */
module Atoms {
  import opened Wrappers
  import opened Text
  import opened Ast

  /** The first index at or after `i` holding `c`, or `|s|`. */
  function CharFrom(s: string, i: nat, c: char): (k: nat)
    requires i <= |s|
    ensures i <= k <= |s|
    ensures k < |s| ==> s[k] == c
    ensures forall j :: i <= j < k ==> s[j] != c
    decreases |s| - i
  {
    if i == |s| || s[i] == c then i else CharFrom(s, i + 1, c)
  }

  /** The first index at or after `i` that is not an ASCII digit, or `|s|`. */
  function DigitsEnd(s: string, i: nat): (k: nat)
    requires i <= |s|
    ensures i <= k <= |s|
    ensures k < |s| ==> !IsDigit(s[k])
    ensures forall j :: i <= j < k ==> IsDigit(s[j])
    decreases |s| - i
  {
    if i == |s| || !IsDigit(s[i]) then i else DigitsEnd(s, i + 1)
  }

  lemma {:induction false} CharFromIs(s: string, i: nat, c: char, k: nat)
    requires i <= k <= |s| && (k < |s| ==> s[k] == c)
    requires forall j :: i <= j < k ==> s[j] != c
    ensures CharFrom(s, i, c) == k
    decreases k - i
  {
    if i < k {
      CharFromIs(s, i + 1, c, k);
    }
  }

  lemma {:induction false} DigitsEndIs(s: string, i: nat, k: nat)
    requires i <= k <= |s| && (k < |s| ==> !IsDigit(s[k]))
    requires forall j :: i <= j < k ==> IsDigit(s[j])
    ensures DigitsEnd(s, i) == k
    decreases k - i
  {
    if i < k {
      DigitsEndIs(s, i + 1, k);
    }
  }

  // ------------------------------------------------- case runs, `(\(.*?\))`

  /**
   * The leftmost match of `\(.*?\)` in `s`: a `(` at `p` and the first `)`
   * after it at `q`. A `(` with no `)` after it starts no match, and then no
   * later `(` does either.
   */
  function FirstCase(s: string): (r: Option<(nat, nat)>)
    ensures r.Some? ==> var (p, q) := r.value;
      p < q < |s| && s[p] == '(' && s[q] == ')'
      && (forall j :: 0 <= j < p ==> s[j] != '(')
      && (forall j :: p < j < q ==> s[j] != ')')
  {
    var p := CharFrom(s, 0, '(');
    if p == |s| then None
    else
      var q := CharFrom(s, p + 1, ')');
      if q == |s| then None else Some((p, q))
  }

  /** With no leftmost match there is no match at all: no `(` has a `)` after it. */
  lemma FirstCaseNone(s: string)
    requires FirstCase(s).None?
    ensures forall i, j :: 0 <= i < j < |s| && s[i] == '(' ==> s[j] != ')'
  {
  }

  /** `re.match(r'(\(.*?\))', s) is not None`. */
  predicate CaseMatch(s: string)
  {
    |s| >= 1 && s[0] == '(' && CharFrom(s, 1, ')') < |s|
  }

  /** `m_case.groups()[0][1:-1]`: the text between `(` and the first `)`. */
  function CaseText(s: string): (r: string)
    requires CaseMatch(s)
    ensures |r| + 2 <= |s| && s[1..|r| + 1] == r && s[|r| + 1] == ')'
    ensures forall j :: 0 <= j < |r| ==> r[j] != ')'
  {
    s[1..CharFrom(s, 1, ')')]
  }

  /** A whole match of `\(.*?\)`: a `(`, then text without `)`, then the `)` that ends it. */
  predicate CaseRunWhole(p: string)
  {
    |p| >= 2 && p[0] == '(' && CharFrom(p, 1, ')') == |p| - 1
  }

  /**
   * The shape of `re.split(r'(\(.*?\))', s)`: an odd number of pieces, the
   * matches at odd positions, text without `(` between them, and a last
   * piece that holds no further match.
   */
  predicate PiecesAlternate(r: seq<string>)
  {
    |r| % 2 == 1
    && (forall k :: 0 <= k < |r| && k % 2 == 1 ==> CaseRunWhole(r[k]))
    && (forall k :: 0 <= k < |r| - 1 && k % 2 == 0 ==> '(' !in r[k])
    && FirstCase(r[|r| - 1]).None?
  }

  /**
   * `re.split(r'(\(.*?\))', s)`: text runs at even positions, the matched
   * case runs (kept with their parentheses) at odd positions.
   */
  function CasePieces(s: string): (r: seq<string>)
    ensures PiecesAlternate(r)
    decreases |s|
  {
    var c := FirstCase(s);
    if c.None? then [s]
    else
      var (p, q) := c.value;
      CaseRun(s, p, q);
      var rest := CasePieces(s[q + 1..]);
      PiecesCons(s[..p], s[p..q + 1], rest);
      [s[..p], s[p..q + 1]] + rest
  }

  /** Putting a text piece and a case run in front keeps the pieces alternating. */
  lemma PiecesCons(a: string, b: string, rest: seq<string>)
    requires '(' !in a && CaseRunWhole(b) && PiecesAlternate(rest)
    ensures PiecesAlternate([a, b] + rest)
  {
    var r := [a, b] + rest;
    assert r[|r| - 1] == rest[|rest| - 1];
    forall k | 0 <= k < |r| && k % 2 == 1
      ensures CaseRunWhole(r[k])
    {
      if k >= 2 {
        assert r[k] == rest[k - 2];
      }
    }
    forall k | 0 <= k < |r| - 1 && k % 2 == 0
      ensures '(' !in r[k]
    {
      if k >= 2 {
        assert r[k] == rest[k - 2];
      }
    }
  }

  /** The leftmost case run is a whole match, and nothing before it opens one. */
  lemma CaseRun(s: string, p: nat, q: nat)
    requires FirstCase(s) == Some((p, q))
    ensures CaseRunWhole(s[p..q + 1]) && '(' !in s[..p]
  {
    CharFromShift(s, p, q, 1);
    assert forall j :: 0 <= j < p ==> s[..p][j] == s[j];
  }

  lemma CharFromShift(s: string, p: nat, q: nat, i: nat)
    requires p < q < |s| && s[q] == ')' && 1 <= i <= q - p
    requires forall j :: p < j < q ==> s[j] != ')'
    ensures CharFrom(s[p..q + 1], i, ')') == q - p
    decreases q - p - i
  {
    if i < q - p {
      CharFromShift(s, p, q, i + 1);
    }
  }

  lemma CasePiecesAt(s: string, p: nat, q: nat)
    requires FirstCase(s) == Some((p, q))
    ensures CasePieces(s) == [s[..p], s[p..q + 1]] + CasePieces(s[q + 1..])
  {
  }

  /** Splitting at case runs loses nothing. */
  lemma {:induction false} CasePiecesCover(s: string)
    ensures Concat(CasePieces(s)) == s
    decreases |s|
  {
    match FirstCase(s)
    case None =>
      ConcatSingle(s);
    case Some((p, q)) =>
      CasePiecesAt(s, p, q);
      CasePiecesCover(s[q + 1..]);
      CoverStep(s, p, q, CasePieces(s[q + 1..]));
  }

  lemma CoverStep(s: string, p: nat, q: nat, pieces: seq<string>)
    requires p <= q < |s| && Concat(pieces) == s[q + 1..]
    ensures Concat([s[..p], s[p..q + 1]] + pieces) == s
  {
    var a, c := s[..p], s[p..q + 1];
    ConcatAppend([a, c], pieces);
    ConcatPair(a, c);
    assert s == a + c + s[q + 1..];
  }

  lemma ConcatPair(a: string, b: string)
    ensures Concat([a, b]) == a + b
  {
    assert [a, b][1..] == [b];
    ConcatSingle(b);
  }

  /** The leftmost match of a text without `(` followed by a whole case run. */
  lemma FirstCaseAt(a: string, b: string, t: string)
    requires '(' !in a && CaseRunWhole(b)
    ensures FirstCase(a + b + t) == Some((|a|, |a| + |b| - 1))
  {
    var s := a + b + t;
    assert s[|a|] == b[0];
    CharFromIs(s, 0, '(', |a|);
    var m := |b| - 1;
    assert s[|a| + m] == b[m];
    forall j | |a| + 1 <= j < |a| + m
      ensures s[j] != ')'
    {
      assert s[j] == b[j - |a|];
    }
    CharFromIs(s, |a| + 1, ')', |a| + m);
  }

  /** Any alternating split that concatenates to `s` is the one `re.split` returns. */
  lemma {:induction false} CasePiecesUnique(s: string, r: seq<string>)
    requires PiecesAlternate(r) && Concat(r) == s
    ensures CasePieces(s) == r
    decreases |r|
  {
    if |r| == 1 {
      ConcatSingle(r[0]);
    } else {
      var p, q := UniqueStep(s, r);
      RestAlternates(r);
      CasePiecesUnique(s[q + 1..], r[2..]);
      UniqueCons(s, r, p, q);
    }
  }

  lemma UniqueCons(s: string, r: seq<string>, p: nat, q: nat)
    requires |r| > 1 && FirstCase(s) == Some((p, q))
    requires s[..p] == r[0] && s[p..q + 1] == r[1] && CasePieces(s[q + 1..]) == r[2..]
    ensures CasePieces(s) == r
  {
    CasePiecesAt(s, p, q);
    assert r == [r[0], r[1]] + r[2..];
  }

  /** The first two pieces of an alternating split locate the leftmost case run. */
  lemma UniqueStep(s: string, r: seq<string>) returns (p: nat, q: nat)
    requires PiecesAlternate(r) && Concat(r) == s && |r| > 1
    ensures FirstCase(s) == Some((p, q))
    ensures s[..p] == r[0] && s[p..q + 1] == r[1] && s[q + 1..] == Concat(r[2..])
  {
    var a, b, rest := r[0], r[1], r[2..];
    assert r == [a, b] + rest;
    ConcatAppend([a, b], rest);
    ConcatPair(a, b);
    var t := Concat(rest);
    FirstCaseAt(a, b, t);
    p, q := |a|, |a| + |b| - 1;
    assert s == a + b + t;
  }

  lemma RestAlternates(r: seq<string>)
    requires PiecesAlternate(r) && |r| > 1
    ensures PiecesAlternate(r[2..])
  {
    var rest := r[2..];
    assert rest[|rest| - 1] == r[|r| - 1];
    assert forall k :: 0 <= k < |rest| ==> rest[k] == r[k + 2];
  }

  // ------------------------------------------------------------------ atoms

  /** The atoms one piece contributes: a case run whole, other text split on whitespace. */
  function PieceTokens(piece: string): (r: seq<string>)
    ensures forall k :: 0 <= k < |r| ==> HasNoSpace(r[k]) || CaseMatch(r[k])
  {
    var s := Strip(piece);
    if CaseMatch(s) then [s] else SplitWS(s)
  }

  function TokensOf(pieces: seq<string>): (r: seq<string>)
    ensures forall k :: 0 <= k < |r| ==> HasNoSpace(r[k]) || CaseMatch(r[k])
  {
    if pieces == [] then []
    else TokensOf(pieces[..|pieces| - 1]) + PieceTokens(pieces[|pieces| - 1])
  }

  /** The `tokens` list `parse_row` builds for one fragment (empty atoms included). */
  function Tokens(fragment: string): seq<string>
  {
    TokensOf(CasePieces(fragment))
  }

  lemma PieceTokensKeep(piece: string)
    ensures RemoveSpaces(Concat(PieceTokens(piece))) == RemoveSpaces(piece)
  {
    var s := Strip(piece);
    StripKeepsNonSpaces(piece);
    if CaseMatch(s) {
      ConcatSingle(s);
    } else {
      SplitKeepsNonSpaces(s);
      RemoveSpacesNone(Concat(SplitWS(s)));
    }
  }

  lemma {:induction false} TokensOfKeep(pieces: seq<string>)
    ensures RemoveSpaces(Concat(TokensOf(pieces))) == RemoveSpaces(Concat(pieces))
  {
    if pieces != [] {
      var init, last := pieces[..|pieces| - 1], pieces[|pieces| - 1];
      TokensOfKeep(init);
      PieceTokensKeep(last);
      var a, b := TokensOf(init), PieceTokens(last);
      assert TokensOf(pieces) == a + b;
      ConcatAppend(a, b);
      RemoveSpacesAppend(Concat(a), Concat(b));
      ConcatSnoc(pieces);
      RemoveSpacesAppend(Concat(init), last);
    }
  }

  /** A whole `(...)` run is one atom, inner whitespace included. */
  lemma CaseRunToken(p: string)
    requires CaseMatch(p) && p[|p| - 1] == ')'
    ensures PieceTokens(p) == [p]
  {
    StripKeepsStripped(p);
  }

  /** Text holding no case match is stripped and split on whitespace. */
  lemma PlainPieceTokens(e: string)
    requires FirstCase(e).None?
    ensures PieceTokens(e) == SplitWS(Strip(e))
  {
    var t := Strip(e);
    if CaseMatch(t) {
      FirstCaseNone(e);
      CaseInSlice(e, t);
    }
  }

  /** A case match inside a slice of `e` is a `(` of `e` with a `)` after it. */
  lemma CaseInSlice(e: string, t: string)
    requires CaseMatch(t) && exists a: nat :: StripCut(e, a, t)
    ensures exists i, j :: 0 <= i < j < |e| && e[i] == '(' && e[j] == ')'
  {
    var a: nat :| StripCut(e, a, t);
    var q := CharFrom(t, 1, ')');
    assert e[a] == t[0] && e[a + q] == t[q];
  }

  /**
   * The atoms of alternating pieces, stated independently of the case test:
   * each case run as it stands, every other piece stripped and split on
   * whitespace.
   */
  function SplitPieces(pieces: seq<string>): seq<string>
  {
    if pieces == [] then []
    else
      var last := pieces[|pieces| - 1];
      SplitPieces(pieces[..|pieces| - 1]) + (if (|pieces| - 1) % 2 == 1 then [last] else SplitWS(Strip(last)))
  }

  /** Case runs at odd positions, text holding no case match at even ones. */
  predicate PiecesShaped(pieces: seq<string>)
  {
    forall k :: 0 <= k < |pieces| ==>
      if k % 2 == 1 then CaseRunWhole(pieces[k]) else FirstCase(pieces[k]).None?
  }

  lemma {:induction false} TokensOfSplit(pieces: seq<string>)
    requires PiecesShaped(pieces)
    ensures TokensOf(pieces) == SplitPieces(pieces)
  {
    if pieces != [] {
      ShapedInit(pieces);
      TokensOfSplit(pieces[..|pieces| - 1]);
      LastPieceTokens(pieces);
    }
  }

  lemma ShapedInit(pieces: seq<string>)
    requires PiecesShaped(pieces) && pieces != []
    ensures PiecesShaped(pieces[..|pieces| - 1])
  {
    var init := pieces[..|pieces| - 1];
    assert forall k :: 0 <= k < |init| ==> init[k] == pieces[k];
  }

  lemma LastPieceTokens(pieces: seq<string>)
    requires PiecesShaped(pieces) && pieces != []
    ensures var n := |pieces| - 1;
      PieceTokens(pieces[n]) == if n % 2 == 1 then [pieces[n]] else SplitWS(Strip(pieces[n]))
  {
    var n := |pieces| - 1;
    if n % 2 == 1 {
      CaseRunToken(pieces[n]);
    } else {
      PlainPieceTokens(pieces[n]);
    }
  }

  lemma NoOpenNoCase(e: string)
    requires '(' !in e
    ensures FirstCase(e).None?
  {
  }

  /**
   * The atoms of a fragment: every `(...)` case run whole, with its inner
   * spaces, and the text between runs stripped and split on whitespace.
   */
  lemma TokensAlternate(fragment: string)
    ensures Tokens(fragment) == SplitPieces(CasePieces(fragment))
  {
    var r := CasePieces(fragment);
    forall k | 0 <= k < |r|
      ensures if k % 2 == 1 then CaseRunWhole(r[k]) else FirstCase(r[k]).None?
    {
      if k % 2 == 0 && k < |r| - 1 {
        NoOpenNoCase(r[k]);
      }
    }
    TokensOfSplit(r);
  }

  /**
   * Atom extraction keeps every non-whitespace character of the fragment, in
   * order; an atom is either free of whitespace or a case atom: `(` first and a
   * `)` later.
   */
  lemma TokensKeepText(fragment: string)
    ensures RemoveSpaces(Concat(Tokens(fragment))) == RemoveSpaces(fragment)
    ensures forall k :: 0 <= k < |Tokens(fragment)| ==>
      HasNoSpace(Tokens(fragment)[k]) || CaseMatch(Tokens(fragment)[k])
  {
    TokensOfKeep(CasePieces(fragment));
    CasePiecesCover(fragment);
  }

  // ---------------------------------------------------------- classification

  function KindOf(c: char): BarlineKind
    requires IsDelim(c)
  {
    if c == '|' then Plain else if c == '[' then DoubleStart else DoubleEnd
  }

  datatype BarlineParts = BarlineParts(rep1: bool, kind: BarlineKind, rep2: bool)

  /** `re.match(r"(?P<rep1>[:])?(?P<kind>[|\[\]])(?P<rep2>[:])?", tk)`. */
  function BarlineMatch(tk: string): (r: Option<BarlineParts>)
    ensures r.Some? <==> (|tk| >= 1 && IsDelim(tk[0])) || (|tk| >= 2 && tk[0] == ':' && IsDelim(tk[1]))
    ensures r.Some? ==> (r.value.rep1 <==> tk[0] == ':')
    ensures r.Some? ==> var i := if r.value.rep1 then 1 else 0;
      r.value.kind == KindOf(tk[i]) && (r.value.rep2 <==> i + 1 < |tk| && tk[i + 1] == ':')
  {
    if |tk| >= 2 && tk[0] == ':' && IsDelim(tk[1]) then
      Some(BarlineParts(true, KindOf(tk[1]), |tk| >= 3 && tk[2] == ':'))
    else if |tk| >= 1 && IsDelim(tk[0]) then
      Some(BarlineParts(false, KindOf(tk[0]), |tk| >= 2 && tk[1] == ':'))
    else None
  }

  /** `re.match(r"(\d)/(\d)", tk)`. */
  predicate TimeMatch(tk: string)
  {
    |tk| >= 3 && IsDigit(tk[0]) && tk[1] == '/' && IsDigit(tk[2])
  }

  /** `re.match(r'-(\d+)-', tk)`, giving the digits. */
  function PauseMatch(tk: string): (r: Option<string>)
    ensures r.Some? ==> (StartsWith(tk, "-" + r.value + "-") && r.value != []
                         && forall j :: 0 <= j < |r.value| ==> IsDigit(r.value[j]))
  {
    if |tk| >= 1 && tk[0] == '-' then
      var k := DigitsEnd(tk, 1);
      if 1 < k < |tk| && tk[k] == '-' then
        assert tk[..k + 1] == "-" + tk[1..k] + "-";
        Some(tk[1..k])
      else None
    else None
  }

  /** Conversely, a dash, a digit run and a dash always make a pause of those digits. */
  lemma PauseMatchDigits(tk: string, d: string)
    requires d != [] && (forall j :: 0 <= j < |d| ==> IsDigit(d[j])) && StartsWith(tk, "-" + d + "-")
    ensures PauseMatch(tk) == Some(d)
  {
    var p := "-" + d + "-";
    assert forall j :: 1 <= j <= |d| ==> tk[j] == p[j] == d[j - 1];
    assert tk[|d| + 1] == p[|d| + 1] == '-';
    DigitsEndIs(tk, 1, |d| + 1);
    assert tk[1..|d| + 1] == d;
  }

  /** `re.match(r'\.(i?[ls])', tk)`, giving the group. */
  function SizeMatch(tk: string): (r: Option<string>)
    ensures r.Some? <==> StartsWith(tk, ".l") || StartsWith(tk, ".s") || StartsWith(tk, ".il") || StartsWith(tk, ".is")
    ensures r.Some? ==> StartsWith(tk, "." + r.value) && (r.value == "l" || r.value == "s" || r.value == "il" || r.value == "is")
    ensures r.Some? && (StartsWith(tk, ".il") || StartsWith(tk, ".is")) ==> |r.value| == 2
  {
    if |tk| >= 3 && tk[0] == '.' && tk[1] == 'i' && (tk[2] == 'l' || tk[2] == 's') then Some(tk[1..3])
    else if |tk| >= 2 && tk[0] == '.' && (tk[1] == 'l' || tk[1] == 's') then Some(tk[1..2])
    else None
  }

  /** What one atom does: elements appended to the bar, a new size, a new case text. */
  datatype Action = Action(emit: seq<BarElement>, size: Option<Size>, caseLabel: Option<string>)

  function Repeats(b: bool): seq<BarElement>
  {
    if b then [Repeat] else []
  }

  /** No rule of the chain before the chord fall-back matches `tk`. */
  predicate NoRuleMatches(tk: string)
    requires tk != ""
  {
    tk != ":" && !IsDelim(tk[0]) && !(|tk| >= 2 && tk[0] == ':' && IsDelim(tk[1]))
    && !TimeMatch(tk) && !CaseMatch(tk) && tk[0] != '-' && !StartsWith(tk, "==") && tk[0] != '%'
    && !StartsWith(tk, ".l") && !StartsWith(tk, ".s") && !StartsWith(tk, ".il") && !StartsWith(tk, ".is")
  }

  /**
   * The ordered rule chain of `parse_row`, first match wins; every rule is a
   * prefix match (`re.match`), except the exact `:`.
   */
  function Classify(tk: string): (r: Action)
    requires tk != ""
    // The rules below are told apart by the first character, except `:`
    // against `:|`, and a pause against the empty chord; those two pairs are
    // stated with the earlier rule excluded.
    ensures tk == ":" ==> r == Action([Repeat], None, None)
    ensures |tk| >= 2 && tk[0] == ':' && IsDelim(tk[1]) ==>
      r == Action([Repeat, Barline(KindOf(tk[1]))] + Repeats(|tk| >= 3 && tk[2] == ':'), None, None)
    ensures IsDelim(tk[0]) ==>
      r == Action([Barline(KindOf(tk[0]))] + Repeats(|tk| >= 2 && tk[1] == ':'), None, None)
    ensures TimeMatch(tk) ==> r == Action([Time([tk[0]], [tk[2]])], None, None)
    ensures CaseMatch(tk) ==> r == Action([], None, Some(CaseText(tk)))
    ensures PauseMatch(tk).Some? ==> r == Action([Pause(PauseMatch(tk).value)], Some(Short), None)
    ensures StartsWith(tk, "==") ==> r == Action([Pentagram, EmptyChord], None, None)
    ensures tk[0] == '-' && PauseMatch(tk).None? ==> r == Action([EmptyChord], None, None)
    ensures tk[0] == '%' ==> r == Action([SameMeasure], None, None)
    ensures StartsWith(tk, ".l") ==> r == Action([], Some(Long), None)
    ensures StartsWith(tk, ".s") ==> r == Action([], Some(Short), None)
    ensures r == Action([], None, None) <==> StartsWith(tk, ".il") || StartsWith(tk, ".is")
    ensures NoRuleMatches(tk) <==> r == Action([Chord(tk)], None, None)
  {
    if tk == ":" then Action([Repeat], None, None)
    else if BarlineMatch(tk).Some? then
      var b := BarlineMatch(tk).value;
      var e := Repeats(b.rep1) + [Barline(b.kind)] + Repeats(b.rep2);
      assert e[|Repeats(b.rep1)|] == Barline(b.kind);
      Action(e, None, None)
    else if TimeMatch(tk) then Action([Time([tk[0]], [tk[2]])], None, None)
    else if CaseMatch(tk) then Action([], None, Some(CaseText(tk)))
    else if PauseMatch(tk).Some? then Action([Pause(PauseMatch(tk).value)], Some(Short), None)
    else if StartsWith(tk, "==") then Action([Pentagram, EmptyChord], None, None)
    else if tk[0] == '-' then Action([EmptyChord], None, None)
    else if tk[0] == '%' then Action([SameMeasure], None, None)
    else if SizeMatch(tk).Some? then
      var g := SizeMatch(tk).value;
      Action([], if Lower(g) == "l" then Some(Long) else if Lower(g) == "s" then Some(Short) else None, None)
    else Action([Chord(tk)], None, None)
  }

  /** An atom that starts with a delimiter is a barline (and repeats) only: the rest of it is dropped. */
  lemma DelimAtomIsBarlineOnly(tk: string)
    requires tk != "" && IsDelim(tk[0])
    ensures Classify(tk) == Action([Barline(KindOf(tk[0]))] + Repeats(|tk| >= 2 && tk[1] == ':'), None, None)
  {
  }

  /** `.l` and `.s` set the size; `.L` is an ordinary chord. */
  lemma SizeAtoms()
    ensures Classify(".l").size == Some(Long) && Classify(".s").size == Some(Short)
    ensures Classify(".L") == Action([Chord(".L")], None, None)
  {
    assert Lower("l") == "l";
    assert Lower("s") == "s";
  }
}
