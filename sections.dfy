/** `GridProcessor.parse_section`: a section line's names, repeats, arrows and comment runs. */
module Sections {
  import opened Wrappers
  import opened Text
  import opened Ast
  import Atoms

  datatype NameParts = NameParts(name: string, rep: Option<string>)

  /** `re.match(r"\[(?P<name>.*?)\](?:\s*x(?P<rep>\d+))?", atom)`. */
  function NameMatch(atom: string): (r: Option<NameParts>)
    ensures r.Some? ==> StartsWith(atom, "[" + r.value.name + "]")
    ensures r.Some? ==> forall j :: 0 <= j < |r.value.name| ==> r.value.name[j] != ']'
    ensures r.Some? && r.value.rep.Some? ==>
      r.value.rep.value != [] && forall j :: 0 <= j < |r.value.rep.value| ==> IsDigit(r.value.rep.value[j])
    ensures atom != [] && atom[0] == '[' && ']' in atom[1..] ==> r.Some?
  {
    if |atom| >= 1 && atom[0] == '[' then
      var q := Atoms.CharFrom(atom, 1, ']');
      if q == |atom| then None
      else
        var k := SkipSpaces(atom, q + 1);
        var rep :=
          if k < |atom| && atom[k] == 'x' then
            var d := Atoms.DigitsEnd(atom, k + 1);
            if d > k + 1 then Some(atom[k + 1..d]) else None
          else None;
        assert atom[..q + 1] == "[" + atom[1..q] + "]";
        Some(NameParts(atom[1..q], rep))
    else None
  }

  /** The name of `[name]...` is everything up to the first `]`. */
  lemma BracketAt(atom: string, name: string, tail: string)
    requires forall j :: 0 <= j < |name| ==> name[j] != ']'
    requires atom == "[" + name + "]" + tail
    ensures atom[0] == '[' && Atoms.CharFrom(atom, 1, ']') == |name| + 1 && atom[1..|name| + 1] == name
  {
    assert forall j :: 1 <= j < |name| + 1 ==> atom[j] == name[j - 1];
    Atoms.CharFromIs(atom, 1, ']', |name| + 1);
  }

  /** The spaces `sp` after `pre` end where `t` starts. */
  lemma SpacesEndAt(atom: string, pre: string, sp: string, t: string)
    requires forall j :: 0 <= j < |sp| ==> IsSpace(sp[j])
    requires t == [] || !IsSpace(t[0])
    requires atom == pre + sp + t
    ensures SkipSpaces(atom, |pre|) == |pre| + |sp|
    ensures t != [] ==> atom[|pre| + |sp|] == t[0]
  {
    assert forall j :: |pre| <= j < |pre| + |sp| ==> atom[j] == sp[j - |pre|];
    if t != [] {
      assert atom[|pre| + |sp|] == t[0];
    }
    SkipSpacesIs(atom, |pre|, |pre| + |sp|);
  }

  /** A digit run `d` after `pre` and followed by a non-digit is read whole. */
  lemma DigitsEndAt(atom: string, pre: string, d: string, rest: string)
    requires forall j :: 0 <= j < |d| ==> IsDigit(d[j])
    requires rest == [] || !IsDigit(rest[0])
    requires atom == pre + d + rest
    ensures Atoms.DigitsEnd(atom, |pre|) == |pre| + |d| && atom[|pre|..|pre| + |d|] == d
  {
    assert forall j :: |pre| <= j < |pre| + |d| ==> atom[j] == d[j - |pre|];
    if rest != [] {
      assert atom[|pre| + |d|] == rest[0];
    }
    Atoms.DigitsEndIs(atom, |pre|, |pre| + |d|);
  }

  /** `NameMatch` once the positions of `]`, of `x` and of the end of the digits are known. */
  lemma NameMatchAt(atom: string, q: nat, k: nat, e: nat)
    requires 1 <= q < k < e <= |atom| && atom[0] == '[' && atom[k] == 'x'
    requires Atoms.CharFrom(atom, 1, ']') == q && SkipSpaces(atom, q + 1) == k
    requires Atoms.DigitsEnd(atom, k + 1) == e && e > k + 1
    ensures NameMatch(atom) == Some(NameParts(atom[1..q], Some(atom[k + 1..e])))
  {
  }

  /** Where `]`, `x` and the end of the digits sit in `[name]` + spaces + `x` + digits + rest. */
  lemma RepeatPositions(name: string, sp: string, d: string, rest: string)
    requires forall j :: 0 <= j < |name| ==> name[j] != ']'
    requires forall j :: 0 <= j < |sp| ==> IsSpace(sp[j])
    requires forall j :: 0 <= j < |d| ==> IsDigit(d[j])
    requires rest == [] || !IsDigit(rest[0])
    ensures var atom := "[" + name + "]" + sp + "x" + d + rest;
      var q := |name| + 1;
      var k := q + 1 + |sp|;
      atom[0] == '[' && Atoms.CharFrom(atom, 1, ']') == q && atom[1..q] == name
      && SkipSpaces(atom, q + 1) == k && atom[k] == 'x'
      && Atoms.DigitsEnd(atom, k + 1) == k + 1 + |d| && atom[k + 1..k + 1 + |d|] == d
  {
    var head := "[" + name + "]";
    var xs := "x" + d + rest;
    var atom := head + sp + "x" + d + rest;
    assert atom == "[" + name + "]" + (sp + xs);
    BracketAt(atom, name, sp + xs);
    assert atom == head + sp + xs;
    SpacesEndAt(atom, head, sp, xs);
    DigitsEndAt(atom, head + sp + "x", d, rest);
  }

  /** `x` and a digit run after the name (spaces allowed before `x`) are its repeat count, all the digits. */
  lemma NameMatchRepeat(name: string, sp: string, d: string, rest: string)
    requires forall j :: 0 <= j < |name| ==> name[j] != ']'
    requires forall j :: 0 <= j < |sp| ==> IsSpace(sp[j])
    requires d != [] && forall j :: 0 <= j < |d| ==> IsDigit(d[j])
    requires rest == [] || !IsDigit(rest[0])
    ensures NameMatch("[" + name + "]" + sp + "x" + d + rest) == Some(NameParts(name, Some(d)))
  {
    RepeatPositions(name, sp, d, rest);
    var q := |name| + 1;
    var k := q + 1 + |sp|;
    NameMatchAt("[" + name + "]" + sp + "x" + d + rest, q, k, k + 1 + |d|);
  }

  /** `NameMatch` when `]` is at `q` and no `x` and digit follow the spaces after it. */
  lemma NameMatchNoRepeatAt(atom: string, q: nat, k: nat)
    requires 1 <= q < k <= |atom| && atom[0] == '['
    requires Atoms.CharFrom(atom, 1, ']') == q && SkipSpaces(atom, q + 1) == k
    requires k == |atom| || atom[k] != 'x' || k + 1 == |atom| || !IsDigit(atom[k + 1])
    ensures NameMatch(atom) == Some(NameParts(atom[1..q], None))
  {
    if k < |atom| && atom[k] == 'x' && k + 1 < |atom| {
      assert Atoms.DigitsEnd(atom, k + 1) == k + 1;
    }
  }

  /** Without `x` and a digit after the name and its spaces there is no repeat count. */
  lemma NameMatchNoRepeat(name: string, sp: string, rest: string)
    requires forall j :: 0 <= j < |name| ==> name[j] != ']'
    requires forall j :: 0 <= j < |sp| ==> IsSpace(sp[j])
    requires rest == [] || (!IsSpace(rest[0]) && (rest[0] != 'x' || |rest| == 1 || !IsDigit(rest[1])))
    ensures NameMatch("[" + name + "]" + sp + rest) == Some(NameParts(name, None))
  {
    var head := "[" + name + "]";
    var atom := head + sp + rest;
    assert atom == "[" + name + "]" + (sp + rest);
    BracketAt(atom, name, sp + rest);
    SpacesEndAt(atom, head, sp, rest);
    var k := |head| + |sp|;
    if |rest| > 1 {
      assert atom[k + 1] == rest[1];
    }
    NameMatchNoRepeatAt(atom, |head| - 1, k);
  }

  /** `re.match(r"->", atom)`. */
  predicate IsArrow(atom: string)
  {
    StartsWith(atom, "->")
  }

  /** The section's children so far and the pending `comment` buffer. */
  datatype Scan = Scan(items: seq<SectionItem>, comment: seq<string>)

  /** The children after the pending buffer is flushed as one `SectionComment`. */
  function Flush(s: Scan): seq<SectionItem>
  {
    if |s.comment| > 0 then s.items + [Comment(Join(s.comment, " "))] else s.items
  }

  /** One pass of the atom loop. */
  function AtomStep(s: Scan, atom: string): Scan
  {
    match NameMatch(atom)
    case Some(nm) =>
      Scan(Flush(s) + [Name(nm.name)] + (if nm.rep.Some? then [Repetitions(nm.rep.value)] else []), [])
    case None =>
      if IsArrow(atom) then Scan(Flush(s) + [Arrow], [])
      else Scan(s.items, s.comment + [atom])
  }

  function ScanAtoms(atoms: seq<string>): Scan
  {
    if atoms == [] then Scan([], []) else AtomStep(ScanAtoms(atoms[..|atoms| - 1]), atoms[|atoms| - 1])
  }

  /** The children of the `Section` built from `text`. */
  function SectionOf(text: string): seq<SectionItem>
  {
    Flush(ScanAtoms(SplitWS(text)))
  }

  method ParseSection(text: string) returns (children: seq<SectionItem>)
    ensures children == SectionOf(text)
  {
    var atoms := SplitWS(text);
    children := [];
    var comment: seq<string> := [];
    for i := 0 to |atoms|
      invariant Scan(children, comment) == ScanAtoms(atoms[..i])
    {
      var atom := atoms[i];
      assert atoms[..i + 1][..i] == atoms[..i];
      var mName := NameMatch(atom);
      var mArrow := IsArrow(atom);
      if |comment| > 0 && (mName.Some? || mArrow) {
        children := children + [Comment(Join(comment, " "))];
        comment := [];
      }
      if mName.Some? {
        children := children + [Name(mName.value.name)];
        if mName.value.rep.Some? {
          children := children + [Repetitions(mName.value.rep.value)];
        }
      } else if mArrow {
        children := children + [Arrow];
      } else {
        comment := comment + [atom];
      }
    }
    assert atoms[..|atoms|] == atoms;
    if |comment| > 0 {
      children := children + [Comment(Join(comment, " "))];
    }
  }

  // ------------------------------------------------------------- properties

  /** No two comment runs are adjacent, and a repeat count always follows a name. */
  predicate WellFormed(items: seq<SectionItem>)
  {
    (forall i :: 0 <= i < |items| - 1 ==> !(items[i].Comment? && items[i + 1].Comment?))
    && (forall i :: 0 <= i < |items| && items[i].Repetitions? ==> i > 0 && items[i - 1].Name?)
  }

  predicate EndsOutsideComment(items: seq<SectionItem>)
  {
    items == [] || !items[|items| - 1].Comment?
  }

  lemma FlushKeeps(s: Scan)
    requires WellFormed(s.items) && EndsOutsideComment(s.items)
    ensures WellFormed(Flush(s))
  {
  }

  lemma {:induction false} ScanWellFormed(atoms: seq<string>)
    ensures WellFormed(ScanAtoms(atoms).items) && EndsOutsideComment(ScanAtoms(atoms).items)
  {
    if atoms != [] {
      ScanWellFormed(atoms[..|atoms| - 1]);
      StepKeeps(ScanAtoms(atoms[..|atoms| - 1]), atoms[|atoms| - 1]);
    }
  }

  lemma StepKeeps(s: Scan, atom: string)
    requires WellFormed(s.items) && EndsOutsideComment(s.items)
    ensures WellFormed(AtomStep(s, atom).items) && EndsOutsideComment(AtomStep(s, atom).items)
  {
    match NameMatch(atom)
    case Some(nm) =>
      FlushKeeps(s);
      var tail := [Name(nm.name)] + (if nm.rep.Some? then [Repetitions(nm.rep.value)] else []);
      ExtendKeeps(Flush(s), tail);
      assert AtomStep(s, atom).items == Flush(s) + tail;
    case None =>
      if IsArrow(atom) {
        FlushKeeps(s);
        ExtendKeeps(Flush(s), [Arrow]);
      }
  }

  /** Appending a well-formed run that starts with neither a comment nor a count keeps the children well formed. */
  lemma ExtendKeeps(items: seq<SectionItem>, tail: seq<SectionItem>)
    requires WellFormed(items) && WellFormed(tail)
    requires tail != [] && !tail[0].Comment? && !tail[0].Repetitions? && !tail[|tail| - 1].Comment?
    ensures WellFormed(items + tail) && EndsOutsideComment(items + tail)
  {
    var r := items + tail;
    assert r[|r| - 1] == tail[|tail| - 1];
    forall i | 0 <= i < |r| - 1
      ensures !(r[i].Comment? && r[i + 1].Comment?)
    {
      if i >= |items| {
        assert r[i] == tail[i - |items|] && r[i + 1] == tail[i + 1 - |items|];
      } else if i + 1 == |items| {
        assert r[i + 1] == tail[0];
      }
    }
    forall i | 0 <= i < |r| && r[i].Repetitions?
      ensures i > 0 && r[i - 1].Name?
    {
      if i > |items| {
        assert r[i] == tail[i - |items|] && r[i - 1] == tail[i - 1 - |items|];
      }
    }
  }

  /**
   * A comment buffer is flushed only before a name or an arrow and at the
   * end, so comment runs never touch; every repeat count follows its name.
   */
  lemma SectionWellFormed(text: string)
    ensures WellFormed(SectionOf(text))
  {
    ScanWellFormed(SplitWS(text));
    FlushKeeps(ScanAtoms(SplitWS(text)));
  }

  // ---------------------------------------- the section as runs of atoms

  /** A name or an arrow: the atoms that end a comment run. */
  predicate IsMarker(atom: string)
  {
    NameMatch(atom).Some? || IsArrow(atom)
  }

  /** The children a name or an arrow contributes: the name and its count, or the arrow. */
  function MarkerItems(atom: string): (r: seq<SectionItem>)
    requires IsMarker(atom)
    ensures r != [] && (r[0].Name? || r[0] == Arrow) && forall k :: 0 <= k < |r| ==> !r[k].Comment?
  {
    match NameMatch(atom)
    case Some(nm) => [Name(nm.name)] + (if nm.rep.Some? then [Repetitions(nm.rep.value)] else [])
    case None => [Arrow]
  }

  /** A run of plain atoms as one space-joined comment, or nothing for an empty run. */
  function RunItems(run: seq<string>): seq<SectionItem>
  {
    if run == [] then [] else [Comment(Join(run, " "))]
  }

  /** The number of atoms up to and including the last name or arrow (0 if none). */
  function Cut(atoms: seq<string>): (c: nat)
    ensures c <= |atoms| && (c > 0 ==> IsMarker(atoms[c - 1]))
    ensures forall j :: c <= j < |atoms| ==> !IsMarker(atoms[j])
  {
    if atoms == [] then 0
    else if IsMarker(atoms[|atoms| - 1]) then |atoms|
    else Cut(atoms[..|atoms| - 1])
  }

  /**
   * The children read off the atoms run by run: everything up to the last
   * name or arrow, that marker's children, then the plain atoms after it
   * joined by single spaces into one comment.
   */
  function RunsOf(atoms: seq<string>): seq<SectionItem>
    decreases |atoms|
  {
    var c := Cut(atoms);
    (if c == 0 then [] else RunsOf(atoms[..c - 1]) + MarkerItems(atoms[c - 1])) + RunItems(atoms[c..])
  }

  /** One pass of the atom loop on a name or an arrow: flush, then the marker's children. */
  lemma StepMarker(s: Scan, atom: string)
    requires IsMarker(atom)
    ensures AtomStep(s, atom) == Scan(Flush(s) + MarkerItems(atom), [])
  {
  }

  /** One pass of the atom loop on any other atom: it joins the buffer. */
  lemma StepPlain(s: Scan, atom: string)
    requires !IsMarker(atom)
    ensures AtomStep(s, atom) == Scan(s.items, s.comment + [atom])
  {
  }

  /** Reading up to and including the last marker ends on that marker. */
  lemma RunsOfPrefix(atoms: seq<string>)
    requires Cut(atoms) > 0
    ensures RunsOf(atoms[..Cut(atoms)]) == RunsOf(atoms[..Cut(atoms) - 1]) + MarkerItems(atoms[Cut(atoms) - 1])
  {
    var c := Cut(atoms);
    var pre := atoms[..c];
    assert Cut(pre) == c;
    assert pre[..c - 1] == atoms[..c - 1] && pre[c..] == [] && pre[c - 1] == atoms[c - 1];
  }

  /** Flushing the state `ScanIsRuns` describes gives the children read run by run. */
  lemma FlushRuns(atoms: seq<string>)
    ensures Flush(Scan(RunsOf(atoms[..Cut(atoms)]), atoms[Cut(atoms)..])) == RunsOf(atoms)
  {
    var c := Cut(atoms);
    if c > 0 {
      RunsOfPrefix(atoms);
    } else {
      assert atoms[..c] == [];
    }
  }

  /** The scan state after some atoms: the children up to the last marker, and the atoms after it. */
  lemma {:induction false} ScanIsRuns(atoms: seq<string>)
    ensures ScanAtoms(atoms) == Scan(RunsOf(atoms[..Cut(atoms)]), atoms[Cut(atoms)..])
    decreases |atoms|
  {
    if atoms != [] {
      var init := atoms[..|atoms| - 1];
      var a := atoms[|atoms| - 1];
      ScanIsRuns(init);
      var c := Cut(init);
      var s := ScanAtoms(init);
      assert s == Scan(RunsOf(init[..c]), init[c..]);
      assert ScanAtoms(atoms) == AtomStep(s, a);
      if IsMarker(a) {
        StepMarker(s, a);
        FlushRuns(init);
        assert Cut(atoms) == |atoms|;
        MarkedRuns(atoms);
      } else {
        StepPlain(s, a);
        assert Cut(atoms) == c;
        PlainSlices(atoms, c);
      }
    }
  }

  lemma PlainSlices(atoms: seq<string>, c: nat)
    requires c < |atoms|
    ensures atoms[..|atoms| - 1][..c] == atoms[..c]
    ensures atoms[..|atoms| - 1][c..] + [atoms[|atoms| - 1]] == atoms[c..]
  {
  }

  /** Atoms ending in a marker: all of them lie up to the last marker, and the run after it is empty. */
  lemma MarkedRuns(atoms: seq<string>)
    requires atoms != [] && Cut(atoms) == |atoms|
    ensures RunsOf(atoms[..Cut(atoms)]) == RunsOf(atoms[..|atoms| - 1]) + MarkerItems(atoms[|atoms| - 1])
    ensures atoms[Cut(atoms)..] == []
  {
    RunsOfPrefix(atoms);
  }

  /**
   * The children of a section line are its atoms read run by run: each
   * comment holds, joined by single spaces and in order, exactly the atoms
   * between two consecutive names or arrows (or the line's ends).
   */
  lemma SectionIsRuns(text: string)
    ensures SectionOf(text) == RunsOf(SplitWS(text))
  {
    ScanIsRuns(SplitWS(text));
    FlushRuns(SplitWS(text));
  }

  /** The atoms of `intro riff [Verse]`. */
  lemma IntroAtoms()
    ensures SplitWS("intro riff [Verse]") == ["intro", "riff", "[Verse]"]
  {
    var a := ["intro", "riff", "[Verse]"];
    assert a[1..] == ["riff", "[Verse]"] && a[1..][1..] == ["[Verse]"];
    assert Join(a, " ") == "intro riff [Verse]";
    SplitJoinWords(a);
  }

  lemma IntroMarkers()
    ensures !IsMarker("intro") && !IsMarker("riff")
    ensures NameMatch("[Verse]") == Some(NameParts("Verse", None))
  {
    NameMatchNoRepeat("Verse", "", "");
    assert "[" + "Verse" + "]" + "" + "" == "[Verse]";
    assert "intro"[0] == 'i' && "riff"[0] == 'r';
    assert NameMatch("intro") == None && NameMatch("riff") == None;
  }

  lemma IntroCut(a: seq<string>)
    requires a == ["intro", "riff", "[Verse]"]
    ensures Cut(a) == 3 && Cut(a[..2]) == 0
  {
    IntroMarkers();
    var p := a[..2];
    assert p[..1] == ["intro"] && p[..1][..0] == [];
  }

  lemma IntroRuns()
    ensures RunsOf(["intro", "riff", "[Verse]"]) == [Comment("intro riff"), Name("Verse")]
  {
    var a := ["intro", "riff", "[Verse]"];
    IntroCut(a);
    IntroMarkers();
    var p := a[..2];
    assert p == ["intro", "riff"] && p[..0] == [] && p[1..] == ["riff"];
    assert Join(p, " ") == "intro riff";
    assert MarkerItems("[Verse]") == [Name("Verse")];
    assert a[3..] == [];
  }

  /** `intro riff [Verse]`: both words before the name form one comment, joined by a space. */
  lemma CommentJoinsRun()
    ensures SectionOf("intro riff [Verse]") == [Comment("intro riff"), Name("Verse")]
  {
    SectionIsRuns("intro riff [Verse]");
    IntroAtoms();
    IntroRuns();
  }

  /** An empty section line yields exactly one empty comment. */
  lemma EmptySection()
    ensures SectionOf("") == [Comment("")]
  {
    SplitEmpty();
    assert ScanAtoms([""]) == Scan([], [""]);
  }

  /** The atoms of `[Verse] x2`. */
  lemma SpacedRepeatAtoms()
    ensures SplitWS("[Verse] x2") == ["[Verse]", "x2"]
  {
    var a := ["[Verse]", "x2"];
    assert a[1..] == ["x2"];
    assert Join(a, " ") == "[Verse] x2";
    SplitJoinWords(a);
  }

  lemma SpacedRepeatScan()
    ensures Flush(ScanAtoms(["[Verse]", "x2"])) == [Name("Verse"), Comment("x2")]
  {
    var a := ["[Verse]", "x2"];
    assert a[..1] == ["[Verse]"] && a[..1][..0] == [];
    assert Atoms.CharFrom("[Verse]", 1, ']') == 6;
    assert SkipSpaces("[Verse]", 7) == 7;
    assert "[Verse]"[1..6] == "Verse";
    assert NameMatch("[Verse]") == Some(NameParts("Verse", None));
    assert NameMatch("x2") == None;
  }

  /** `[Verse] x2`: the space makes `x2` an atom of its own, so it becomes a comment. */
  lemma SpacedRepeatIsComment()
    ensures SectionOf("[Verse] x2") == [Name("Verse"), Comment("x2")]
  {
    SpacedRepeatAtoms();
    SpacedRepeatScan();
  }

  /** `[Verse]x2` holds no whitespace, so it is one atom. */
  lemma AdjacentRepeatAtoms()
    ensures SplitWS("[Verse]x2") == ["[Verse]x2"]
  {
    var s := "[Verse]x2";
    assert forall j :: 0 <= j < |s| ==> !IsSpace(s[j]);
    SpaceFromIs(s, 0, |s|);
  }

  lemma AdjacentRepeatScan()
    ensures Flush(ScanAtoms(["[Verse]x2"])) == [Name("Verse"), Repetitions("2")]
  {
    var a := ["[Verse]x2"];
    assert a[..0] == [];
    assert Atoms.CharFrom("[Verse]x2", 1, ']') == 6;
    assert SkipSpaces("[Verse]x2", 7) == 7;
    assert Atoms.DigitsEnd("[Verse]x2", 8) == 9;
    assert "[Verse]x2"[1..6] == "Verse" && "[Verse]x2"[8..9] == "2";
    assert NameMatch("[Verse]x2") == Some(NameParts("Verse", Some("2")));
  }

  /** `[Verse]x2`: a count written right after the name is a repeat count. */
  lemma AdjacentRepeatCounts()
    ensures SectionOf("[Verse]x2") == [Name("Verse"), Repetitions("2")]
  {
    AdjacentRepeatAtoms();
    AdjacentRepeatScan();
  }
}
