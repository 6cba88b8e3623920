/**
 * `GridProcessor.run`: comment stripping, the ordered whole-line grammars
 * and the document the lines build.
 */
module Lines {
  import opened Wrappers
  import opened Text
  import opened Ast
  import Rows
  import Sections

  /** A line as `readlines()` gives it: no newline except, possibly, a final one. */
  predicate OneLine(s: string)
  {
    forall i :: 0 <= i < |s| - 1 ==> s[i] != '\n'
  }

  predicate SlashesAt(s: string, i: nat)
  {
    i + 1 < |s| && s[i] == '/' && s[i + 1] == '/'
  }

  /** The index of the last `//` in `s`. */
  function LastSlashes(s: string): (r: Option<nat>)
    ensures r.Some? ==> SlashesAt(s, r.value) && forall j :: r.value < j < |s| ==> !SlashesAt(s, j)
    ensures r.None? ==> forall j :: 0 <= j < |s| ==> !SlashesAt(s, j)
  {
    if |s| < 2 then None
    else if s[|s| - 2] == '/' && s[|s| - 1] == '/' then Some(|s| - 2)
    else
      var r := LastSlashes(s[..|s| - 1]);
      assert forall j :: 0 <= j < |s| - 1 && SlashesAt(s, j) ==> SlashesAt(s[..|s| - 1], j);
      r
  }

  /**
   * `re.match(r"^(.*)(?=(//))(.*)$", line).group(1)` when it matches: the
   * greedy group cuts the line at its LAST `//`.
   */
  function StripComment(line: string): (r: string)
    requires OneLine(line)
    ensures |r| <= |line| && r == line[..|r|]
    ensures r != line ==> SlashesAt(line, |r|) && forall j :: |r| < j < |line| ==> !SlashesAt(line, j)
    ensures r == line ==> forall j :: 0 <= j < |line| ==> !SlashesAt(line, j)
  {
    match LastSlashes(line)
    case Some(i) => line[..i]
    case None => line
  }

  // ------------------------------------------------- the whole-line grammars

  predicate NoHash(s: string)
  {
    forall j :: 0 <= j < |s| ==> s[j] != '#'
  }

  /** `^#([^#]+)$` */
  predicate IsTitle(L: string)
  {
    |L| >= 2 && L[0] == '#' && NoHash(L[1..])
  }

  /** `^#{2}([^#]+)$` */
  predicate IsSubtitle(L: string)
  {
    |L| >= 3 && L[0] == '#' && L[1] == '#' && NoHash(L[2..])
  }

  /** `^(?i:author:)(.+)$` */
  predicate IsAuthor(L: string)
  {
    |L| > 7 && StartsWithIgnoreCase(L, "author:")
  }

  /** `^(?i:copyright:)(.+)$` */
  predicate IsCopyright(L: string)
  {
    |L| > 10 && StartsWithIgnoreCase(L, "copyright:")
  }

  /** `^%vspace-?(.*)%$` */
  predicate IsVspace(L: string)
  {
    |L| >= 8 && L[..7] == "%vspace" && L[|L| - 1] == '%'
  }

  /** The group of `^%vspace-?(.*)%$`: the optional `-` is taken when present. */
  function VspaceGroup(L: string): string
    requires IsVspace(L)
  {
    if L[7] == '-' then L[8..|L| - 1] else L[7..|L| - 1]
  }

  /** `^\s*-(.*)$` */
  predicate IsSectionLine(L: string)
  {
    SkipSpaces(L, 0) < |L| && L[SkipSpaces(L, 0)] == '-'
  }

  /** `^(<.*>)$` */
  predicate IsTag(L: string)
  {
    |L| >= 2 && L[0] == '<' && L[|L| - 1] == '>'
  }

  /** What a non-blank line is, with the text each branch of `run` takes from it. */
  datatype LineKind =
    | TitleLine(value: string)
    | SubtitleLine(value: string)
    | AuthorLine(value: string)
    | CopyrightLine(value: string)
    | VspaceLine(kind: string)
    | SectionLine(text: string)
    | RowLine(text: string)
    | TagLine(text: string)
    | OtherLine(text: string)

  /**
   * The `if`/`elif` chain of `run`: the eight grammars are tried in a fixed
   * order and the first one that matches decides.
   */
  function ClassifyLine(L: string): (r: LineKind)
    ensures r.TitleLine? <==> IsTitle(L)
    ensures r.SubtitleLine? <==> !IsTitle(L) && IsSubtitle(L)
    ensures r.AuthorLine? <==> !IsTitle(L) && !IsSubtitle(L) && IsAuthor(L)
    ensures r.CopyrightLine? <==> !IsTitle(L) && !IsSubtitle(L) && !IsAuthor(L) && IsCopyright(L)
    ensures r.VspaceLine? <==>
      !IsTitle(L) && !IsSubtitle(L) && !IsAuthor(L) && !IsCopyright(L) && IsVspace(L)
    ensures r.SectionLine? <==>
      !IsTitle(L) && !IsSubtitle(L) && !IsAuthor(L) && !IsCopyright(L) && !IsVspace(L) && IsSectionLine(L)
    ensures r.RowLine? <==>
      !IsTitle(L) && !IsSubtitle(L) && !IsAuthor(L) && !IsCopyright(L) && !IsVspace(L)
      && !IsSectionLine(L) && Rows.IsGridRow(L)
    ensures r.TagLine? <==>
      !IsTitle(L) && !IsSubtitle(L) && !IsAuthor(L) && !IsCopyright(L) && !IsVspace(L)
      && !IsSectionLine(L) && !Rows.IsGridRow(L) && IsTag(L)
    ensures (r.RowLine? || r.TagLine? || r.OtherLine?) ==> r.text == L
  {
    if IsTitle(L) then TitleLine(Strip(L[1..]))
    else if IsSubtitle(L) then SubtitleLine(Strip(L[2..]))
    else if IsAuthor(L) then AuthorLine(Strip(L[7..]))
    else if IsCopyright(L) then CopyrightLine(Strip(L[10..]))
    else if IsVspace(L) then VspaceLine(Lower(Strip(VspaceGroup(L))))
    else if IsSectionLine(L) then SectionLine(Strip(L[SkipSpaces(L, 0) + 1..]))
    else if Rows.IsGridRow(L) then RowLine(L)
    else if IsTag(L) then TagLine(L)
    else OtherLine(L)
  }

  /**
   * What each metadata, vspace and section line carries: the text after its
   * marker, stripped (and lower-cased for a vspace kind).
   */
  lemma ClassifyPayload(L: string)
    ensures var r := ClassifyLine(L);
      && (r.TitleLine? ==> r.value == Strip(L[1..]))
      && (r.SubtitleLine? ==> r.value == Strip(L[2..]))
      && (r.AuthorLine? ==> r.value == Strip(L[|"author:"|..]))
      && (r.CopyrightLine? ==> r.value == Strip(L[|"copyright:"|..]))
      && (r.VspaceLine? ==> r.kind == Lower(Strip(VspaceGroup(L))))
      && (r.SectionLine? ==> r.text == Strip(L[SkipSpaces(L, 0) + 1..]))
  {
  }

  /** `# My Tune` sets the title to `My Tune`: the `#` and the space are not part of it. */
  lemma TitleValue()
    ensures ClassifyLine("# My Tune") == TitleLine("My Tune")
  {
    var L := "# My Tune";
    assert NoHash(L[1..]);
    assert L[1..] == " My Tune";
    assert StripCut(" My Tune", 1, "My Tune");
    StripUnique(" My Tune", 1, "My Tune");
    ClassifyPayload(L);
  }

  /** `author: Bo` sets the author to `Bo`: the `author:` marker and the space are not part of it. */
  lemma AuthorValue()
    ensures ClassifyLine("author: Bo") == AuthorLine("Bo")
  {
    var L := "author: Bo";
    assert L[..7] == "author:" && Lower("author:") == "author:";
    assert IsAuthor(L) && !IsTitle(L) && !IsSubtitle(L);
    assert L[7..] == " Bo";
    assert StripCut(" Bo", 1, "Bo");
    StripUnique(" Bo", 1, "Bo");
    ClassifyPayload(L);
  }

  /** `- [A] x`: the section text is what follows the leading `-`, stripped. */
  lemma SectionValue()
    ensures ClassifyLine("- [A] x") == SectionLine("[A] x")
  {
    var L := "- [A] x";
    assert SkipSpaces(L, 0) == 0;
    assert IsSectionLine(L) && !IsTitle(L) && !IsSubtitle(L) && !IsVspace(L);
    assert !IsAuthor(L) && !IsCopyright(L);
    assert L[1..] == " [A] x";
    assert StripCut(" [A] x", 1, "[A] x");
    StripUnique(" [A] x", 1, "[A] x");
    ClassifyPayload(L);
  }

  /** The stripped line `run` classifies, or `None` for a line it skips. */
  function LineOf(raw: string): (r: Option<LineKind>)
    requires OneLine(raw)
    ensures Parsable(r)
  {
    var L := Strip(StripComment(raw));
    if L == "" then None else Some(ClassifyLine(L))
  }

  predicate IsMetadata(k: LineKind)
  {
    k.TitleLine? || k.SubtitleLine? || k.AuthorLine? || k.CopyrightLine?
  }

  predicate AllOneLine(lines: seq<string>)
  {
    forall i :: 0 <= i < |lines| ==> OneLine(lines[i])
  }

  /** The tree node a non-metadata line appends. */
  function NodeOf(k: LineKind): Block
    requires !IsMetadata(k)
    requires k.RowLine? ==> Rows.IsGridRow(k.text)
  {
    match k
    case VspaceLine(kind) => Vspace(kind)
    case SectionLine(text) => Section(Sections.SectionOf(text))
    case RowLine(text) =>
      Rows.GridRowFragments(text);
      GridRow(Rows.MeasuresOf(Rows.Merge(Rows.Fragments(text))))
    case TagLine(text) => RawTag(text)
    case OtherLine(text) => Unrecognized(text)
  }

  /** A grid-row kind carries a line the grid-row grammar accepts. */
  predicate Parsable(ko: Option<LineKind>)
  {
    ko.Some? && ko.value.RowLine? ==> Rows.IsGridRow(ko.value.text)
  }

  /** What one line does to the document being built. */
  function LineStep(g: Document, raw: string): Document
    requires OneLine(raw)
  {
    Apply(g, LineOf(raw))
  }

  /** What a classified line (or a skipped one) does to the document. */
  function Apply(g: Document, ko: Option<LineKind>): Document
    requires Parsable(ko)
  {
    match ko
    case None => g
    case Some(k) =>
      match k
      case TitleLine(v) => g.(info := g.info.(title := Some(v)))
      case SubtitleLine(v) => g.(info := g.info.(subtitle := Some(v)))
      case AuthorLine(v) => g.(info := g.info.(author := Some(v)))
      case CopyrightLine(v) => g.(info := g.info.(copyright := Some(v)))
      case _ => g.(tree := g.tree + [NodeOf(k)])
  }

  /** The `Grid` that `run(lines)` returns, for a run whose metadata starts unset. */
  function RunOf(lines: seq<string>): Document
    requires AllOneLine(lines)
  {
    if lines == [] then Document(NoInfo, [])
    else LineStep(RunOf(lines[..|lines| - 1]), lines[|lines| - 1])
  }

  /** The `if`/`elif` chain of `run` on one stripped, non-blank line. */
  method Dispatch(g: Document, line: string) returns (g': Document)
    requires line != ""
    ensures g' == Apply(g, Some(ClassifyLine(line)))
  {
    g' := g;
    if IsTitle(line) {
      g' := g'.(info := g'.info.(title := Some(Strip(line[1..]))));
    } else if IsSubtitle(line) {
      g' := g'.(info := g'.info.(subtitle := Some(Strip(line[2..]))));
    } else if IsAuthor(line) {
      g' := g'.(info := g'.info.(author := Some(Strip(line[7..]))));
    } else if IsCopyright(line) {
      g' := g'.(info := g'.info.(copyright := Some(Strip(line[10..]))));
    } else if IsVspace(line) {
      g' := g'.(tree := g'.tree + [Vspace(Lower(Strip(VspaceGroup(line))))]);
    } else if IsSectionLine(line) {
      var text := Strip(line[SkipSpaces(line, 0) + 1..]);
      var children := Sections.ParseSection(text);
      g' := g'.(tree := g'.tree + [Section(children)]);
    } else if Rows.IsGridRow(line) {
      Rows.GridRowFragments(line);
      var measures := Rows.ParseRow(line);
      g' := g'.(tree := g'.tree + [GridRow(measures)]);
    } else if IsTag(line) {
      g' := g'.(tree := g'.tree + [RawTag(line)]);
    } else {
      g' := g'.(tree := g'.tree + [Unrecognized(line)]);
    }
  }

  /** The body of the loop of `run` for one raw line: comment removal, stripping, skipping, dispatch. */
  method Step(g: Document, raw: string) returns (g': Document)
    requires OneLine(raw)
    ensures g' == LineStep(g, raw)
  {
    var line := StripComment(raw);
    line := Strip(line);
    if line == "" {
      return g;
    }
    g' := Dispatch(g, line);
  }

  method Run(lines: seq<string>) returns (g: Document)
    requires AllOneLine(lines)
    ensures g == RunOf(lines)
  {
    g := Document(NoInfo, []);
    for i := 0 to |lines|
      invariant g == RunOf(lines[..i])
    {
      assert lines[..i + 1][..i] == lines[..i];
      g := Step(g, lines[i]);
    }
    assert lines[..|lines|] == lines;
  }

  // ------------------------------------------------------------- properties

  /** Whether a line appends a node to `g.tree`. */
  predicate AddsNode(raw: string)
    requires OneLine(raw)
  {
    LineOf(raw).Some? && !IsMetadata(LineOf(raw).value)
  }

  function NodeLines(lines: seq<string>): nat
    requires AllOneLine(lines)
  {
    if lines == [] then 0
    else NodeLines(lines[..|lines| - 1]) + (if AddsNode(lines[|lines| - 1]) then 1 else 0)
  }

  /** Every non-blank, non-metadata line appends exactly one node; the rest append none. */
  lemma {:induction false} TreeSize(lines: seq<string>)
    requires AllOneLine(lines)
    ensures |RunOf(lines).tree| == NodeLines(lines)
  {
    if lines != [] {
      var init := lines[..|lines| - 1];
      TreeSize(init);
      StepSize(RunOf(init), lines[|lines| - 1]);
    }
  }

  lemma StepSize(g: Document, raw: string)
    requires OneLine(raw)
    ensures |LineStep(g, raw).tree| == |g.tree| + (if AddsNode(raw) then 1 else 0)
  {
    ApplySize(g, LineOf(raw));
  }

  lemma ApplySize(g: Document, ko: Option<LineKind>)
    requires Parsable(ko)
    ensures |Apply(g, ko).tree| == |g.tree| + (if ko.Some? && !IsMetadata(ko.value) then 1 else 0)
  {
  }

  lemma ApplyGrows(g: Document, ko: Option<LineKind>)
    requires Parsable(ko)
    ensures g.tree <= Apply(g, ko).tree
  {
  }

  /** Nodes are only ever appended: the tree of a prefix of the lines is a prefix of the tree. */
  lemma {:induction false} TreeGrowsInOrder(lines: seq<string>, i: nat)
    requires AllOneLine(lines) && i <= |lines|
    ensures RunOf(lines[..i]).tree <= RunOf(lines).tree
    decreases |lines| - i
  {
    if i < |lines| {
      var init := lines[..|lines| - 1];
      assert lines[..i] == init[..i];
      TreeGrowsInOrder(init, i);
      ApplyGrows(RunOf(init), LineOf(lines[|lines| - 1]));
    } else {
      assert lines[..i] == lines;
    }
  }

  datatype Key = TitleKey | SubtitleKey | AuthorKey | CopyrightKey

  /** The metadata key a line sets, with its value. */
  function MetaOf(raw: string): Option<(Key, string)>
    requires OneLine(raw)
  {
    MetaOfKind(LineOf(raw))
  }

  function MetaOfKind(ko: Option<LineKind>): Option<(Key, string)>
  {
    match ko
    case Some(TitleLine(v)) => Some((TitleKey, v))
    case Some(SubtitleLine(v)) => Some((SubtitleKey, v))
    case Some(AuthorLine(v)) => Some((AuthorKey, v))
    case Some(CopyrightLine(v)) => Some((CopyrightKey, v))
    case _ => None
  }

  predicate Sets(raw: string, key: Key)
    requires OneLine(raw)
  {
    SetsKind(LineOf(raw), key)
  }

  predicate SetsKind(ko: Option<LineKind>, key: Key)
  {
    MetaOfKind(ko).Some? && MetaOfKind(ko).value.0 == key
  }

  function Field(info: Info, key: Key): Option<string>
  {
    match key
    case TitleKey => info.title
    case SubtitleKey => info.subtitle
    case AuthorKey => info.author
    case CopyrightKey => info.copyright
  }

  lemma StepField(g: Document, ko: Option<LineKind>, key: Key)
    requires Parsable(ko)
    ensures Field(Apply(g, ko).info, key) ==
      if SetsKind(ko, key) then Some(MetaOfKind(ko).value.1) else Field(g.info, key)
  {
  }

  // The metadata lemmas are proved on the classified lines, so that the
  // line grammars are not unfolded once per line.

  predicate AllParsable(ks: seq<Option<LineKind>>)
  {
    forall j :: 0 <= j < |ks| ==> Parsable(ks[j])
  }

  /** How `run` sees each line. */
  function KindsOf(lines: seq<string>): (ks: seq<Option<LineKind>>)
    requires AllOneLine(lines)
    ensures |ks| == |lines| && AllParsable(ks)
  {
    if lines == [] then []
    else KindsOf(lines[..|lines| - 1]) + [LineOf(lines[|lines| - 1])]
  }

  lemma {:induction false} KindsAt(lines: seq<string>, j: nat)
    requires AllOneLine(lines) && j < |lines|
    ensures KindsOf(lines)[j] == LineOf(lines[j])
  {
    if j < |lines| - 1 {
      KindsAt(lines[..|lines| - 1], j);
    }
  }

  /** The document built from already classified lines. */
  function Build(ks: seq<Option<LineKind>>): Document
    requires AllParsable(ks)
  {
    if ks == [] then Document(NoInfo, [])
    else Apply(Build(ks[..|ks| - 1]), ks[|ks| - 1])
  }

  lemma {:induction false} RunOfIsBuild(lines: seq<string>)
    requires AllOneLine(lines)
    ensures RunOf(lines) == Build(KindsOf(lines))
  {
    if lines != [] {
      var init := lines[..|lines| - 1];
      RunOfIsBuild(init);
      var ks := KindsOf(lines);
      assert ks[..|ks| - 1] == KindsOf(init);
    }
  }

  lemma {:induction false} BuildLastWins(ks: seq<Option<LineKind>>, i: nat, key: Key)
    requires AllParsable(ks) && i < |ks| && SetsKind(ks[i], key)
    requires forall j :: i < j < |ks| ==> !SetsKind(ks[j], key)
    ensures Field(Build(ks).info, key) == Some(MetaOfKind(ks[i]).value.1)
  {
    var init := ks[..|ks| - 1];
    StepField(Build(init), ks[|ks| - 1], key);
    if i < |ks| - 1 {
      BuildLastWins(init, i, key);
    }
  }

  lemma {:induction false} BuildUnset(ks: seq<Option<LineKind>>, key: Key)
    requires AllParsable(ks)
    requires forall j :: 0 <= j < |ks| ==> !SetsKind(ks[j], key)
    ensures Field(Build(ks).info, key) == None
  {
    if ks != [] {
      var init := ks[..|ks| - 1];
      BuildUnset(init, key);
      StepField(Build(init), ks[|ks| - 1], key);
    }
  }

  /** A later title, subtitle, author or copyright line overwrites an earlier one. */
  lemma MetadataLastWins(lines: seq<string>, i: nat, key: Key)
    requires AllOneLine(lines) && i < |lines| && Sets(lines[i], key)
    requires forall j :: i < j < |lines| ==> !Sets(lines[j], key)
    ensures Field(RunOf(lines).info, key) == Some(MetaOf(lines[i]).value.1)
  {
    LastWinsKinds(lines, i, key);
    RunOfIsBuild(lines);
    BuildLastWins(KindsOf(lines), i, key);
  }

  /** A key no line sets stays unset. */
  lemma MetadataUnset(lines: seq<string>, key: Key)
    requires AllOneLine(lines)
    requires forall j :: 0 <= j < |lines| ==> !Sets(lines[j], key)
    ensures Field(RunOf(lines).info, key) == None
  {
    UnsetKinds(lines, key);
    RunOfIsBuild(lines);
    BuildUnset(KindsOf(lines), key);
  }

  lemma KindsAll(lines: seq<string>)
    requires AllOneLine(lines)
    ensures forall j :: 0 <= j < |lines| ==> KindsOf(lines)[j] == LineOf(lines[j])
  {
    forall j | 0 <= j < |lines|
      ensures KindsOf(lines)[j] == LineOf(lines[j])
    {
      KindsAt(lines, j);
    }
  }

  lemma LastWinsKinds(lines: seq<string>, i: nat, key: Key)
    requires AllOneLine(lines) && i < |lines| && Sets(lines[i], key)
    requires forall j :: i < j < |lines| ==> !Sets(lines[j], key)
    ensures SetsKind(KindsOf(lines)[i], key) && MetaOfKind(KindsOf(lines)[i]) == MetaOf(lines[i])
    ensures forall j :: i < j < |lines| ==> !SetsKind(KindsOf(lines)[j], key)
  {
    KindsAll(lines);
  }

  lemma UnsetKinds(lines: seq<string>, key: Key)
    requires AllOneLine(lines)
    requires forall j :: 0 <= j < |lines| ==> !Sets(lines[j], key)
    ensures forall j :: 0 <= j < |lines| ==> !SetsKind(KindsOf(lines)[j], key)
  {
    KindsAll(lines);
  }

  /** A metadata value is never empty: the grammars need a non-blank rest of line. */
  lemma MetadataNonEmpty(raw: string)
    requires OneLine(raw) && MetaOf(raw).Some?
    ensures MetaOf(raw).value.1 != ""
  {
    var L := Strip(StripComment(raw));
    assert L != "";
    MetaValueNonEmpty(L);
  }

  lemma MetaValueNonEmpty(L: string)
    requires L != "" && IsStripped(L)
    ensures MetaOfKind(Some(ClassifyLine(L))).Some? ==> MetaOfKind(Some(ClassifyLine(L))).value.1 != ""
  {
    if IsTitle(L) {
      NonBlankStrip(L[1..]);
    } else if IsSubtitle(L) {
      NonBlankStrip(L[2..]);
    } else if IsAuthor(L) {
      NonBlankStrip(L[7..]);
    } else if IsCopyright(L) {
      NonBlankStrip(L[10..]);
    }
  }

  lemma NonBlankStrip(s: string)
    requires s != [] && !IsSpace(s[|s| - 1])
    ensures Strip(s) != ""
  {
    var t := TrimStart(s);
    assert t != [] && t[|t| - 1] == s[|s| - 1];
  }
}
