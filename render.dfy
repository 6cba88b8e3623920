/**
 * The HTML renderer: `Element.to_html`, `ElementGroup.to_html`, the opening
 * tag each node class chooses, and `Grid.to_html`. The style sheet, the
 * live-reload script and the live-server address are parameters.
 */
module Render {
  import opened Wrappers
  import opened Text
  import opened Ast
  import Bars
  import Lines

  // ------------------------------------------------------------------ tags

  /** Every opening tag of the renderer has this shape. */
  function Tag(name: string, cls: string): string
  {
    "<" + name + " class=\"" + cls + "\">"
  }

  /** `s.split(' ')[0]`: the text before the first space. */
  function FirstWord(s: string): (r: string)
    ensures |r| <= |s| && r == s[..|r|] && ' ' !in r
    ensures |r| < |s| ==> s[|r|] == ' '
  {
    SpaceAtFacts(s, 0);
    s[..SpaceAt(s, 0)]
  }

  /** The index of the first space at or after `i`, or `|s|`. */
  function SpaceAt(s: string, i: nat): (k: nat)
    requires i <= |s|
    ensures i <= k <= |s|
    decreases |s| - i
  {
    if i == |s| || s[i] == ' ' then i else SpaceAt(s, i + 1)
  }

  lemma {:induction false} SpaceAtFacts(s: string, i: nat)
    requires i <= |s|
    ensures SpaceAt(s, i) < |s| ==> s[SpaceAt(s, i)] == ' '
    ensures forall j :: i <= j < SpaceAt(s, i) ==> s[j] != ' '
    decreases |s| - i
  {
    if i < |s| && s[i] != ' ' {
      SpaceAtFacts(s, i + 1);
    }
  }

  /** `s[1:]`. */
  function Drop1(s: string): string
  {
    if s == [] then [] else s[1..]
  }

  /** The closing tag `Element.to_html` and `ElementGroup.to_html` derive from `tag_start`. */
  function CloseTag(tagStart: string): string
  {
    "</" + Drop1(FirstWord(tagStart)) + ">"
  }

  /** The derived closing tag names the element the opening tag opens. */
  lemma TagCloses(name: string, cls: string)
    requires ' ' !in name
    ensures CloseTag(Tag(name, cls)) == "</" + name + ">"
  {
    var t := Tag(name, cls);
    var p := "<" + name;
    assert t == p + (" class=\"" + cls + "\">");
    assert t[|p|] == ' ';
    assert forall j :: 0 <= j < |p| ==> t[j] == p[j] && p[j] != ' ';
    var w := FirstWord(t);
    assert |w| == |p|;
    assert w == p;
  }

  /** Where the class sits in a tag: after `<`, the name and ` class="`, followed by `"`. */
  lemma TagClassAt(name: string, cls: string, j: nat)
    requires j <= |cls|
    ensures |Tag(name, cls)| == |name| + |cls| + 11
    ensures Tag(name, cls)[|name| + 9 + j] == if j < |cls| then cls[j] else '"'
  {
    var t := Tag(name, cls);
    assert t == ("<" + name + " class=\"") + cls + "\">";
  }

  lemma TagOneLine(name: string, cls: string)
    requires '\n' !in name && '\n' !in cls
    ensures '\n' !in Tag(name, cls)
  {
  }

  /** A leaf whose tag is a `Tag` closes the element it opens. */
  lemma TagLeaf(name: string, cls: string, text: string)
    requires ' ' !in name
    ensures RenderLeaf(Tag(name, cls), text) == Tag(name, cls) + text + "</" + name + ">"
  {
    TagCloses(name, cls);
  }

  /** `Element.to_html`: a leaf with no `tag_start` renders as bare text. */
  function RenderLeaf(tagStart: string, text: string): string
  {
    if tagStart == "" then text else tagStart + text + CloseTag(tagStart)
  }

  function Tabbed(kids: seq<string>): (r: seq<string>)
    ensures |r| == |kids| && forall i :: 0 <= i < |kids| ==> r[i] == "\t" + kids[i]
  {
    seq(|kids|, i requires 0 <= i < |kids| => "\t" + kids[i])
  }

  /** `ElementGroup.to_html` on the rendered non-`None` children. */
  function RenderGroup(tagStart: string, kids: seq<string>): string
  {
    Join([tagStart, Join(Tabbed(kids), "\n"), CloseTag(tagStart)], "\n")
  }

  lemma Join3(a: string, b: string, c: string, sep: string)
    ensures Join([a, b, c], sep) == a + sep + b + sep + c
  {
    assert [a, b, c][1..] == [b, c];
    assert [b, c][1..] == [c];
    assert Join([c], sep) == c;
    assert Join([b, c], sep) == b + sep + c;
  }

  lemma StartsWithIn(a: string, b: string, c: string, rest: string)
    requires StartsWith(b, c)
    ensures StartsWith(a + b + rest, a + c)
  {
    assert (a + b + rest)[..|a + c|] == a + b[..|c|];
  }

  lemma PrefixOfConcat(a: string, b: string)
    ensures StartsWith(a + b, a)
  {
    assert (a + b)[..|a|] == a;
  }

  lemma LeafStarts(tagStart: string, text: string)
    ensures StartsWith(RenderLeaf(tagStart, text), tagStart)
  {
    if tagStart != "" {
      PrefixOfConcat(tagStart, text + CloseTag(tagStart));
      assert RenderLeaf(tagStart, text) == tagStart + (text + CloseTag(tagStart));
    }
  }

  /** Two prefixes that differ at one position cannot both start `r`. */
  lemma DiffersAt(r: string, p: string, q: string, k: nat)
    requires StartsWith(r, p) && k < |p| && k < |q| && p[k] != q[k]
    ensures !StartsWith(r, q)
  {
    assert r[..|p|][k] == r[k];
  }

  lemma StartsWithTrans(a: string, b: string, c: string)
    requires StartsWith(a, b) && StartsWith(b, c)
    ensures StartsWith(a, c)
  {
    assert a[..|c|] == a[..|b|][..|c|];
  }

  /** A group opens with its tag, a newline, then its first child behind a tab. */
  lemma GroupOpens(tagStart: string, kids: seq<string>)
    ensures StartsWith(RenderGroup(tagStart, kids), tagStart + "\n")
    ensures |kids| >= 1 ==> StartsWith(RenderGroup(tagStart, kids), tagStart + "\n" + "\t" + kids[0])
  {
    var inner := Join(Tabbed(kids), "\n");
    var rest := "\n" + CloseTag(tagStart);
    GroupShape(tagStart, kids);
    StartsWithIn(tagStart + "\n", inner, [], rest);
    if |kids| >= 1 {
      JoinHead(Tabbed(kids), "\n");
      StartsWithIn(tagStart + "\n", inner, "\t" + kids[0], rest);
    }
  }

  lemma GroupShape(tagStart: string, kids: seq<string>)
    ensures RenderGroup(tagStart, kids) == tagStart + "\n" + Join(Tabbed(kids), "\n") + ("\n" + CloseTag(tagStart))
  {
    Join3(tagStart, Join(Tabbed(kids), "\n"), CloseTag(tagStart), "\n");
  }

  lemma CloseTagOneLine(tagStart: string)
    requires '\n' !in tagStart
    ensures '\n' !in CloseTag(tagStart)
  {
    var w := FirstWord(tagStart);
    assert forall i :: 0 <= i < |w| ==> w[i] == tagStart[i];
  }

  /** The lines of a rendered group: the tag, the indented children (or one empty line), the closing tag. */
  function GroupPieces(tagStart: string, kids: seq<string>): seq<string>
  {
    [tagStart] + (if kids == [] then [""] else Tabbed(kids)) + [CloseTag(tagStart)]
  }

  lemma GroupAsJoin(tagStart: string, kids: seq<string>)
    ensures RenderGroup(tagStart, kids) == Join(GroupPieces(tagStart, kids), "\n")
  {
    var close := CloseTag(tagStart);
    var t := Tabbed(kids);
    var inner := if kids == [] then [""] else t;
    assert Join(t, "\n") == Join(inner, "\n");
    var ws := [tagStart] + inner + [close];
    assert ws == GroupPieces(tagStart, kids);
    assert ws[1..] == inner + [close];
    JoinSnoc(inner, "\n", close);
    assert Join(ws, "\n") == tagStart + "\n" + (Join(inner, "\n") + "\n" + close);
    Join3(tagStart, Join(t, "\n"), close, "\n");
  }

  lemma GroupPiecesOneLine(tagStart: string, kids: seq<string>)
    requires '\n' !in tagStart && forall i :: 0 <= i < |kids| ==> '\n' !in kids[i]
    ensures forall i :: 0 <= i < |GroupPieces(tagStart, kids)| ==> '\n' !in GroupPieces(tagStart, kids)[i]
  {
    CloseTagOneLine(tagStart);
    var ws := GroupPieces(tagStart, kids);
    forall i | 0 <= i < |ws|
      ensures '\n' !in ws[i]
    {
      if 0 < i < |ws| - 1 && kids != [] {
        assert ws[i] == "\t" + kids[i - 1];
      }
    }
  }

  /**
   * The lines of a group whose opening tag and children are one line each:
   * the opening tag, each child indented by a tab, then the closing tag (an
   * empty group has one empty line in between).
   */
  lemma GroupLines(tagStart: string, kids: seq<string>)
    requires '\n' !in tagStart && forall i :: 0 <= i < |kids| ==> '\n' !in kids[i]
    ensures SplitOn(RenderGroup(tagStart, kids), '\n') ==
      [tagStart] + (if kids == [] then [""] else Tabbed(kids)) + [CloseTag(tagStart)]
  {
    GroupAsJoin(tagStart, kids);
    GroupPiecesOneLine(tagStart, kids);
    SplitJoin(GroupPieces(tagStart, kids), '\n');
  }

  // ---------------------------------------------------------- bar elements

  /** The `kind` argument of `Barline`. */
  function BarlineClass(k: BarlineKind): string
  {
    match k
    case Plain => ""
    case DoubleStart => "double-start"
    case DoubleEnd => "double-end"
  }

  /** The class of the `div` each bar element class opens. */
  function ElementClass(e: BarElement): string
  {
    match e
    case Barline(k) => "barline " + BarlineClass(k)
    case Repeat => "repeat"
    case Time(_, _) => "time"
    case Pause(_) => "pause"
    case Pentagram => "pentagram"
    case Chord(_) => "chord"
    case EmptyChord => "chord"
    case SameMeasure => "chord same-bar"
  }

  /** The `tag_start` of each bar element class. */
  function ElementTag(e: BarElement): string
  {
    Tag("div", ElementClass(e))
  }

  // Long literals are written in short pieces, which keeps proofs about them cheap.
  const PentagramLine: string := "<div class=" + "\"pentagram-" + "line\"></div>"

  /** The `html_text` of each bar element class. */
  function ElementText(e: BarElement): string
  {
    match e
    case Barline(_) => ""
    case Repeat => ":"
    case Time(d, v) => "<span>" + d + "</span><span>" + v + "</span>"
    case Pause(n) =>
      "<div class=" + "\"pause-line\">" + "</div>" + "<div class=" + "\"pause-number\"> " + n
      + " </div>" + "<div class=" + "\"pause-line\">" + "</div> "
    case Pentagram => PentagramLine + PentagramLine + PentagramLine + PentagramLine + PentagramLine
    case Chord(t) => t
    case EmptyChord => ""
    case SameMeasure => "%"
  }

  function RenderElement(e: BarElement): string
  {
    RenderLeaf(ElementTag(e), ElementText(e))
  }

  /** Every bar element is a `div` of its class, closed by `</div>`. */
  lemma ElementIsDiv(e: BarElement)
    ensures RenderElement(e) == Tag("div", ElementClass(e)) + ElementText(e) + "</div>"
  {
    TagLeaf("div", ElementClass(e), ElementText(e));
  }

  function RenderElements(es: seq<BarElement>): (r: seq<string>)
    ensures |r| == |es| && forall i :: 0 <= i < |es| ==> r[i] == RenderElement(es[i])
  {
    seq(|es|, i requires 0 <= i < |es| => RenderElement(es[i]))
  }

  const ChordsTag: string := Tag("div", "chords")

  function RenderNode(n: BarNode): string
  {
    match n
    case Leaf(e) => RenderElement(e)
    case ChordBlock(ms) => RenderGroup(ChordsTag, RenderElements(ms))
  }

  /** A chord-like element whose text holds no newline. */
  predicate OneLineChord(e: BarElement)
  {
    IsChordLike(e) && (e.Chord? ==> '\n' !in e.text)
  }

  lemma ChordOneLine(e: BarElement)
    requires OneLineChord(e)
    ensures '\n' !in RenderElement(e)
  {
    ElementIsDiv(e);
    var cls := ElementClass(e);
    assert cls == "chord" || cls == "chord same-bar";
    TagOneLine("div", cls);
    assert ElementText(e) == "" || ElementText(e) == "%" || ElementText(e) == e.text;
  }

  /** The chord block renders as its tag, one tab-indented line per chord, then `</div>`. */
  lemma ChordBlockLines(ms: seq<BarElement>)
    requires |ms| >= 1 && forall i :: 0 <= i < |ms| ==> OneLineChord(ms[i])
    ensures SplitOn(RenderNode(ChordBlock(ms)), '\n') ==
      [ChordsTag] + Tabbed(RenderElements(ms)) + ["</div>"]
  {
    ChordsGroupLines(ms);
    assert RenderNode(ChordBlock(ms)) == RenderGroup(ChordsTag, RenderElements(ms));
  }

  lemma ChordsCloses()
    ensures CloseTag(ChordsTag) == "</div>"
  {
    TagCloses("div", "chords");
    assert "</" + "div" + ">" == "</div>";
  }

  lemma ChordsGroupLines(ms: seq<BarElement>)
    requires |ms| >= 1 && forall i :: 0 <= i < |ms| ==> OneLineChord(ms[i])
    ensures SplitOn(RenderGroup(ChordsTag, RenderElements(ms)), '\n') ==
      [ChordsTag] + Tabbed(RenderElements(ms)) + ["</div>"]
  {
    ChordsOneLine(ms);
    ChordsCloses();
    TagOneLine("div", "chords");
    GroupLines(ChordsTag, RenderElements(ms));
  }

  lemma ChordsOneLine(ms: seq<BarElement>)
    requires forall i :: 0 <= i < |ms| ==> OneLineChord(ms[i])
    ensures forall i :: 0 <= i < |ms| ==> '\n' !in RenderElements(ms)[i]
  {
    forall i | 0 <= i < |ms|
      ensures '\n' !in RenderElements(ms)[i]
    {
      ChordOneLine(ms[i]);
    }
  }

  function RenderNodes(ns: seq<BarNode>): (r: seq<string>)
    ensures |r| == |ns| && forall i :: 0 <= i < |ns| ==> r[i] == RenderNode(ns[i])
  {
    seq(|ns|, i requires 0 <= i < |ns| => RenderNode(ns[i]))
  }

  const BarTag: string := Tag("div", "bar")

  function RenderBar(b: Bar): string
  {
    RenderGroup(BarTag, RenderNodes(Bars.Children(b)))
  }

  /** No single element renders as a chords group: the classes differ from `chords`. */
  lemma ElementNotChords(e: BarElement)
    ensures !StartsWith(RenderElement(e), ChordsTag)
  {
    LeafStarts(ElementTag(e), ElementText(e));
    var k := ElementTagDiffers(e);
    DiffersAt(RenderElement(e), ElementTag(e), ChordsTag, k);
  }

  /** Each element's tag differs from the chords tag inside the class. */
  lemma ElementTagDiffers(e: BarElement) returns (k: nat)
    ensures k < |ElementTag(e)| && k < |ChordsTag| && ElementTag(e)[k] != ChordsTag[k]
  {
    var cls := ElementClass(e);
    var j := if e.Chord? || e.EmptyChord? || e.SameMeasure? then 5 else 0;
    TagClassAt("div", cls, j);
    TagClassAt("div", "chords", j);
    k := 12 + j;
  }

  /** Only the chord block renders as a chords group. */
  lemma NodeOpensChords(n: BarNode)
    ensures StartsWith(RenderNode(n), ChordsTag) <==> n.ChordBlock?
  {
    match n
    case Leaf(e) => ElementNotChords(e);
    case ChordBlock(ms) =>
      GroupOpens(ChordsTag, RenderElements(ms));
      StartsWithTrans(RenderNode(n), ChordsTag + "\n", ChordsTag);
  }

  lemma ChildIsBlock(b: Bar, i: nat)
    requires i < |Bars.Children(b)|
    ensures Bars.Children(b)[i].ChordBlock? <==> b.Grouped? && i == |b.before|
  {
    var cs := Bars.Children(b);
    if b.Grouped? {
      var bf := Bars.Leaves(b.before);
      assert cs == bf + [ChordBlock(b.chords)] + Bars.Leaves(b.after);
      if i < |bf| {
        assert cs[i] == bf[i];
      } else if i > |bf| {
        assert cs[i] == Bars.Leaves(b.after)[i - |bf| - 1];
      }
    }
  }

  /**
   * In the rendered bar, the only child that opens a chords group is the one
   * chord block, at the place of the first chord-like element.
   */
  lemma BarHoldsOneChordsGroup(b: Bar, i: nat)
    requires i < |Bars.Children(b)|
    ensures StartsWith(RenderNodes(Bars.Children(b))[i], ChordsTag) <==>
      b.Grouped? && i == |b.before|
  {
    NodeOpensChords(Bars.Children(b)[i]);
    ChildIsBlock(b, i);
  }

  // --------------------------------------------------------- bar blocks

  /** `Case`: the class `case case-start` when the text starts with `1` or `2` (`[12]\.*`). */
  function CaseTag(text: string): string
  {
    if |text| > 0 && (text[0] == '1' || text[0] == '2') then Tag("div", "case case-start")
    else Tag("div", "case")
  }

  function RenderCase(text: string): string
  {
    RenderLeaf(CaseTag(text), text)
  }

  /** A case label is marked as a start exactly when it begins with `1` or `2`. */
  lemma CaseStart(text: string)
    ensures StartsWith(RenderCase(text), Tag("div", "case case-start")) <==>
      |text| > 0 && (text[0] == '1' || text[0] == '2')
  {
    LeafStarts(CaseTag(text), text);
    if !(|text| > 0 && (text[0] == '1' || text[0] == '2')) {
      NotCaseStart(RenderLeaf(Tag("div", "case"), text));
    }
  }

  /** What starts with the plain case tag does not start with the case-start tag. */
  lemma NotCaseStart(r: string)
    requires StartsWith(r, Tag("div", "case"))
    ensures !StartsWith(r, Tag("div", "case case-start"))
  {
    TagClassAt("div", "case", 4);
    TagClassAt("div", "case case-start", 4);
    DiffersAt(r, Tag("div", "case"), Tag("div", "case case-start"), 16);
  }

  /** `BarBlock.size` as the class suffix. */
  function SizeClass(s: Size): string
  {
    match s
    case Normal => ""
    case Short => "short"
    case Long => "long"
  }

  function MeasureTag(m: Measure): string
  {
    Tag("div", "bar-block " + SizeClass(m.size))
  }

  /** `BarBlock.children` is `[case, bar]`; a `None` case is skipped. */
  function MeasureKids(m: Measure): seq<string>
  {
    (if m.caseLabel.Some? then [RenderCase(m.caseLabel.value)] else []) + [RenderBar(m.bar)]
  }

  function RenderMeasure(m: Measure): string
  {
    RenderGroup(MeasureTag(m), MeasureKids(m))
  }

  /**
   * A bar block opens with its size class, then the case on the first
   * indented line when there is one, and the bar there otherwise.
   */
  lemma MeasureOpens(m: Measure)
    ensures StartsWith(RenderMeasure(m), MeasureTag(m) + "\n\t" +
      (if m.caseLabel.Some? then RenderCase(m.caseLabel.value) else BarTag))
  {
    var kids := MeasureKids(m);
    if m.caseLabel.Some? {
      PrefixOfConcat(kids[0], []);
      NestedOpens(MeasureTag(m), kids, kids[0]);
    } else {
      GroupOpens(BarTag, RenderNodes(Bars.Children(m.bar)));
      StartsWithTrans(kids[0], BarTag + "\n", BarTag);
      NestedOpens(MeasureTag(m), kids, BarTag);
    }
  }

  /** A group whose first child starts with `u` starts with its tag, a newline, a tab and `u`. */
  lemma NestedOpens(t: string, kids: seq<string>, u: string)
    requires |kids| >= 1 && StartsWith(kids[0], u)
    ensures StartsWith(RenderGroup(t, kids), t + "\n\t" + u)
  {
    GroupOpens(t, kids);
    var pre := t + "\n\t";
    assert t + "\n" + "\t" + kids[0] == pre + kids[0];
    assert (pre + kids[0])[..|pre + u|] == pre + u;
    StartsWithTrans(RenderGroup(t, kids), pre + kids[0], pre + u);
  }

  // ----------------------------------------------------------- sections

  /** The element each section item class opens: a paragraph, or a span for comments. */
  function ItemElement(it: SectionItem): string
  {
    if it.Comment? then "span" else "p"
  }

  function ItemClass(it: SectionItem): string
  {
    match it
    case Name(_) => "name"
    case Repetitions(_) => "repeats"
    case Arrow => "debug arrow"
    case Comment(_) => "note"
  }

  function ItemTag(it: SectionItem): string
  {
    Tag(ItemElement(it), ItemClass(it))
  }

  function ItemText(it: SectionItem): string
  {
    match it
    case Name(t) => t
    case Repetitions(n) => "x" + n
    case Arrow => "&rarr;"
    case Comment(t) => t
  }

  function RenderItem(it: SectionItem): string
  {
    RenderLeaf(ItemTag(it), ItemText(it))
  }

  /** Names, repeat counts and arrows are paragraphs; comments are spans. */
  lemma ItemCloses(it: SectionItem)
    ensures RenderItem(it) == ItemTag(it) + ItemText(it) + (if it.Comment? then "</span>" else "</p>")
  {
    TagLeaf(ItemElement(it), ItemClass(it), ItemText(it));
  }

  function RenderItems(its: seq<SectionItem>): (r: seq<string>)
    ensures |r| == |its| && forall i :: 0 <= i < |its| ==> r[i] == RenderItem(its[i])
  {
    seq(|its|, i requires 0 <= i < |its| => RenderItem(its[i]))
  }

  function RenderMeasures(ms: seq<Measure>): (r: seq<string>)
    ensures |r| == |ms| && forall i :: 0 <= i < |ms| ==> r[i] == RenderMeasure(ms[i])
  {
    seq(|ms|, i requires 0 <= i < |ms| => RenderMeasure(ms[i]))
  }

  // ---------------------------------------------------------- tree nodes

  /** `Vspace(kind)`: `vspace-<kind>`, or plain `vspace` for an empty kind. */
  function VspaceTag(kind: string): string
  {
    if kind != "" then Tag("div", "vspace-" + kind) else Tag("div", "vspace")
  }

  const SectionTag: string := Tag("section", "tune-section")
  const RowTag: string := Tag("div", "grid-row")
  const ErrorTag: string := Tag("span", "error")

  function RenderBlock(b: Block): string
  {
    match b
    case Section(items) => RenderGroup(SectionTag, RenderItems(items))
    case GridRow(ms) => RenderGroup(RowTag, RenderMeasures(ms))
    case Vspace(kind) => RenderLeaf(VspaceTag(kind), "")
    case RawTag(text) => RenderLeaf("", text)
    case Unrecognized(text) => RenderLeaf(ErrorTag, "SyntaxError: \"" + text + "\"")
  }

  /** A raw-tag line has no `tag_start`, so it renders as its own text, unchanged. */
  lemma RawTagVerbatim(text: string)
    ensures RenderBlock(RawTag(text)) == text
  {
  }

  /** An unrecognized line renders as an error span quoting the line. */
  lemma UnrecognizedIsError(text: string)
    ensures RenderBlock(Unrecognized(text)) == ErrorTag + "SyntaxError: \"" + text + "\"" + "</span>"
  {
    TagLeaf("span", "error", "SyntaxError: \"" + text + "\"");
  }

  lemma SectionCloses()
    ensures CloseTag(SectionTag) == "</section>"
  {
    TagCloses("section", "tune-section");
    assert "</" + "section" + ">" == "</section>";
  }

  /** A section whose items fit on one line each renders one tab-indented line per item. */
  lemma SectionLines(items: seq<SectionItem>)
    requires |items| >= 1
    requires forall i :: 0 <= i < |items| ==> '\n' !in ItemText(items[i])
    ensures SplitOn(RenderBlock(Section(items)), '\n') ==
      [SectionTag] + Tabbed(RenderItems(items)) + ["</section>"]
  {
    SectionGroupLines(items);
    assert RenderBlock(Section(items)) == RenderGroup(SectionTag, RenderItems(items));
  }

  lemma SectionGroupLines(items: seq<SectionItem>)
    requires |items| >= 1
    requires forall i :: 0 <= i < |items| ==> '\n' !in ItemText(items[i])
    ensures SplitOn(RenderGroup(SectionTag, RenderItems(items)), '\n') ==
      [SectionTag] + Tabbed(RenderItems(items)) + ["</section>"]
  {
    ItemsOneLine(items);
    SectionCloses();
    TagOneLine("section", "tune-section");
    GroupLines(SectionTag, RenderItems(items));
  }

  lemma ItemsOneLine(items: seq<SectionItem>)
    requires forall i :: 0 <= i < |items| ==> '\n' !in ItemText(items[i])
    ensures forall i :: 0 <= i < |items| ==> '\n' !in RenderItems(items)[i]
  {
    forall i | 0 <= i < |items|
      ensures '\n' !in RenderItems(items)[i]
    {
      ItemOneLine(items[i]);
    }
  }

  lemma ItemOneLine(it: SectionItem)
    requires '\n' !in ItemText(it)
    ensures '\n' !in RenderItem(it)
  {
    ItemCloses(it);
    var cls := ItemClass(it);
    var el := ItemElement(it);
    assert el == "p" || el == "span";
    assert cls == "name" || cls == "repeats" || cls == "debug arrow" || cls == "note";
    TagOneLine(el, cls);
  }

  /** A vspace closes its `div` whatever its kind. */
  lemma VspaceCloses(kind: string)
    ensures RenderBlock(Vspace(kind)) == VspaceTag(kind) + "</div>"
  {
    assert RenderBlock(Vspace(kind)) == RenderLeaf(VspaceTag(kind), "");
    VspaceLeaf(kind);
  }

  lemma VspaceLeaf(kind: string)
    ensures RenderLeaf(VspaceTag(kind), "") == VspaceTag(kind) + "</div>"
  {
    var cls := if kind != "" then "vspace-" + kind else "vspace";
    assert VspaceTag(kind) == Tag("div", cls);
    DivCloses(cls);
  }

  lemma DivCloses(cls: string)
    ensures CloseTag(Tag("div", cls)) == "</div>"
  {
    TagCloses("div", cls);
    assert "</" + "div" + ">" == "</div>";
  }

  function RenderBlocks(bs: seq<Block>): (r: seq<string>)
    ensures |r| == |bs|
  {
    if bs == [] then [] else RenderBlocks(bs[..|bs| - 1]) + [RenderBlock(bs[|bs| - 1])]
  }

  /** Each top-level node contributes exactly its own HTML, at its own position. */
  lemma {:induction false} RenderBlocksAt(bs: seq<Block>)
    ensures forall i :: 0 <= i < |bs| ==> RenderBlocks(bs)[i] == RenderBlock(bs[i])
  {
    if bs != [] {
      var init := bs[..|bs| - 1];
      RenderBlocksAt(init);
      var r := RenderBlocks(bs);
      assert r == RenderBlocks(init) + [RenderBlock(bs[|bs| - 1])];
      forall i | 0 <= i < |bs|
        ensures r[i] == RenderBlock(bs[i])
      {
        if i < |init| {
          assert bs[i] == init[i];
        }
      }
    }
  }

  // ------------------------------------------------------------ document

  /** Python truthiness of an `info` value: set and not empty. */
  predicate Truthy(o: Option<string>)
  {
    o.Some? && o.value != ""
  }

  /** `Grid.html[key].format(t=...)`. */
  function InfoLine(key: Lines.Key, t: string): string
  {
    match key
    case TitleKey => "<h1>" + t + "</h1>"
    case SubtitleKey => "<h2>" + t + "</h2>"
    case AuthorKey => "<p class=\"author\">" + t + "</p>"
    case CopyrightKey => "<div class=" + "\"footer\">" + "\U{00C2}\U{00AE}" + t + "</div>"
  }

  /** The keys of `Grid.info`, in the dictionary's order. */
  const InfoKeys: seq<Lines.Key> :=
    [Lines.TitleKey, Lines.SubtitleKey, Lines.AuthorKey, Lines.CopyrightKey]

  /** What the header loop of `Grid.to_html` emits for `keys`. */
  function HeaderOf(info: Info, keys: seq<Lines.Key>): seq<string>
  {
    if keys == [] then []
    else
      var k := keys[|keys| - 1];
      var v := Lines.Field(info, k);
      HeaderOf(info, keys[..|keys| - 1]) +
        (if k != Lines.CopyrightKey && Truthy(v) then [InfoLine(k, v.value)] else [])
  }

  function Footer(info: Info): seq<string>
  {
    if Truthy(info.copyright) then [InfoLine(Lines.CopyrightKey, info.copyright.value)] else []
  }

  function Head(css: string): string
  {
    "<!DOCTYPE html>\n" + "<html lang=\"en\" " + "dir=\"ltr\">\n" + "<head>\n<meta " + "charset=\"utf-8\">"
    + "<style>" + css + "</style></head>" + "<body><div " + "class=\"page\">"
  }

  /** The live-reload script, present only when a server address is given. */
  function Script(js: string, addr: Option<string>): string
  {
    if addr.Some? then
      "<script type = " + "\"text/javascript\"" + " >\nvar " + "server_address" + " = \"" + addr.value + "\"\n"
      + js + "\n</script>\n"
    else ""
  }

  function Tail(js: string, addr: Option<string>): string
  {
    "</div>\n" + Script(js, addr) + "\n</body>\n</html>"
  }

  const HeaderOpen: string := "<div class=" + "\"header\">"

  /** The page head and the header `div`, before any node of the tree. */
  function Prelude(info: Info, css: string): (r: seq<string>)
    ensures |r| >= 3 && r[0] == Head(css) && r[1] == HeaderOpen && r[|r| - 1] == "</div>"
  {
    [Head(css), HeaderOpen] + HeaderOf(info, InfoKeys) + ["</div>"]
  }

  /** `out_html` before the copyright footer: head, header, and one part per tree node. */
  function Front(d: Document, css: string): (r: seq<string>)
    ensures |r| >= 3 && r[0] == Head(css) && r[1] == HeaderOpen
  {
    var p := Prelude(d.info, css);
    assert (p + RenderBlocks(d.tree))[..2] == p[..2];
    p + RenderBlocks(d.tree)
  }

  /** The list `out_html` that `Grid.to_html` joins with newlines. */
  function DocumentParts(d: Document, css: string, js: string, addr: Option<string>): seq<string>
  {
    Front(d, css) + Footer(d.info) + [Tail(js, addr)]
  }

  function RenderDocument(d: Document, css: string, js: string, addr: Option<string>): string
  {
    Join(DocumentParts(d, css, js, addr), "\n")
  }

  function Shown(o: Option<string>, key: Lines.Key): seq<string>
    requires Truthy(o) ==> o.Some?
  {
    if Truthy(o) then [InfoLine(key, o.value)] else []
  }

  /** The header holds title, subtitle and author, in that order, each only when set; never the copyright. */
  lemma {:induction false} HeaderLines(info: Info)
    ensures HeaderOf(info, InfoKeys) ==
      Shown(info.title, Lines.TitleKey) + Shown(info.subtitle, Lines.SubtitleKey)
      + Shown(info.author, Lines.AuthorKey)
  {
    var k4 := InfoKeys;
    var k3 := [Lines.TitleKey, Lines.SubtitleKey, Lines.AuthorKey];
    var k2 := [Lines.TitleKey, Lines.SubtitleKey];
    var k1 := [Lines.TitleKey];
    assert k4[..3] == k3 && k3[..2] == k2 && k2[..1] == k1 && k1[..0] == [];
    assert HeaderOf(info, k1) == Shown(info.title, Lines.TitleKey);
    assert HeaderOf(info, k2) == HeaderOf(info, k1) + Shown(info.subtitle, Lines.SubtitleKey);
    assert HeaderOf(info, k3) == HeaderOf(info, k2) + Shown(info.author, Lines.AuthorKey);
    assert HeaderOf(info, k4) == HeaderOf(info, k3);
  }

  /** A title line appears in the header exactly when that title is set and not empty. */
  lemma TitleShown(info: Info, t: string)
    ensures InfoLine(Lines.TitleKey, t) in HeaderOf(info, InfoKeys) <==> info.title == Some(t) && t != ""
  {
    HeaderLines(info);
    var h1 := InfoLine(Lines.TitleKey, t);
    if h1 in HeaderOf(info, InfoKeys) {
      if Truthy(info.subtitle) {
        assert InfoLine(Lines.SubtitleKey, info.subtitle.value)[2] == '2' != h1[2];
      }
      if Truthy(info.author) {
        assert InfoLine(Lines.AuthorKey, info.author.value)[1] == 'p' != h1[1];
      }
      assert Truthy(info.title) && h1 == InfoLine(Lines.TitleKey, info.title.value);
      var v := info.title.value;
      assert h1[4..|h1| - 5] == t;
      assert InfoLine(Lines.TitleKey, v)[4..|h1| - 5] == v;
    }
  }

  /** A newline-joined list starts with its first two entries. */
  lemma JoinStarts(ws: seq<string>)
    requires |ws| >= 2
    ensures StartsWith(Join(ws, "\n"), ws[0] + "\n" + ws[1])
  {
    var rest := ws[1..];
    assert Join(ws, "\n") == ws[0] + "\n" + Join(rest, "\n") + [];
    JoinHead(rest, "\n");
    StartsWithIn(ws[0] + "\n", Join(rest, "\n"), ws[1], []);
  }

  /** The page starts with the head and the opening header. */
  lemma DocumentStarts(d: Document, css: string, js: string, addr: Option<string>)
    ensures StartsWith(RenderDocument(d, css, js, addr), Head(css) + "\n" + HeaderOpen)
  {
    var ps := DocumentParts(d, css, js, addr);
    assert ps[0] == Head(css) && ps[1] == HeaderOpen;
    JoinStarts(ps);
  }

  lemma EndsWithConcat(p: string, q: string)
    ensures EndsWith(p + q, q)
  {
    assert (p + q)[|p + q| - |q|..] == q;
  }

  lemma EndsWithTail(j: string, p: string, q: string, r: string, u: string)
    ensures EndsWith(j + p + q + r + u, p + q + r + u)
    ensures EndsWith(j + p + q + r + u, r + u)
  {
    assert j + p + q + r + u == j + (p + q + r + u);
    EndsWithConcat(j, p + q + r + u);
    assert j + p + q + r + u == (j + p + q) + (r + u);
    EndsWithConcat(j + p + q, r + u);
  }

  /** A newline-joined list of two or more entries ends with a newline and its last entry. */
  lemma JoinEnds(x: seq<string>, tail: string)
    requires |x| >= 1
    ensures EndsWith(Join(x + [tail], "\n"), "\n" + tail)
  {
    JoinSnoc(x, "\n", tail);
    EndsWith3(Join(x, "\n"), "\n", tail);
  }

  lemma EndsWith3(p: string, q: string, r: string)
    ensures EndsWith(p + q + r, q + r)
  {
    assert (p + q + r)[|p + q + r| - |q + r|..] == q + r;
  }

  /** ... and with a newline, the entry before the last, a newline and the last. */
  lemma JoinEnds2(x: seq<string>, f: string, tail: string)
    requires |x| >= 1
    ensures EndsWith(Join(x + [f] + [tail], "\n"), "\n" + f + "\n" + tail)
  {
    JoinSnoc(x, "\n", f);
    JoinSnoc(x + [f], "\n", tail);
    EndsWithTail(Join(x, "\n"), "\n", f, "\n", tail);
  }

  /**
   * The page ends with the tail, and with the copyright footer just before
   * the tail when the copyright is set.
   */
  lemma DocumentEnds(d: Document, css: string, js: string, addr: Option<string>)
    ensures EndsWith(RenderDocument(d, css, js, addr), "\n" + Tail(js, addr))
    ensures Truthy(d.info.copyright) ==> EndsWith(RenderDocument(d, css, js, addr),
      "\n" + InfoLine(Lines.CopyrightKey, d.info.copyright.value) + "\n" + Tail(js, addr))
  {
    var x, tail := Front(d, css), Tail(js, addr);
    if Truthy(d.info.copyright) {
      var f := InfoLine(Lines.CopyrightKey, d.info.copyright.value);
      assert DocumentParts(d, css, js, addr) == x + [f] + [tail];
      JoinEnds2(x, f, tail);
      EndsWithTail(Join(x, "\n"), "\n", f, "\n", tail);
      JoinEnds(x + [f], tail);
    } else {
      assert DocumentParts(d, css, js, addr) == x + [tail];
      JoinEnds(x, tail);
    }
  }

  /** The header loop of `Grid.to_html`: one line per truthy field, copyright excepted. */
  method RenderHeader(info: Info) returns (out: seq<string>)
    ensures out == HeaderOf(info, InfoKeys)
  {
    out := [];
    for i := 0 to |InfoKeys|
      invariant out == HeaderOf(info, InfoKeys[..i])
    {
      var key := InfoKeys[i];
      var v := Lines.Field(info, key);
      assert InfoKeys[..i + 1][..i] == InfoKeys[..i];
      if key != Lines.CopyrightKey && Truthy(v) {
        out := out + [InfoLine(key, v.value)];
      }
    }
    assert InfoKeys[..|InfoKeys|] == InfoKeys;
  }

  /** The tree loop of `Grid.to_html`: each top-level node's HTML, in order. */
  method RenderTree(tree: seq<Block>) returns (out: seq<string>)
    ensures out == RenderBlocks(tree)
    ensures |out| == |tree| && forall i :: 0 <= i < |tree| ==> out[i] == RenderBlock(tree[i])
  {
    out := [];
    for i := 0 to |tree|
      invariant out == RenderBlocks(tree[..i])
    {
      assert tree[..i + 1][..i] == tree[..i];
      out := out + [RenderBlock(tree[i])];
    }
    assert tree[..|tree|] == tree;
    RenderBlocksAt(tree);
  }

  /** `Grid.to_html`, building `out_html` as the source does and joining it. */
  method ToHtml(d: Document, css: string, js: string, addr: Option<string>) returns (html: string)
    ensures html == RenderDocument(d, css, js, addr)
  {
    var header := RenderHeader(d.info);
    var body := RenderTree(d.tree);
    var out := [Head(css), HeaderOpen] + header + ["</div>"] + body;
    if Truthy(d.info.copyright) {
      out := out + [InfoLine(Lines.CopyrightKey, d.info.copyright.value)];
    }
    assert out == Front(d, css) + Footer(d.info);
    out := out + [Tail(js, addr)];
    html := Join(out, "\n");
  }
}
