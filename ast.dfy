/**
 * The abstract syntax tree of a music grid document: the `Grid` root with
 * its metadata, the top-level blocks (`Section`, `GridRow`, `Vspace`, a raw
 * tag `Element`, `NotRecognized`), the bar blocks of a grid row and the bar
 * elements inside them.
 */
module Ast {
  import opened Wrappers

  /** `BarBlock.size`: `''`, `"short"` or `"long"`. */
  datatype Size = Normal | Short | Long

  /** The kind argument of `Barline`: `''`, `"double-start"`, `"double-end"`. */
  datatype BarlineKind = Plain | DoubleStart | DoubleEnd

  /** The leaves a `Bar` holds. The last three are the `Chord` subclasses. */
  datatype BarElement =
    | Barline(kind: BarlineKind)
    | Repeat
    | Time(divisions: string, value: string)
    | Pause(count: string)
    | Pentagram
    | Chord(text: string)
    | EmptyChord
    | SameMeasure

  /** `isinstance(child, Chord)`. */
  predicate IsChordLike(e: BarElement)
  {
    e.Chord? || e.EmptyChord? || e.SameMeasure?
  }

  /**
   * A `Bar`. While `chordBlock` is `None` the bar is `Open` and `children`
   * holds only non-chord elements; once the first chord-like element arrives
   * the bar is `Grouped`: the one `ChordBlock` sits in `children` after
   * `before` and before `after`, and holds `chords`.
   */
  datatype Bar =
    | Open(children: seq<BarElement>)
    | Grouped(before: seq<BarElement>, chords: seq<BarElement>, after: seq<BarElement>)

  /** An entry of `Bar.children`: a leaf element or the `ChordBlock`. */
  datatype BarNode = Leaf(element: BarElement) | ChordBlock(members: seq<BarElement>)

  /** A `BarBlock`: its size class, its optional `Case` text and its `Bar`. */
  datatype Measure = Measure(size: Size, caseLabel: Option<string>, bar: Bar)

  /** The children of a `Section`. */
  datatype SectionItem =
    | Name(text: string)
    | Repetitions(count: string)
    | Arrow
    | Comment(text: string)

  /** The nodes of `Grid.tree`. `RawTag` is the tag-less `Element`. */
  datatype Block =
    | Section(items: seq<SectionItem>)
    | GridRow(measures: seq<Measure>)
    | Vspace(kind: string)
    | RawTag(text: string)
    | Unrecognized(text: string)

  /** `Grid.info`. */
  datatype Info = Info(title: Option<string>, subtitle: Option<string>,
                       author: Option<string>, copyright: Option<string>)

  /** A `Grid`. */
  datatype Document = Document(info: Info, tree: seq<Block>)

  const NoInfo: Info := Info(None, None, None, None)
}
