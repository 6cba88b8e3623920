# Music grid markdown, modelled in Dafny

The `musicmd` package compiles a small line-oriented notation for chord
grids into one HTML page. This project models its compiler core, the file
`musicmarkdown/musicmd/__init__.py`. It proves properties of that model. The
model has five parts:

- **Line dispatcher** (`GridProcessor.run`), module `Lines`. It removes `//`
  comments, strips the line and skips blank lines. It then tries eight
  whole-line grammars in a fixed order: title, subtitle, author, copyright,
  vspace, section line, grid row, raw tag. The first match decides. A line
  matching none becomes `NotRecognized`. The four metadata kinds write
  `Grid.info`; every other kind appends one node to `Grid.tree`.
- **Row parser** (`GridProcessor.parse_row`), modules `Rows` and `Atoms`.
  It cuts a row into one fragment per delimiter (`|`, `[`, `]`) and merges
  the last fragment into the one before. Each fragment is then split into
  atoms: parenthesised case text is kept whole, and the rest is split on
  whitespace. Each atom is classified by the ordered, prefix-anchored rule
  chain into bar elements, a size or a case label.
- **Chord grouping** (`Bar.append`), module `Bars`. Chord-like elements
  (`Chord`, `EmptyChord`, `SameMeasure`) all go into one `ChordBlock`. The
  block is created where the first chord-like element arrives; every other
  element goes straight into `children`.
- **Section parser** (`GridProcessor.parse_section`), module `Sections`. It
  produces names, repeat counts, arrows and space-joined comment runs.
- **Renderer** (`Element.to_html`, `ElementGroup.to_html`, the `tag_start`
  each node class picks, and `Grid.to_html`), module `Render`.

The AST is in `Ast`. `Text` models the parts of Python's `str` and `re`
that the code uses:

- `strip()`, with `str.isspace()` as the whitespace set;
- `re.split(r'\s+', ...)`;
- `' '.join` and `'\n'.join`;
- `lower()`.

The source never splits on `'\n'`. `Text.SplitOn` and `Text.SplitJoin` are
there only to state and prove `Render.GroupLines`, the line structure of a
rendered group.

`Wrappers` holds `Option`.

The parts that loop in the source are methods with loops: `Lines.Run`,
`Rows.ParseMeasures` (the loop of `Rows.ParseRow`), `Rows.ParseMeasure`,
`Rows.CollectTokens`, `Sections.ParseSection`, and `Render.RenderHeader` and
`Render.RenderTree` (the two loops of `Render.ToHtml`). Each is proved equal
to a specification function that folds over a prefix of the input. The
properties are then proved about those functions. `Bar` is a value with two
shapes: `Open(children)` before the chord block exists, and
`Grouped(before, chords, after)` after. `Bars.Append` is the reducer for
`Bar.append`.

Every regular expression is written out by hand, prefix-anchored as
`re.match` is:

- `\d` is an ASCII digit.
- `.` never meets a newline: a line given to `Run` holds no newline except a
  trailing one, as `readlines()` produces it.
- The comment pattern `^(.*)(?=(//))(.*)$` is greedy, so it cuts at the
  *last* `//`.
- The case pattern `\(.*?\)` is lazy.
- `findall` uses `(?:\d/\d\s+)?[|\[\]][^|\[\]]*`.

## Model

| member | source | states |
|---|---|---|
| Text.Strip | musicmarkdown/musicmd/__init__.py:468 | `strip()` returns a contiguous slice `s[a..a+|r|]` of the line with only whitespace before and after it, and the slice neither starts nor ends with whitespace |
| Text.StripUnique | musicmarkdown/musicmd/__init__.py:468 | any non-empty slice with whitespace around it and none at its ends is exactly what `strip()` returns |
| Text.StripKeepsNonSpaces | musicmarkdown/musicmd/__init__.py:468 | stripping drops only whitespace: the non-space characters are unchanged |
| Text.SplitWS | musicmarkdown/musicmd/__init__.py:377 | `re.split(r'\s+', s)` returns at least one piece and no piece holds whitespace |
| Text.SplitKeepsNonSpaces | musicmarkdown/musicmd/__init__.py:377 | splitting on whitespace loses no non-space character, in order |
| Text.SplitEmpty | musicmarkdown/musicmd/__init__.py:434 | splitting the empty text yields the single empty atom |
| Text.SplitInterleave | musicmarkdown/musicmd/__init__.py:377 | splitting words glued by any non-empty whitespace runs (spaces, tabs, newlines, of any length) gives back exactly those words: the pieces are cut at maximal whitespace runs |
| Text.MixedGapSplits | musicmarkdown/musicmd/__init__.py:377 | `G \t C` splits into `G` and `C`: a mixed run of a space, a tab and a space counts as one separator |
| Text.SplitJoinWords | musicmarkdown/musicmd/__init__.py:377 | splitting words joined by single spaces gives back exactly those words, the round trip of `re.split(r'\s+', ...)` over `' '.join` |
| Text.SplitJoin | musicmarkdown/musicmd/__init__.py:147 | `'\n'.join` is undone by splitting on `'\n'` when no piece holds one |
| Bars.Append | musicmarkdown/musicmd/__init__.py:184-191 | a chord-like child joins the chord block, any other child joins `children`, the block never moves once made, it is made where the first chord arrives, and the one-block invariant is kept |
| Bars.AppendAllIsGrouping | musicmarkdown/musicmd/__init__.py:184-191 | appending any sequence to a fresh `Bar` gives: non-chords before the first chord, then one block holding every chord-like in order, then the remaining non-chords in order |
| Bars.AtMostOneBlock | musicmarkdown/musicmd/__init__.py:186-189 | no bar has two `ChordBlock` children |
| Bars.FirstChord | musicmarkdown/musicmd/__init__.py:186-188 | the position where the block is made is that of the first chord-like element |
| Atoms.CasePieces | musicmarkdown/musicmd/__init__.py:370-371 | `re.split` with the capturing case pattern alternates plain text with `(...)` matches: each odd piece is `(` up to its first `)`, each even piece before the last holds no `(`, and the last piece holds no `(` with a later `)` |
| Atoms.CasePiecesUnique | musicmarkdown/musicmd/__init__.py:370-371 | any alternating split that concatenates to the fragment is the one `re.split` returns: the split is the lazy, leftmost one |
| Atoms.CasePiecesCover | musicmarkdown/musicmd/__init__.py:370-371 | the pieces concatenate back to the fragment |
| Atoms.TokensKeepText | musicmarkdown/musicmd/__init__.py:372-378 | the atoms keep every non-space character of the fragment in order; each atom is whitespace-free or a case atom (`(` first, a `)` later) |
| Atoms.CaseRunToken | musicmarkdown/musicmd/__init__.py:375-379 | a `(...)` piece is appended as one atom, inner spaces kept |
| Atoms.PlainPieceTokens | musicmarkdown/musicmd/__init__.py:375-377 | a piece holding no case is stripped and split on whitespace |
| Atoms.TokensAlternate | musicmarkdown/musicmd/__init__.py:370-379 | the atoms of a fragment are its case runs kept whole, in place, with the text between them stripped and split on whitespace |
| Atoms.PauseMatch | musicmarkdown/musicmd/__init__.py:386 | a match is a dash, a non-empty digit run and a dash at the start of the atom |
| Atoms.PauseMatchDigits | musicmarkdown/musicmd/__init__.py:386 | an atom starting with `-`, digits and `-` matches, and the pause is exactly those digits |
| Atoms.BarlineMatch | musicmarkdown/musicmd/__init__.py:391 | an atom matches exactly when it starts with a delimiter or with `:` and a delimiter; the leading `:`, the delimiter's kind and a following `:` are read from those positions |
| Atoms.SizeMatch | musicmarkdown/musicmd/__init__.py:389 | an atom matches exactly when it starts `.l`, `.s`, `.il` or `.is`; the group is the text after the dot, two letters whenever an `i` is there |
| Atoms.Classify | musicmarkdown/musicmd/__init__.py:384-428 | one outcome per rule of the chain: `:` a repeat; a barline with its repeats; a time; a case text; a pause, which beats the empty chord, setting short; `==` a pentagram and an empty chord; `-` an empty chord; `%`; `.l` long and `.s` short; `.il`/`.is` exactly the atoms that do nothing; and an atom no rule matches, exactly those, a chord of the whole atom |
| Atoms.DelimAtomIsBarlineOnly | musicmarkdown/musicmd/__init__.py:391-406 | an atom starting with a delimiter gives a barline (and a repeat for a following `:`) and nothing else |
| Atoms.SizeAtoms | musicmarkdown/musicmd/__init__.py:421-425 | `.l` gives long, `.s` short, and `.L` is a chord |
| Rows.GridRowFragments | musicmarkdown/musicmd/__init__.py:365-366 | a line the grid-row grammar accepts has as many fragments as delimiters, at least two, and the last fragment is the lone closing delimiter |
| Rows.FindAllCovers | musicmarkdown/musicmd/__init__.py:365 | the fragments `findall` yields, concatenated in order, are exactly the row from its first match on: nothing is dropped, repeated or reordered |
| Rows.FindAllPieces | musicmarkdown/musicmd/__init__.py:365 | every fragment starts with a delimiter and holds no other; only the first may instead start with a `d/d` time and spaces before its delimiter |
| Rows.FindAllCount | musicmarkdown/musicmd/__init__.py:365 | `findall` yields exactly one fragment per delimiter character |
| Rows.Merge | musicmarkdown/musicmd/__init__.py:366-367 | the merge keeps every fragment but the last two and joins those two into one |
| Rows.ParseRow | musicmarkdown/musicmd/__init__.py:364-430 | the row has one bar block fewer than it has fragments, each block being the measure of its merged fragment |
| Rows.ParseMeasure | musicmarkdown/musicmd/__init__.py:371-429 | the loop over atoms builds the measure the atom fold defines |
| Rows.CollectTokens | musicmarkdown/musicmd/__init__.py:371-378 | the token loop yields the atoms of the fragment |
| Rows.ParseMeasures | musicmarkdown/musicmd/__init__.py:369-430 | the loop over merged fragments builds the bar-block list the fragment fold defines, one per fragment, in order |
| Rows.ApplyAtom | musicmarkdown/musicmd/__init__.py:392-428 | one non-empty atom appends what it emits to the bar, then sets the size and the case it carries, leaving the rest of the block unchanged |
| Rows.AppendAll | musicmarkdown/musicmd/__init__.py:393-426 | the `bb.bar.append` calls of one atom are the appends of its elements, in order |
| Rows.BarOfMeasure | musicmarkdown/musicmd/__init__.py:384-428 | a measure's bar is the chord grouping of everything its atoms emit, and holds at most one chord block |
| Rows.SizeIsLastWriter | musicmarkdown/musicmd/__init__.py:411-425 | the size is the one written by the last pause or size atom |
| Rows.SizeDefault | musicmarkdown/musicmd/__init__.py:162 | with no such atom the size stays normal (`''`) |
| Rows.CaseIsLast | musicmarkdown/musicmd/__init__.py:409-410 | the case label is the inner text of the last case atom |
| Rows.CaseDefault | musicmarkdown/musicmd/__init__.py:164 | with no case atom the block has no case |
| Sections.NameMatch | musicmarkdown/musicmd/__init__.py:358 | a match gives `[name]` as a prefix with no `]` in the name and a non-empty digit count; any atom starting `[` with a later `]` matches |
| Sections.NameMatchRepeat | musicmarkdown/musicmd/__init__.py:358 | `[name]`, optional spaces, `x` and a digit run give that name and the whole digit run as the repeat count |
| Sections.NameMatchNoRepeat | musicmarkdown/musicmd/__init__.py:358 | `[name]` and spaces not followed by `x` and a digit give that name and no repeat count |
| Sections.ParseSection | musicmarkdown/musicmd/__init__.py:432-456 | the loop builds the children the atom fold defines |
| Sections.SectionWellFormed | musicmarkdown/musicmd/__init__.py:440-455 | no two comments are adjacent and every repeat count follows a name |
| Sections.EmptySection | musicmarkdown/musicmd/__init__.py:434-455 | empty text yields exactly one empty comment |
| Sections.SectionIsRuns | musicmarkdown/musicmd/__init__.py:432-455 | the children are, in order, the items of each name or arrow atom, with each maximal run of other atoms between them turned into one comment holding those atoms joined by a space (an empty run gives no comment) |
| Sections.CommentJoinsRun | musicmarkdown/musicmd/__init__.py:434-455 | the section text `intro riff [Verse]` gives the comment `intro riff` followed by the name `Verse` |
| Sections.SpacedRepeatIsComment | musicmarkdown/musicmd/__init__.py:434-455 | the section text `[Verse] x2` gives the name `Verse` followed by the comment `x2`, not a repeat count |
| Sections.AdjacentRepeatCounts | musicmarkdown/musicmd/__init__.py:434-448 | the section text `[Verse]x2` gives the name `Verse` followed by the repeat count `2` |
| Lines.StripComment | musicmarkdown/musicmd/__init__.py:464-466 | the result is a prefix of the line, cut at the last `//` when there is one, uncut otherwise |
| Lines.ClassifyPayload | musicmarkdown/musicmd/__init__.py:481-493 | the stored title, subtitle, author and copyright are the stripped text after `#`, `##`, `author:` and `copyright:`; the vspace kind is the lower-cased stripped group; the section text is the stripped text after the leading `-` |
| Lines.TitleValue | musicmarkdown/musicmd/__init__.py:481-482 | `# My Tune` stores the title `My Tune` |
| Lines.AuthorValue | musicmarkdown/musicmd/__init__.py:485-486 | `author: Bo` stores the author `Bo` |
| Lines.SectionValue | musicmarkdown/musicmd/__init__.py:492-493 | the section line `- [A] x` carries the text `[A] x` |
| Lines.ClassifyLine | musicmarkdown/musicmd/__init__.py:472-504 | each kind is chosen exactly when its grammar matches and no earlier one does; row, tag and unrecognized lines keep the whole line |
| Lines.Dispatch | musicmarkdown/musicmd/__init__.py:472-504 | the `if`/`elif` chain on one stripped, non-blank line does what that line's kind does to the document |
| Lines.Step | musicmarkdown/musicmd/__init__.py:463-504 | one pass of the line loop (comment cut, strip, blank-line skip, the `if`/`elif` chain) leaves the document the line-step function gives, whose effect on the tree `Lines.StepSize` states |
| Lines.StepSize | musicmarkdown/musicmd/__init__.py:469-504 | one line grows the tree by exactly one node when it is non-blank and not metadata, and leaves its length unchanged otherwise |
| Lines.Run | musicmarkdown/musicmd/__init__.py:458-506 | the loop over lines builds the document the line fold defines |
| Lines.TreeSize | musicmarkdown/musicmd/__init__.py:469-504 | the tree has one node per non-blank, non-metadata line |
| Lines.TreeGrowsInOrder | musicmarkdown/musicmd/__init__.py:489-504 | nodes are only appended: the tree of a prefix of the lines is a prefix of the tree |
| Lines.MetadataLastWins | musicmarkdown/musicmd/__init__.py:481-488 | a metadata field holds the value of the last line that sets it |
| Lines.MetadataUnset | musicmarkdown/musicmd/__init__.py:36-41 | a field no line sets stays unset |
| Lines.MetadataNonEmpty | musicmarkdown/musicmd/__init__.py:348-351 | a metadata value is never empty |
| Render.TagCloses | musicmarkdown/musicmd/__init__.py:109 | the closing tag derived from `tag_start.split(' ')[0][1:]` names the element the tag opens |
| Render.FirstWord | musicmarkdown/musicmd/__init__.py:109 | `split(' ')[0]` is the longest space-free prefix |
| Render.TagLeaf | musicmarkdown/musicmd/__init__.py:107-112 | a leaf with a tag renders as its tag, its text verbatim and the closing tag of the tag's element |
| Render.LeafStarts | musicmarkdown/musicmd/__init__.py:107-112 | a rendered leaf starts with its tag |
| Render.RawTagVerbatim | musicmarkdown/musicmd/__init__.py:499-502 | a raw-tag line is a leaf with no tag, so it renders as its text, unchanged |
| Render.UnrecognizedIsError | musicmarkdown/musicmd/__init__.py:324-329 | an unrecognized line renders as an error span around `SyntaxError: "<line>"` |
| Render.ElementIsDiv | musicmarkdown/musicmd/__init__.py:199-273 | every bar element renders as a `div` of its class around its text |
| Render.ItemCloses | musicmarkdown/musicmd/__init__.py:292-321 | names, repeat counts and arrows render as paragraphs, comments as spans |
| Render.VspaceCloses | musicmarkdown/musicmd/__init__.py:283-289 | a vspace renders as an empty `div` whatever its kind |
| Render.GroupOpens | musicmarkdown/musicmd/__init__.py:133-147 | a group opens with its tag, a newline, and its first child behind a tab |
| Render.GroupLines | musicmarkdown/musicmd/__init__.py:133-147 | the lines of a group of one-line children are its tag, each child behind a tab, and its closing tag |
| Render.ChordBlockLines | musicmarkdown/musicmd/__init__.py:194-196 | a chord block renders one indented line per chord between `<div class="chords">` and `</div>` |
| Render.SectionLines | musicmarkdown/musicmd/__init__.py:332-334 | a section renders one indented line per item between its tag and `</section>` |
| Render.NodeOpensChords | musicmarkdown/musicmd/__init__.py:194-196 | only a chord block renders as a chords group |
| Render.BarHoldsOneChordsGroup | musicmarkdown/musicmd/__init__.py:176-191 | in a rendered bar the one child opening a chords group sits where the first chord-like element arrived |
| Render.CaseStart | musicmarkdown/musicmd/__init__.py:216-225 | a case renders with `case case-start` exactly when its text starts with `1` or `2` |
| Render.MeasureOpens | musicmarkdown/musicmd/__init__.py:159-173 | a bar block opens with its size class, then the case when present, else the bar |
| Render.HeaderLines | musicmarkdown/musicmd/__init__.py:70-75 | the header holds title, subtitle and author in that order, each only when set, and never the copyright |
| Render.TitleShown | musicmarkdown/musicmd/__init__.py:72-74 | a title line is in the header exactly when that title is set and not empty |
| Render.DocumentStarts | musicmarkdown/musicmd/__init__.py:56-70 | the page starts with the head and the header opening |
| Render.DocumentEnds | musicmarkdown/musicmd/__init__.py:81-86 | the page ends with the tail, just after the copyright footer when the copyright is set |
| Render.RenderHeader | musicmarkdown/musicmd/__init__.py:71-73 | the header loop emits, in the dictionary's order, one line per truthy field other than the copyright |
| Render.RenderBlocksAt | musicmarkdown/musicmd/__init__.py:77-78 | entry `i` of the rendered tree is the HTML of node `i` |
| Render.RenderTree | musicmarkdown/musicmd/__init__.py:77-78 | the tree loop emits one string per top-level node, entry `i` being node `i`'s HTML |
| Render.ToHtml | musicmarkdown/musicmd/__init__.py:43-86 | the loops of `Grid.to_html` build the page the document-parts function defines |

## Left out

- The HTTP server, the file watcher, `compile_mmd`'s file I/O and the command line: I/O, threads and timing, outside the compiler core.
- `resource_string`: the style sheet and the live-reload script are plain string parameters of `Render.ToHtml`, and the server address is an `Option<string>`.
- `Grid.info` and `Grid.html` are class attributes in the source, so metadata leaks from one compilation into the next in the same process. The model compiles one document, and its metadata starts unset.
- Writes to shared state: `Grid.to_html` writing `html["head"]` and `html["tail"]`, and `ElementGroup.to_html` writing `self.html_text`. The renderer is modelled as functions of the tree, so these writes are not modelled.
- `Bar`'s aliasing: `chordBlock` is both a field and an entry of `children`. The model keeps this as a value, `Grouped(before, chords, after)`, and not as two references to one object.
- `\d`, `lower()` and `(?i)` are limited to ASCII. Python accepts every Unicode decimal digit and uses full case mapping.
- Lines holding a newline other than a trailing one. `Run` requires what `readlines()` produces.
- `__repr__`, `BarlineSimple`, the unused static `Grid.parse_section`, and the unused `gridRows` and `debug` fields: none of them affect the output.
- Rows.ParseRow: requires at least two fragments. The source would raise `IndexError` on fewer, but it is only called on lines the grid-row grammar accepts, and those always have two or more (`Rows.GridRowFragments`).

Behaviour of the code that is easy to misread:

- Comments are cut at the last `//` on the line, not the first.
- `- [Verse] x2` yields `Name("Verse")` followed by `Comment("x2")`. Only `[Verse]x2`, with no space, yields a repeat count.
- Non-chord elements never close the chord block, because `chordBlock` is never reset. All chord-likes of a bar share one block.
- The size of a bar block comes from whichever pause or size atom comes last. A pause after `.l` makes the block short again.
- An atom such as `|C` is classified by its prefix only: it yields the barline, and the `C` is dropped.
- In `findall`, a time prefix needs whitespace before the delimiter. In `4/4|`, the `4/4` is not part of any fragment.
- A grid row must start with a delimiter, after the optional time prefix and spaces, and must end with one. Containing a delimiter is not enough.
- `NotRecognized` takes the stripped line with its comment removed, not the original line.
