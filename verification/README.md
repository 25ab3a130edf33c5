# cp2kdata: initial-coordinates extractor and output aggregator

This project models two parts of cp2kdata, a reader for CP2K log files:

- `parse_init_atomic_coordinates` locates the "MODULE QUICKSTEP: ATOMIC COORDINATES IN angstrom" block with the regular expression `INIT_ATOMIC_COORDINATES_RE`. For every occurrence it collects the x/y/z coordinates, the kind numbers and the element symbols of the rows.
- The `Cp2kOutput` aggregator, which:
  - runs the metadata parsers;
  - gates on the run type (`check_run_type`);
  - calls the geometry-optimisation parser only for `GEO_OPT`;
  - calls every block parser;
  - offers the getters, including `get_chemical_symbols_fake` and the data part of `get_geo_opt_info_plot`.

Modules, in dependency order:

| module | file | what it holds |
|---|---|---|
| `Wrappers` | wrappers.dfy | `Option` and `Result` |
| `Chars` | chars.dfy | The ASCII classes behind `\s`, `\d` and `\w`; greedy runs of a class; decimal digit strings and their integer value, as `int(kind)` reads them |
| `Seqs` | seqs.dfy | The run of a reader over a sequence (the longest prefix it reads, as `(...)+` repeats a group), and spans in document order |
| `Finditer` | finditer.dfy | The left-to-right, non-overlapping search of `finditer` over positions, for any notion of "a match starts here" |
| `Lines` | lines.dfy | The document as complete `\n`-terminated lines |
| `FixedPoint` | fixed.dfy | The numeric token `[\s-]\d+\.\d+`: scanning, formatting and its exact value |
| `Pattern` | pattern.dfy | The building blocks of the pattern: a whitespace gap followed by a column, the whole row template, the word sequence of the title line, and the banner template found inside a line |
| `Coordinates` | coordinates.dfy | The anchor, rows, the successive non-overlapping matches of `finditer`, and the accumulation into `(coordinates, kinds, elements)` or `None` |
| `CoordinatesExample` | scenarios.dfy | A worked three-atom document |
| `Output` | output.dfy | The run-type gate, the construction of `Cp2kOutput` as a record plus the list of parsers it called, and the getters |

The pattern is read line by line:

- An anchor is four lines:
  1. a banner line that contains the banner template, followed only by whitespace;
  2. an empty line;
  3. the column-title line;
  4. an empty line.
- Rows follow, one per line, up to the first line that is not a row. At least one row is required.
- The search for the next match resumes after the last row.

In the row template, each numeric column `\s+[\s-]\d+\.\d+` is a whitespace gap, then a sign slot, then digits. The sign slot is a `-` or one more whitespace character. So a non-negative number needs at least two whitespace characters in front of it. The captured `x`, `y` and `z` include the sign-slot character. They are kept as text (`Fixed(sign, whole, frac)`) and given an exact rational `Value`.

Behaviours of the code a reader may not expect:

- The anchor needs an empty line after the banner and after the title line. A block without those blank lines is not matched.
- A positive coordinate preceded by a single space does not fit the row template.
- A line that fails the row template ends the block. It is never a fault.
- When several blocks occur, the coordinates of all of them are appended. The kinds and elements come from the last block only, so their lengths can differ from the number of coordinates. No cross-block count check is made.
- When no block occurs, the extractor returns `None`. Unpacking that `None` in the constructor fails. Construction therefore stops after the coordinates extractor, and the later parsers are not called. This is the `CoordinatesAbsent` fault.

## Model

| member | source | states |
|---|---|---|
| Chars.Span | cp2kdata/block_parser/coordinates.py:11-19 | A greedy `\s+`, `\d+` or `\w+` run: every character of the returned prefix is in the class, and the next character, if any, is not |
| Chars.SpanOfConcat | cp2kdata/block_parser/coordinates.py:11-19 | A run of class characters followed by text that does not start with one is consumed exactly |
| Chars.DigitsValueOfShowNat | cp2kdata/block_parser/coordinates.py:34 | `int()` of the decimal text of n is n |
| Chars.ShowNatOfDigitsValue | cp2kdata/block_parser/coordinates.py:34 | A digit string without a leading zero is the decimal text of its `int()` value |
| Chars.DigitsValueConcat | cp2kdata/block_parser/coordinates.py:34 | The value of two concatenated digit strings is the first shifted by the second's length, plus the second |
| Lines.SplitLines | cp2kdata/block_parser/coordinates.py:6-20 | Every line of the split, and the unterminated tail, is free of line breaks |
| Lines.JoinSplit | cp2kdata/block_parser/coordinates.py:31 | The lines, each with its `\n` restored, followed by the tail, are the document: nothing is lost |
| Lines.SplitJoin | cp2kdata/block_parser/coordinates.py:31 | Splitting joined break-free lines plus a break-free tail gives those lines and that tail back |
| FixedPoint.Scan | cp2kdata/block_parser/coordinates.py:15-19 | Reading `[\s-]\d+\.\d+` greedily: the token read is well formed, its text followed by the rest is the input, and the rest does not start with a digit |
| FixedPoint.ScanFormat | cp2kdata/block_parser/coordinates.py:15-19 | Every well-formed number followed by a non-digit is read back exactly, with the same rest |
| FixedPoint.ValueIsScaledDigits | cp2kdata/block_parser/coordinates.py:37 | The value is the digit string with the point removed, divided by ten per fraction digit, and negated exactly when the sign slot is `-` |
| Pattern.ScanField | cp2kdata/block_parser/coordinates.py:11-19 | One `\s+` gap and one column of the given shape: the parts read, followed by the rest, are the input |
| Pattern.ScanFieldComplete | cp2kdata/block_parser/coordinates.py:11-19 | Any gap followed by a fitting column and by text that is empty or starts with whitespace is read back as exactly that gap and column |
| Pattern.ScanSignedComplete | cp2kdata/block_parser/coordinates.py:15-19 | The signed-column case of the completeness lemma, where the whitespace before the sign slot is split off greedily |
| Pattern.SignSlotComplete | cp2kdata/block_parser/coordinates.py:15-19 | The sign slot is found exactly where the gap ends |
| Pattern.ScanRunComplete | cp2kdata/block_parser/coordinates.py:11-14 | The `\d+` and `\w+` cases of the completeness lemma |
| Pattern.ScanLine | cp2kdata/block_parser/coordinates.py:10-20 | A line read against a row template gives columns that fit the template and render back to the line |
| Pattern.ScanLineComplete | cp2kdata/block_parser/coordinates.py:10-20 | Rendering fitting columns and reading the result gives those columns back |
| Pattern.MatchWordsComplete | cp2kdata/block_parser/coordinates.py:8 | Title words separated by non-empty whitespace gaps, and followed by whitespace, match the title template |
| Coordinates.ParseRow | cp2kdata/block_parser/coordinates.py:11-20 | A parsed row has digit atom and kind, a word element and well-formed x, y and z |
| Coordinates.RowRoundTrip | cp2kdata/block_parser/coordinates.py:11-20 | Rendering a valid row with any valid layout and parsing it gives the row back |
| Coordinates.RowParseSound | cp2kdata/block_parser/coordinates.py:11-20 | A line that parses as a row is exactly the rendering of that row with the layout read from it |
| Coordinates.RowRun | cp2kdata/block_parser/coordinates.py:10-21 | The rows of a block are a maximal prefix: each of them parses, and the next line, if any, does not |
| Coordinates.RowRunValid | cp2kdata/block_parser/coordinates.py:10-21 | Every row collected for a block is valid |
| Coordinates.BannerComplete | cp2kdata/block_parser/coordinates.py:6 | Any text, then the banner with each of its spaces replaced by a whitespace character, then trailing whitespace, is a banner line |
| Coordinates.BannerParts | cp2kdata/block_parser/coordinates.py:6 | Conversely, every banner line splits into some text, a slot-filled banner and trailing whitespace |
| Coordinates.TitleComplete | cp2kdata/block_parser/coordinates.py:8 | The eight column titles separated by any non-empty whitespace gaps, with any trailing whitespace, form a title line |
| Coordinates.AnchorComplete | cp2kdata/block_parser/coordinates.py:6-9 | Any banner line, an empty line, any title line and an empty line form an anchor, whatever lines follow |
| Coordinates.AnchorLinesAreAnchor | cp2kdata/block_parser/coordinates.py:6-9 | The canonical banner, empty line, title and empty line form an anchor |
| Coordinates.MatchAtMatchable | cp2kdata/block_parser/coordinates.py:6-21 | Where an anchor is followed by at least one row, the match found there has those rows and is a match |
| Seqs.RunUnique | cp2kdata/block_parser/coordinates.py:10-21 | The rows that a greedy `(...)+` collects are determined by the lines: two runs of the same reader over the same lines are equal |
| Finditer.SearchSound | cp2kdata/block_parser/coordinates.py:31 | Every match the search reports was found at a hit at or after the start position, and the reported matches are in document order without overlap |
| Finditer.SearchEmptyIff | cp2kdata/block_parser/coordinates.py:31 | The search reports nothing exactly when no position at or after the start is a hit |
| Finditer.SearchComplete | cp2kdata/block_parser/coordinates.py:31 | When no match contains the start of another, every hit at or after the start position begins a reported match |
| Coordinates.MatchesFrom | cp2kdata/block_parser/coordinates.py:31 | Every match found has at least one row, lies in the document, starts at or after the search position, and ends before the next one starts |
| Coordinates.MatchOf | cp2kdata/block_parser/coordinates.py:6-31 | Every match found is an anchor followed by its maximal row run |
| Coordinates.MatchesFromEmptyIff | cp2kdata/block_parser/coordinates.py:31 | The search finds nothing exactly when no position at or after the start holds a match |
| Coordinates.MatchesFromComplete | cp2kdata/block_parser/coordinates.py:31 | Every matchable position at or after the search start is the start of a found match; the lemma returns its index |
| Coordinates.MatchStarts | cp2kdata/block_parser/coordinates.py:31 | A found match starts at position i exactly when an anchor followed by a row sits at i |
| Coordinates.NoBannerInsideMatch | cp2kdata/block_parser/coordinates.py:6-21 | No line after a match's banner, inside that match, is a banner |
| Coordinates.NoMatchableInside | cp2kdata/block_parser/coordinates.py:6-21 | No position inside a match, after its start, is matchable, so skipping to the match's end never hides another match |
| Coordinates.TotalRowsPositive | cp2kdata/block_parser/coordinates.py:21 | With at least one match there is at least one row, because `)+` requires one |
| Coordinates.AllCoordsLength | cp2kdata/block_parser/coordinates.py:32-33 | The appended coordinates number the total rows of all matches |
| Coordinates.AccumulateSpec | cp2kdata/block_parser/coordinates.py:32-35 | One pass of the loop body keeps the coordinates gathered so far and appends one per row of the match, in row order; the kinds and elements become the match's own, one per row |
| Coordinates.FoldSpec | cp2kdata/block_parser/coordinates.py:31-35 | The loop appends every match's coordinates and leaves kinds and elements as the last match's |
| Coordinates.ExtractLines | cp2kdata/block_parser/coordinates.py:27-39 | A result that is not None holds at least one coordinate, and as many kinds as elements (at least one), since both come from the same match |
| Coordinates.ParseInitAtomicCoordinates | cp2kdata/block_parser/coordinates.py:27-39 | On the text of a log, the result is None exactly when no complete line starts an anchor followed by a row |
| Coordinates.ExtractSpec | cp2kdata/block_parser/coordinates.py:27-39 | The result is None exactly when there is no match; otherwise it is all coordinates with the last match's kinds and elements |
| Coordinates.ExtractAbsentIff | cp2kdata/block_parser/coordinates.py:36-39 | `None` exactly when no line starts an anchor followed by a row |
| Coordinates.SingleBlockAligned | cp2kdata/block_parser/coordinates.py:31-37 | With one block, coordinates, kinds and elements have the same length, and entry k is read from the block's k-th row line |
| Coordinates.MultiBlockLengths | cp2kdata/block_parser/coordinates.py:32-35 | With two or more blocks, the coordinates outnumber the kinds and elements, which have the last block's length |
| Coordinates.CoordinateOrigin | cp2kdata/block_parser/coordinates.py:32-33 | Coordinate number `Offset(j)+k` of the result is row k of match j, and that row is what the k-th line after the match's anchor parses as |
| Coordinates.SingleBlockDocument | cp2kdata/block_parser/coordinates.py:4-39 | A document made of the anchor, N rendered rows and at most one non-row line yields exactly those N rows' coordinates, kinds and elements |
| Coordinates.TextReadsAsLines | cp2kdata/block_parser/coordinates.py:31 | An unterminated last line never contributes to a match |
| CoordinatesExample.ThreeAtomDocument | cp2kdata/block_parser/coordinates.py:4-39 | The three-row O/O/H document gives coordinates [[-0.5,0,1.234],[0.5,0,1.234],[0,0,2]], kinds [1,1,2] and elements [O,O,H] |
| Output.CheckRunType | cp2kdata/output.py:17-22 | Accepted exactly when the run type is ENERGY_FORCE, ENERGY, MD or GEO_OPT; the accepted value names the input; a rejection carries the input |
| Output.CheckRunTypeName | cp2kdata/output.py:18-20 | Every supported run type's name is accepted as that run type |
| Output.NumpyIndex | cp2kdata/output.py:80 | An index is valid exactly in `-n..n-1`, and a negative one counts from the end |
| Output.LookUpKinds | cp2kdata/output.py:80 | The lookup succeeds exactly when every kind lies in `1-n..n`; atom k gets name `kind-1`, and kind 0 gets the last name |
| Output.Cp2kOutput.ChemicalSymbolsFake | cp2kdata/output.py:79-80 | The same lookup applied to the stored kind list and atomic kinds |
| Output.Cp2kOutput.GeoOptInfoPlot | cp2kdata/output.py:114-123 | Present exactly when there is geometry-optimisation info; each of the five series has one entry per step after the first, and entry k projects step k+1 |
| Output.Construct | cp2kdata/output.py:28-59 | An unsupported run type stops after the three metadata parsers with that fault; a supported one calls the parsers in source order (metadata, geometry exactly for GEO_OPT, energies, coordinates, then the five block parsers only on success) and fails, with `CoordinatesAbsent`, exactly when the extractor returns None |
| Output.Assemble | cp2kdata/output.py:45-59 | After the gate: the parsers are called in source order, the geometry parser exactly for GEO_OPT, the five trailing parsers only when the coordinates could be unpacked; failure happens exactly when the extractor returns None and stops right after it |
| Output.Calls | cp2kdata/output.py:32-59 | The call sequence after the gate is in source order, holds the geometry parser exactly for GEO_OPT, and ends at the coordinates extractor when construction stops there |
| Output.CallOrderUnique | cp2kdata/output.py:32-59 | The order pins the calls down: two call sequences in that order, for the same run type and outcome, are equal |
| Output.UnsupportedIgnoresBlockParsers | cp2kdata/output.py:35-44 | With an unsupported run type, no block parser is called, and the outcome does not depend on them |
| Output.ConstructedFields | cp2kdata/output.py:32-98 | Every getter of a constructed object returns what its parser produced on the document; the stored run type is a supported one |

## Left out

- Reading the file (cp2kdata/output.py:29-30): the document text is a parameter.
- `print` and `sys.exit` for an unsupported run type (cp2kdata/output.py:38-44): modelled as the returned `UnsupportedRunType` fault.
- The matplotlib figure of `get_geo_opt_info_plot` (cp2kdata/output.py:101-113, 125-151): only the five data series are modelled.
- `to_ase_atoms` (cp2kdata/output.py:153-155): it only prints a message and returns nothing.
- The other block parsers (header, global, DFT, geometry optimisation, energies, atomic kinds, forces, Mulliken, Hirshfeld, DFT+U): their code is not part of this model. They are parameters, each a pure function of the document.
- Dictionary lookups in the collaborators' results (`["run_type"]`, `["version_string"]`, `["step"]` and so on): modelled as record fields, so a missing key (`KeyError`) is not modelled.
- The plain getters without logic (cp2kdata/output.py:61-98): no member of their own; `Output.ConstructedFields` states what each returns.
- `parse_atomic_kinds` is assumed to return a numpy array, which `get_chemical_symbols_fake` indexes element-wise; it is modelled as a sequence of names.
- Float conversion of the captures and `np.array` (cp2kdata/block_parser/coordinates.py:37): coordinates keep their text and an exact rational value. Rounding to binary floating point is not modelled.
- `np.array(..., dtype=int)` of the kinds: unbounded naturals; int64 overflow of very long kind numbers is not modelled.
- Coordinates.ExtractLines: in the regex every `\s` may also match a line break. The line-based model does not accept extra blank lines between rows or inside the anchor, whitespace-only blank lines, rows split across lines, or a banner whose leading `\s` is the previous line break.
- Coordinates.ParseInitAtomicCoordinates: a final line without `\n` is dropped. The regex needs `\n` after every row and anchor line, so such a line cannot complete a match either way.
- Chars.IsSpace, Chars.IsDigit, Chars.IsWordChar: ASCII only. The Unicode members of `\s`, `\d` and `\w` accepted by the `regex` module are not modelled.
- Carriage returns: `Cp2kOutput` opens the log in text mode (cp2kdata/output.py:29-30), and Python's universal-newline reading turns `\r\n` and a lone `\r` into `\n`, so a CRLF log is read like an LF one. The model starts after that translation (see `Output.Construct` below). Inside the extractor a `\r` is an ordinary whitespace character of its line, so a string holding `\r\n` that is handed to `parse_init_atomic_coordinates` directly has rows and empty anchor lines that do not match, as with the regex apart from the line-spanning `\s` noted above.
- Output.Construct: its `text` is the document after Python's newline translation on reading; the translation itself is not modelled.
