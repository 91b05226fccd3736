# InteractiveHtmlBom generator core, modelled in Dafny

InteractiveHtmlBom is a KiCad plugin. It reads a board (its drawings, its
footprints and their pads) and writes one HTML page. The page shows a bill of
materials (BOM) next to a rendering of the board. This project models the part
of `generate_interactive_bom.py` that turns a board snapshot into that data,
and proves properties of the model:

- **BOM aggregation** (`generate_bom`, module `Bom`). Footprints can be
  filtered by layer. They are grouped by (normalised value, footprint name,
  attribute label), and virtual groups are dropped. Each row's references are
  sorted naturally, and the rows are sorted by reference-prefix rank,
  footprint, descending quantity and the first reference's natural key. The
  natural key (`convert`/`alphanum_key`) is in `NaturalKey`. Python's ordering
  of keys is in `NaturalOrder`. `sorted` is a stable insertion sort in
  `StableSort`.
- **Shape and pad parsers** (`parse_draw_segment`, `parse_poly_set`,
  `parse_text`, `parse_drawing` in `Shapes`; `parse_pad` in `Pads`). Each one
  turns a drawing primitive or a pad into a render record, or into nothing
  when it is unsupported.
- **Extractors** (`parse_edges`, `parse_silkscreen`, `parse_modules` in
  `Extract`). They walk the board's drawings and footprints, keep the items on
  the wanted layers that parse, split them by side, and key footprints by
  reference.

The board model (`pcbnew`) is a read-only value in `Board`. The values its
accessors return are fields. Three accessors are modelled differently:
`GetClass` and `GetParentModule` choose the `Item` constructor (a footprint
graphic carries its footprint's orientation), and `GetBoundingBox` is
replaced by the list of items whose boxes are merged (`MergedBoxOf`). The version-dependent accessors that the
source probes with `hasattr` are boolean flags in `Api`. Each class name the
source dispatches on is one constructor of `Item`. Lengths stay in
nanometres and angles in tenths of a degree.

The loops of the source are methods with loop invariants. Each is proved
equal to a specification function: `ParsePolySet`, `EdgeItems`,
`ParseEdges`, `SilkItems`, `ParseSilkscreen`, `ParseModules`, `GroupParts`
and `GenerateBom`. The
properties are then proved about those functions.

Modelling choices:

- Python 2 dictionaries iterate in an unspecified order. The groups are
  visited in the order their keys were first seen. `GroupParts` keeps that
  order as a list beside the dictionary.
- The four-part `sort_func` tuple (prefix rank, footprint, negated quantity,
  natural key of the first reference) is flattened into one key list. The lemma
  `Bom.RowKeyOrder` proves that the flat order is the same as comparing the
  tuples component by component.
- The polygon angle at line 160 ends in a trailing comma. With a parent
  footprint it is therefore a one-element tuple, not a number. `PolyAngle`
  reproduces this: `Unrotated` stands for the number 0 and `OneTuple` for the
  tuple.
- `units.componentValue` is not part of this model. It is a parameter
  `cv: string -> string`.

## Model

| member | source | states |
|---|---|---|
| NaturalOrder.LexIrreflexive | InteractiveHtmlBom/generate_interactive_bom.py:39 | no list is below itself in Python's lexicographic list order |
| NaturalOrder.LexTransitive | InteractiveHtmlBom/generate_interactive_bom.py:39 | lexicographic order is transitive when the element order is a strict order |
| NaturalOrder.LexConnected | InteractiveHtmlBom/generate_interactive_bom.py:39 | two different lists are ordered one way or the other when the element order is total |
| NaturalOrder.AtomLessStrictTotal | InteractiveHtmlBom/generate_interactive_bom.py:28 | comparing an int-or-str atom, as Python 2 does, is a strict total order |
| NaturalOrder.KeyLessTransitive | InteractiveHtmlBom/generate_interactive_bom.py:39 | the natural-key order is transitive |
| NaturalOrder.KeyLessConnected | InteractiveHtmlBom/generate_interactive_bom.py:39 | any two natural keys are equal or ordered one way |
| NaturalOrder.KeyNotLess | InteractiveHtmlBom/generate_interactive_bom.py:103 | a key that is not below another is at or above it (what `sorted` relies on) |
| NaturalKey.TextRunProps | InteractiveHtmlBom/generate_interactive_bom.py:32 | the text run before the first digit holds no digit and stops at a digit or at the end |
| NaturalKey.DigitRunProps | InteractiveHtmlBom/generate_interactive_bom.py:32 | a digit run holds only digits and stops at a non-digit or at the end |
| NaturalKey.SplitRunsIsSplit | InteractiveHtmlBom/generate_interactive_bom.py:32 | `re.split('([0-9]+)')` gives runs that alternate digit-free text and nonempty digit runs, with nonempty inner text runs, and that concatenate back to the input |
| NaturalKey.AlternatingShape | InteractiveHtmlBom/generate_interactive_bom.py:32 | such a split has an odd number of runs, digit-free text at even positions and nonempty all-digit runs at odd positions |
| NaturalKey.SplitRunsUnique | InteractiveHtmlBom/generate_interactive_bom.py:32 | any split with those properties is the one SplitRuns returns |
| NaturalKey.Lower | InteractiveHtmlBom/generate_interactive_bom.py:28 | ASCII lower-casing keeps the length, maps each character, and leaves no capital |
| NaturalKey.NatKey | InteractiveHtmlBom/generate_interactive_bom.py:27-32 | `alphanum_key` has odd length; even positions are lower-case digit-free text, odd positions non-negative integers |
| NaturalKey.NatKeyOfSplit | InteractiveHtmlBom/generate_interactive_bom.py:27-32 | for the run split of any string, the key has one atom per run: the lower-cased text at even positions and the decimal value of the digit run at odd positions |
| NaturalKey.NatKeyThree | InteractiveHtmlBom/generate_interactive_bom.py:27-32 | text, digits, text gives exactly the key [lowered text, decimal value, lowered text] |
| NaturalKey.KeyTies | InteractiveHtmlBom/generate_interactive_bom.py:27-32 | "R01", "R1" and "r1" have the same key |
| NaturalKey.DigitsCompareNumerically | InteractiveHtmlBom/generate_interactive_bom.py:27-39 | "R2" sorts before "R10" by key although it follows it as a plain string |
| StableSort.SortBySpec | InteractiveHtmlBom/generate_interactive_bom.py:39 | `sorted(l, key)` returns a permutation of `l`, sorted by key, in which items with equal keys keep their input order |
| StableSort.InsertPermutes | InteractiveHtmlBom/generate_interactive_bom.py:39 | inserting adds exactly the one item |
| StableSort.InsertSorted | InteractiveHtmlBom/generate_interactive_bom.py:39 | inserting into a sorted list keeps it sorted |
| StableSort.InsertWithKey | InteractiveHtmlBom/generate_interactive_bom.py:39 | inserting puts the item before every item with its own key (stability) |
| Shapes.ParsePolySet | InteractiveHtmlBom/generate_interactive_bom.py:169-183 | `parse_poly_set` returns every outline with every point in order, or nothing when outlines have no PointCount |
| Shapes.ArcAngles | InteractiveHtmlBom/generate_interactive_bom.py:138-142 | the arc's start is at most its end, the pair is {start, start+sweep}, the span is the sweep's size, and the ends are swapped exactly when the sweep is negative |
| Shapes.ParseDrawSegment | InteractiveHtmlBom/generate_interactive_bom.py:112-166 | nothing exactly for an unsupported shape or a polygon without GetPolyShape; otherwise the record of that shape with the segment's fields, the arc from ArcAngles, and a polygon with its outlines and a one-tuple angle exactly when it has a parent footprint |
| Shapes.ParseText | InteractiveHtmlBom/generate_interactive_bom.py:186-214 | a text gives a record exactly when it is visible; the angle, size and text come from the accessors present on this board model version |
| Shapes.ParseDrawing | InteractiveHtmlBom/generate_interactive_bom.py:217-224 | DRAWSEGMENT gives ParseDrawSegment's record without a parent, MGRAPHIC with its footprint's orientation, PTEXT ParseText as board text and MTEXT as module text; another class gives nothing |
| Shapes.ArcNegativeSweep | InteractiveHtmlBom/generate_interactive_bom.py:138-142 | an arc from 0 with sweep -90 degrees covers -90..0 |
| Shapes.ArcDirectionDiscarded | InteractiveHtmlBom/generate_interactive_bom.py:138-142 | an arc and the reversed arc between the same ends give the same interval |
| Pads.ShapeLookup | InteractiveHtmlBom/generate_interactive_bom.py:285-294 | the shape lookup fails exactly for unsupported codes and for round-rect or custom on versions without them |
| Pads.PadLayers | InteractiveHtmlBom/generate_interactive_bom.py:275-280 | "F" is listed iff the pad is on F_Cu and "B" iff on B_Cu, front first, each once |
| Pads.DrillShapeLookup | InteractiveHtmlBom/generate_interactive_bom.py:321-324 | the drill shape is absent exactly for a code outside the lookup |
| Pads.ParsePad | InteractiveHtmlBom/generate_interactive_bom.py:274-330 | nothing iff the shape lookup fails; otherwise the layers are PadLayers of the pad's layer set (F before B), position and size are the pad's, the angle is negated, pin1 iff the name is "1" or "A1", polygons iff custom, the corner radius iff round-rect, the offset iff the accessor exists, and "th" with the looked-up drill shape and the drill size iff the attribute is standard or non-plated, else "smd" |
| Extract.EdgeItems | InteractiveHtmlBom/generate_interactive_bom.py:227-233 | the candidate list is the board drawings followed by every footprint's graphics, in order |
| Extract.SilkItems | InteractiveHtmlBom/generate_interactive_bom.py:248-256 | the candidate list is the board drawings followed by each footprint's reference label, value label and graphics, in order, with exactly that many items |
| Extract.ParseEdges | InteractiveHtmlBom/generate_interactive_bom.py:227-245 | the outline drawings are the parsed Edge_Cuts items of the board drawings and footprint graphics, in order; the box is absent exactly when there are none, and otherwise merges exactly those items |
| Extract.ParseSilkscreen | InteractiveHtmlBom/generate_interactive_bom.py:248-272 | front and back are the parsed F_SilkS and B_SilkS items of the board's drawings and of each footprint's reference label, value label and graphics, in order |
| Extract.ParseModules | InteractiveHtmlBom/generate_interactive_bom.py:333-382 | the footprint map is the result of writing each footprint's record under its reference, in order |
| Extract.ParsedOnMember | InteractiveHtmlBom/generate_interactive_bom.py:234-238 | a drawing is collected for a layer iff some item on that layer parses to it |
| Extract.ParsedOnEmpty | InteractiveHtmlBom/generate_interactive_bom.py:234-245 | nothing is collected for a layer iff no item on it parses (for Edge_Cuts, the box is then absent) |
| Extract.ParsedOnAppend | InteractiveHtmlBom/generate_interactive_bom.py:229-233 | collecting over board drawings then footprint items is collecting over each in turn |
| Extract.ParseableMatchesParsed | InteractiveHtmlBom/generate_interactive_bom.py:236-242 | the items merged into the box correspond one to one with the outline drawings |
| Extract.CopperDrawingsBySide | InteractiveHtmlBom/generate_interactive_bom.py:347-359 | a footprint's drawings are its parsed F_Cu items tagged F and its parsed B_Cu items tagged B, each in item order |
| Extract.ParsedPadsMember | InteractiveHtmlBom/generate_interactive_bom.py:361-365 | a pad record is kept iff some pad parses to it; pads that do not parse are dropped |
| Extract.ModuleMapKeys | InteractiveHtmlBom/generate_interactive_bom.py:334-368 | the map has an entry exactly for each footprint reference |
| Extract.ModuleMapLastWins | InteractiveHtmlBom/generate_interactive_bom.py:368-380 | a repeated reference holds the record of the last footprint with it |
| Bom.NatToString | InteractiveHtmlBom/generate_interactive_bom.py:63 | `str(n)` is nonempty digits that read back as `n` |
| Bom.IntToString | InteractiveHtmlBom/generate_interactive_bom.py:63 | `str(i)` is digits, with a leading minus for negatives, and reads back as `i` |
| Bom.AttrLabel | InteractiveHtmlBom/generate_interactive_bom.py:41-63 | codes 0, 1 and 2 get "Normal", "Normal+Insert" and "Virtual" and no other code gets these labels; any other code gets `str(code)` |
| Bom.IntToStringInjective | InteractiveHtmlBom/generate_interactive_bom.py:63 | different integers have different decimal strings |
| Bom.AttrLabelInjective | InteractiveHtmlBom/generate_interactive_bom.py:59-65 | different attribute codes get different labels, so they never share a group key |
| Bom.PartGroups | InteractiveHtmlBom/generate_interactive_bom.py:47-67 | every group built by `setdefault` plus append holds at least one reference |
| Bom.GroupOrderKeys | InteractiveHtmlBom/generate_interactive_bom.py:71 | the first-seen order lists every group key exactly once |
| Bom.NaturalSortSpec | InteractiveHtmlBom/generate_interactive_bom.py:34-39 | `natural_sort` returns a permutation sorted by natural key, stable on ties |
| Bom.GroupStep | InteractiveHtmlBom/generate_interactive_bom.py:48-67 | one more footprint is skipped when the layer filter rejects it, joins the group of its key keeping the group's value, or opens that group with its own value and puts the key last in the order |
| Bom.GroupParts | InteractiveHtmlBom/generate_interactive_bom.py:47-67 | the grouping loop builds PartGroups and GroupOrder |
| Bom.GenerateBom | InteractiveHtmlBom/generate_interactive_bom.py:20-105 | the table is BomTable: a permutation of the rows of the non-virtual groups, sorted by the `sort_func` key |
| Bom.PartGroupsDomain | InteractiveHtmlBom/generate_interactive_bom.py:48-67 | a group exists iff some footprint passing the layer filter has that key |
| Bom.PartGroupsRefs | InteractiveHtmlBom/generate_interactive_bom.py:65-67 | a group's references are those of the selected footprints with its key, in footprint order |
| Bom.FootprintInItsGroup | InteractiveHtmlBom/generate_interactive_bom.py:48-67 | every footprint passing the filter lands in the group of its own key |
| Bom.PartGroupsValue | InteractiveHtmlBom/generate_interactive_bom.py:66 | a group's value is the raw value of the first selected footprint with that key (`setdefault` never overwrites) |
| Bom.RowsForMember | InteractiveHtmlBom/generate_interactive_bom.py:70-76 | the built rows are exactly the rows of the non-virtual keys |
| Bom.TableRows | InteractiveHtmlBom/generate_interactive_bom.py:70-103 | a row is in the table iff it is the row of a non-virtual group |
| Bom.RowsWellFormed | InteractiveHtmlBom/generate_interactive_bom.py:74-75 | each row's quantity is its number of references; the references are in natural order and come from one non-virtual group with the row's footprint |
| Bom.RowRefsSorted | InteractiveHtmlBom/generate_interactive_bom.py:103 | sorting the rows keeps every reference |
| Bom.RowsForExtend | InteractiveHtmlBom/generate_interactive_bom.py:67-76 | appending a reference to a group adds it to the rows once, unless the group is virtual |
| Bom.GroupRowRefs | InteractiveHtmlBom/generate_interactive_bom.py:47-76 | the unsorted rows hold each selected non-virtual reference as often as it occurs |
| Bom.BomCoversParts | InteractiveHtmlBom/generate_interactive_bom.py:47-105 | the table lists every reference of a selected footprint with attribute other than 2, as often as it occurs, and no other reference |
| Bom.BomRefsMember | InteractiveHtmlBom/generate_interactive_bom.py:50-73 | those references are exactly the ones of footprints that pass the layer filter and are not virtual |
| Bom.Prefix | InteractiveHtmlBom/generate_interactive_bom.py:81 | the prefix is the longest leading run of capital ASCII letters |
| Bom.RowKeyOrder | InteractiveHtmlBom/generate_interactive_bom.py:79-103 | the flattened row key orders rows exactly as Python compares the tuples (rank, footprint, -qty, natural key of the first reference) |
| Bom.CapacitorsBeforeResistors | InteractiveHtmlBom/generate_interactive_bom.py:82-84 | a C row sorts before an R row whatever the footprints and quantities |
| Bom.UnknownPrefixRank | InteractiveHtmlBom/generate_interactive_bom.py:93-100 | a row with an unlisted (here empty) prefix sorts after A (11) and before HS (1996) |
| Bom.LargerGroupsFirst | InteractiveHtmlBom/generate_interactive_bom.py:101 | with equal rank and footprint, the row with more references comes first |
| Bom.NaturalSortExample | InteractiveHtmlBom/generate_interactive_bom.py:34-39 | ["R10", "R2", "R1"] sorts naturally to ["R1", "R2", "R10"] |

## Left out

- File and user-interface work is not modelled: `main`'s messages, the output directory, `generate_file` (template reading, HTML substitution, `json.dumps`), `open_file`, the plugin class and the command line. Of `main`'s logic, the "no outline, abort" check is the `bbox.None?` case of `Extract.ParseEdges`.
- `main`'s date fallback (the file's modification time) and title fallback (the file name) need the file system, so they are not modelled.
- The float scaling by 1e-6 and 0.1 (`normalize` and the field conversions) is not modelled. It is a uniform multiplication; coordinates stay in native integers.
- Extract.ParseEdges: the bounding box is the list of merged items, not a rectangle. `EDA_RECT.Merge` and `Normalize` belong to the board library.
- Logging and the custom-pad hole and self-intersection warnings are left out; they do not change the output.
- `units.componentValue` is not part of this model. It is a parameter.
- Strings are sequences of characters. `lower` and `isdigit` act on ASCII only, as Python 2 does on byte strings. Unicode reference strings, whose `lower` also folds non-ASCII letters, are not modelled.
- Python 2 dictionary iteration order is unspecified. The model fixes first-seen order. Rows whose sort keys are equal are therefore found in that order.
- Line 229 calls `getDrawings` and line 251 calls `GetDrawings`. Both are modelled as reading the board's drawings; the board library is not part of this model.
- The `try`/`except` choice between `GetFootprintName` and `GetLibItemName` is not modelled. The board snapshot holds the footprint name directly.
