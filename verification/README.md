# ORA stuff for ChimeraX: bond orders, SD files and trajectory edits

A Dafny model of the core of the "ORA stuff" ChimeraX bundle:

- `guessBondOrders` classifies each pair of distinct selected atoms from its
  squared distance as broken, half, single, aromatic, double or triple. A pair
  whose nearest reference label is none of "1.0", "1.5", "2.0" and "3.0" gets
  no class, only a warning. For every classified pair, the first real bond
  joining it is deleted. A pair of any class but "broken" is then moved into
  that class's pseudobond group, and its pseudobonds of the other classes are
  removed; a broken pair gets no pseudobond.
- `save_sdf` writes one connection-table record per coordinate set, in the
  V3000 or V2000 layout. The bond rows come from every visited pair j <= i
  whose distance is within its transition-state cutoff. A self pair j == i is
  visited too, and the index formula makes it read another pair's distance.
  `bo_to_mol_map` gives each bond order its connection-table code.
- The `SetBondOrder` mouse modes (`mouse_up`, `draw_new_pbond`, the class
  table and `bo_names`) redraw one picked pair in the mode's class.
- `flip_cs`, `trim_cs` and `combine_cs` rewrite a structure's trajectory.

The host's object graph is replaced by an immutable `Structure`. It holds:

- the element symbols
- the ascending coordinate-set ids, with one frame of positions per id
- the active id
- the real bonds, as a sequence
- the pseudobonds of the six class groups, as a set of (pair, coordinate set, class) keys
- the styles the class groups were given

Every command is a pure function from structures to structures, or to the
lines a file receives, plus the error that stops it.

| file | module | contents |
|---|---|---|
| outcomes.dfy | Outcomes | `Result` and `Option` |
| geometry.dfy | Geometry | points, `pdist` as a condensed vector, the source's index formula, Python indexing |
| bond_classes.dfy | BondClasses | the six classes, their group names and mouse-mode styles |
| bond_table.dfy | BondTable | `Structure`, bond deletion, pseudobond additions and removals |
| thresholds.dfy | Thresholds | the cutoff cache, the nearest reference entry |
| pair_classifier.dfy | PairClassifier | the verdict for one pair and the class lists of one frame |
| guess_bond_orders.dfy | GuessBondOrders | the class pass and the whole command |
| mouse_modes.dfy | MouseModes | `draw_new_pbond` and `mouse_up` |
| sdf_text.dfy | SdfText | `%i`, `%Ns`, tokenising and column reading |
| sdf_rows.dfy | SdfRows | `bo_to_mol_map`, the bond rows `save_sdf` collects |
| sdf_writer.dfy | SdfWriter | the connection-table lines, records and `save_sdf` |
| frame_edit.dfy | FrameEdit | `flip_cs`, `trim_cs`, `combine_cs` |

Nothing in the source reads SD files. The readers in `SdfWriter` take lines
apart by whitespace tokens (V3000) or by fixed columns (V2000). They are
specification devices: the read-back lemmas use them to state what a
connection-table reader finds in the writer's output.

## Model

| member | source | states |
|---|---|---|
| GuessBondOrders.GuessAll | src/commands/guess_bond_orders.py:44-60 | structures are processed in selection order; the first error stops the command; structures before it keep their changes and later ones stay as they were |
| GuessBondOrders.RunAll | src/commands/guess_bond_orders.py:44-57 | the first failing outcome ends the run, and every structure before it takes its own result |
| GuessBondOrders.GuessStructureOutcome | src/commands/guess_bond_orders.py:45-75 | an id that is not a coordinate set fails before anything changes; a missing radius fails while the cache is built and names a selected atom's element; otherwise the command succeeds |
| GuessBondOrders.GuessStructureUpdates | src/commands/guess_bond_orders.py:79-198 | a successful pass carries out the plan its selector asks for, and the structure stays valid |
| GuessBondOrders.GuessWithUpdates | src/commands/guess_bond_orders.py:79-85 | no selector writes the active set's lists at every id; an id writes that set's lists at every id; "all" writes each set's lists at its own id |
| GuessBondOrders.UpdateFrameSpec | src/commands/guess_bond_orders.py:147-198 | one class pass deletes the real bonds of its pairs, moves each pair to its class at every target, and restyles exactly the classes it used |
| GuessBondOrders.UpdateEachSpec | src/commands/guess_bond_orders.py:79-83 | with "all", running the passes one id after another carries out the plan for every id at once |
| GuessBondOrders.PlaceAllSpec | src/commands/guess_bond_orders.py:157-182 | placing the assignments one after another equals the declarative plan: each pair is only in its own class at every target, and all other pseudobonds are unchanged |
| GuessBondOrders.PlacedCompose | src/commands/guess_bond_orders.py:164-182 | two plans for disjoint coordinate sets, run in sequence, carry out both |
| GuessBondOrders.MovedToTwice | src/commands/guess_bond_orders.py:164-182 | moving a pair over F and then over G is the same as moving it over F and G together |
| GuessBondOrders.DeleteAllSpec | src/commands/guess_bond_orders.py:157-161 | no bond is added; a bond joining no planned pair survives; with simple bonds, no bond joining a planned pair is left |
| GuessBondOrders.DeleteFirstSimple | src/commands/guess_bond_orders.py:158-161 | in simple bonds, deleting the first bond that joins two atoms leaves none joining them |
| GuessBondOrders.RestyleSpec | src/commands/guess_bond_orders.py:184-198 | a class group gets its mouse mode's colour and dashes exactly when it draws and its list is not empty; other styles are unchanged |
| GuessBondOrders.UsedInPlanOver | src/commands/guess_bond_orders.py:147-152 | a class appears in the plan exactly when the pass restyles it |
| GuessBondOrders.GroupedDistinct | src/commands/guess_bond_orders.py:147-157 | going class by class over the lists keeps the assignments distinct when no class repeats |
| GuessBondOrders.GroupedAll | src/commands/guess_bond_orders.py:90-97 | grouping by the six classes of the dict keeps exactly the assignments of the list |
| PairClassifier.ClassifyPair | src/commands/guess_bond_orders.py:106-145 | broken exactly beyond the transition-state cutoff when the transition-state tolerance is larger; half exactly strictly between the two cutoffs; never broken when the tolerances do not favour it; single for hydrogen or an unknown key |
| PairClassifier.ClassifyPairMeaning | src/commands/guess_bond_orders.py:106-145 | the if-chain agrees with the declarative class choice in both directions, including "no class" for an unanticipated label |
| PairClassifier.WithinBondedUsesTable | src/commands/guess_bond_orders.py:106-145 | a pair within its bonded cutoff is never broken or half, since a larger transition-state tolerance gives the larger cutoff; its class is exactly the reference table's choice |
| PairClassifier.DefaultsBreakFarPairs | src/commands/guess_bond_orders.py:33-34 | with the default tolerances 0.35 and 0.6, a pair beyond its transition-state cutoff is broken |
| PairClassifier.ClassifyFrameMeaning | src/commands/guess_bond_orders.py:99-145 | the class lists of a frame hold exactly the pairs j < i of the selection, each with the verdict of its own distance |
| PairClassifier.ClassifyFrame | src/commands/guess_bond_orders.py:99-102 | no two assignments are about the same two atoms, and none pairs an atom with itself |
| PairClassifier.CollectMembers | src/commands/guess_bond_orders.py:99-113 | an assignment is collected exactly when it comes from a visited pair j < i that has that verdict |
| PairClassifier.CutoffCacheCovers | src/commands/guess_bond_orders.py:62-75 | a cache that builds covers every key the classification loop looks up |
| Thresholds.CutoffCacheSpec | src/commands/guess_bond_orders.py:62-75 | every visited pair finds its key, and the cutoffs stored there are those of the first visited pair with that key |
| Thresholds.CutoffCacheErrors | src/commands/guess_bond_orders.py:70-75 | the cache builds whenever every element has a radius; a KeyError names a selected element without one |
| Thresholds.MemoSpec | src/commands/guess_bond_orders.py:67-75 | filling fails exactly when an item that is first with its key fails; otherwise the table holds exactly the keys, each with its first item's value |
| Thresholds.MemoTs | src/io.py:38-46 | item lists that differ only in bonded cutoffs fail alike, or build caches with equal keys and equal transition-state cutoffs |
| Thresholds.CutoffCacheTs | src/io.py:41-46 | `tolerance` changes neither the transition-state cutoffs nor the KeyError of the cache |
| Thresholds.PairCutoffOrdered | src/commands/guess_bond_orders.py:70-75 | when the bond tolerance is at most the transition-state tolerance (and the sums are non-negative), the bonded cutoff is at most the transition-state cutoff |
| Thresholds.LowerPairsMembers | src/commands/guess_bond_orders.py:64-65 | the double loop visits each pair j <= i < n once, pair (i, j) at position Tri(i) + j |
| Thresholds.VisitOrder | src/commands/guess_bond_orders.py:64-65 | a pair that is not visited before another sits at no earlier position: visiting order is the order of (i, j) by row, then column |
| Thresholds.Nearest | src/commands/guess_bond_orders.py:127-132 | the scan returns the earliest entry with the least difference from d; an empty list gives none |
| Thresholds.NearestUnique | src/commands/guess_bond_orders.py:127-132 | any earliest-nearest entry is the one the scan returns |
| Geometry.CondensedLookup | src/commands/guess_bond_orders.py:88-105 | the condensed vector has n(n-1)/2 entries, and the source's index formula finds the squared distance of pair (j, i) |
| Geometry.CondensedIndexInjective | src/commands/guess_bond_orders.py:105 | distinct pairs j < i get distinct indices |
| Geometry.CondensedIndexRange | src/commands/guess_bond_orders.py:105 | the index of a pair j < i < n lies in [0, n(n-1)/2) |
| Geometry.CondensedIndexOfSelfPair | src/io.py:68 | for j == i the formula gives the index of pair (i-1, n-1), or -1 when i is 0 |
| Geometry.PairwiseSqDistLength | src/io.py:62 | `pdist` of n points has n(n-1)/2 entries |
| BondClasses.NamesIdentifyClasses | src/mouse_modes.py:12-19 | each class's group name is looked up to that class, and `bo_names` lists each class exactly once |
| BondClasses.AllClassesListed | src/mouse_modes.py:12-19 | `bo_names` covers every class |
| BondClasses.ClassNamed | src/mouse_modes.py:113-147 | a name that is looked up to a class is that class's group name |
| BondClasses.DrawnStylesDistinct | src/mouse_modes.py:120-147 | no two classes that draw pseudobonds share both colour and dashes |
| BondTable.DeleteFirstJoiningSpec | src/mouse_modes.py:77-80 | without a joining bond nothing changes; otherwise exactly the first joining bond is removed |
| BondTable.DeleteFirstJoiningKeeps | src/commands/guess_bond_orders.py:158-161 | deletion keeps every bond that does not join the pair and removes at most one bond |
| BondTable.MovedToSpec | src/mouse_modes.py:83-110 | after the move the pair is in class c at every frame (when the mode draws), in no other class there, and every other key is unchanged |
| BondTable.AddOverIs | src/mouse_modes.py:90-91 | adding over the frames adds exactly one key per frame |
| BondTable.RemoveOverIs | src/commands/guess_bond_orders.py:179-182 | removal over the frames removes exactly the keys of that class joining the pair there |
| BondTable.RemoveOthersAtIs | src/commands/guess_bond_orders.py:169-182 | removal from the other kinds at cs removes exactly the keys of those kinds joining the pair at cs |
| BondTable.PairOfJoins | src/mouse_modes.py:109 | the recorded pair joins its atoms in either order, and a pair of distinct atoms joins only them |
| MouseModes.DrawNewPbond | src/mouse_modes.py:83-110 | the pair is redrawn in the mode's class from the active set through the last id; the group takes the mode's style when the mode draws; nothing else changes |
| MouseModes.DrawNewPbondMoves | src/mouse_modes.py:83-110 | the table left behind is the pair moved to the mode's class over the mode's frames |
| MouseModes.RemoveKindsOverIs | src/mouse_modes.py:100-110 | the deletion loop removes exactly the other kinds' pseudobonds joining the pair in the mode's frames |
| MouseModes.IdRangeMembers | src/mouse_modes.py:90 | `range(lo, hi + 1)` holds exactly the ids lo through hi |
| MouseModes.MouseUp | src/mouse_modes.py:30-81 | only the picked structure can change and every structure stays valid; a deleted first atom counts as none; picking nothing changes nothing and does not reset |
| MouseModes.MouseUpPseudobond | src/mouse_modes.py:39-47 | a picked pseudobond of the mode's class is deleted and the mode resets; one of another class has its pair redrawn in the mode's class |
| MouseModes.MouseUpOtherPseudobond | src/mouse_modes.py:39-47 | a picked pseudobond of a group outside the six classes has its pair redrawn in the mode's class, without a reset |
| MouseModes.MouseUpBond | src/mouse_modes.py:49-54 | a picked real bond has its pair redrawn in the mode's class, is itself deleted, and the mode resets |
| MouseModes.MouseUpAtom | src/mouse_modes.py:56-81 | with no first atom the picked atom becomes it; a different atom of the first atom's structure has the pair redrawn, loses the first real bond joining the two, and the mode resets; any other atom changes nothing |
| MouseModes.AddThenRemoveMoves | src/mouse_modes.py:90-110 | adding the pair over the id range and then removing the other kinds there is the move of the pair to the mode's class over those frames |
| SdfRows.MolCodeRoundTrip | src/io.py:14-20 | every code the map gives reads back as its order, and only 0.5, 1, 1.5, 2 and 3 have a code |
| SdfRows.KeptOrderMeaning | src/io.py:73-89 | the kept order is 1 for hydrogen or an unknown key, otherwise `float` of the nearest entry's label (0 for an empty list); it fails only on a label `float` rejects |
| SdfRows.PairDistance | src/io.py:62-69 | with two or more atoms every visited pair reads a distance: its own for j < i, another pair's for j == i; with one atom the self pair's index -1 raises IndexError |
| SdfRows.FrameRowsMeaning | src/io.py:65-89 | the rows of a frame are exactly the pairs j <= i whose read distance is within the transition-state cutoff, each with its kept order, in loop order |
| SdfRows.FrameRowsErrors | src/io.py:65-89 | a frame's rows fail only for a single atom (IndexError) or for a label `float` rejects (ValueError) |
| SdfRows.NoHalfRows | src/io.py:69-72 | the order-0.5 append is unreachable, so order 0.5 only comes from a reference label that converts to 0.5 |
| SdfRows.PairRowsNoHalf | src/io.py:69-72 | one pair's rows carry order 0.5 only through a label that converts to 0.5 |
| SdfRows.RowsLargerFirst | src/io.py:65-72 | every row names its larger atom index first |
| SdfRows.WriterRowsTs | src/io.py:69 | the rows depend only on the transition-state cutoffs of the cache |
| SdfText.DecRoundTrip | src/io.py:95 | `%i` of n reads back as n |
| SdfText.DecInjective | src/io.py:95 | different numbers are written differently |
| SdfText.DecFitsThree | src/io.py:114 | a number below 1000 fits a `%3i` column |
| SdfText.PaddedNumberReadsBack | src/io.py:114 | a padded `%Ni` column, with its spaces trimmed, reads back as the number |
| SdfText.TokensRender | src/io.py:95-110 | whitespace-splitting a line of space-led words gives back the words |
| SdfWriter.CountsLine3000ReadsBack | src/io.py:95 | the V3000 COUNTS line gives back the atom count, the bond count and the three zeros |
| SdfWriter.AtomLine3000ReadsBack | src/io.py:97-100 | a V3000 atom line gives back its 1-based serial number and its element |
| SdfWriter.BondLine3000ReadsBack | src/io.py:103-109 | a V3000 bond line gives back its serial number, its type code and its two 1-based atoms |
| SdfWriter.CountsLine2000ReadsBack | src/io.py:114 | the V2000 counts line gives back both counts while each is below 1000 |
| SdfWriter.AtomLine2000ReadsBack | src/io.py:115-120 | a V2000 atom line gives back its element in columns 32-34 when the coordinates fit their columns |
| SdfWriter.BondLine2000ReadsBack | src/io.py:121-126 | a V2000 bond line gives back its two 1-based atoms and its type code while each fits three columns |
| SdfWriter.BondLinesSpec | src/io.py:103-109 | the bond lines are those of the rows before the first order without a code, and the KeyError names that order |
| SdfWriter.CodedLinesShape | src/io.py:103-109 | the rows before the first order without a code each give one line, and the KeyError names that order |
| SdfWriter.Ctab3000Layout | src/io.py:91-111 | the V3000 table line by line: opening lines, COUNTS, one line per atom, the bond lines, and the closing lines only when every row had a code |
| SdfWriter.Ctab3000CountsReadBack | src/io.py:94-95 | a reader finds the atom and bond counts in the COUNTS line of the table |
| SdfWriter.Ctab3000AtomsReadBack | src/io.py:96-100 | a reader finds each atom's serial number and element on its line of the table |
| SdfWriter.Ctab3000BondsReadBack | src/io.py:102-109 | a reader finds each written bond's serial number, code and atoms on its line of the table |
| SdfWriter.Ctab2000Layout | src/io.py:113-126 | the V2000 table line by line: the counts line, one line per atom, and the bond lines |
| SdfWriter.Ctab2000CountsReadBack | src/io.py:113-114 | a column reader finds both counts in the counts line while each is below 1000 |
| SdfWriter.Ctab2000AtomsReadBack | src/io.py:115-120 | a column reader finds each atom's element on its line of the table |
| SdfWriter.Ctab2000BondsReadBack | src/io.py:121-126 | a column reader finds each written bond's atoms and code on its line of the table, while the atom numbers fit their columns |
| SdfWriter.BlocksRecords | src/io.py:55-132 | a file written without an exception reads as one record per coordinate set, in order, each made of header, connection table, "M END" and "$$$$" |
| SdfWriter.SaveSdfRecords | src/io.py:48-58 | with `coordsets`, one record per coordinate set in id order, otherwise one for the active set, each framed by the header and the footer |
| SdfWriter.SaveSdfUntouched | src/io.py:33-54 | the file is left untouched exactly when the cutoff cache raises, and the KeyError names an atom's element without a radius |
| SdfWriter.SaveSdfOutcome | src/io.py:55-62 | an opened file always starts with the header; a single atom raises IndexError(-1) right after it; an unknown style raises NotImplementedError right after it, unless a label `float` rejects raises ValueError first |
| SdfWriter.ToleranceIgnored | src/io.py:26-46 | changing `tolerance` does not change the file |
| SdfWriter.HalfCodeNeverWritten | src/io.py:69-72 | unless a reference label converts to 0.5, no V3000 bond line of a frame carries code 8 |
| SdfWriter.BondLinesNoCodeEight | src/io.py:103-109 | rows without order 0.5 give bond lines without code 8 |
| FrameEdit.FramesOfAll | src/commands/edit_coordinate_sets.py:31-33 | reading the frame of every id in order gives the frames in order |
| FrameEdit.FlipCsSpec | src/commands/edit_coordinate_sets.py:27-36 | flipping keeps the frame count, puts old frame n-1-k at k, and flipping the result again restores the original order |
| FrameEdit.ReverseReverse | src/commands/edit_coordinate_sets.py:34 | reversing twice gives the sequence back |
| FrameEdit.TrimCsSpec | src/commands/edit_coordinate_sets.py:38-48 | trimming keeps the frames between the clamped Python slice bounds, in order |
| FrameEdit.TrimCsWithin | src/commands/edit_coordinate_sets.py:45 | non-negative `first` and `last` that fit leave n-first-last frames, and frame k is old frame first+k |
| FrameEdit.TrimCsToEnd | src/commands/edit_coordinate_sets.py:41-45 | with `last` = 0, every frame from `first` to the end is kept |
| FrameEdit.TrimCsEmpty | src/commands/edit_coordinate_sets.py:45 | when `first` + `last` cover every frame, nothing is kept and no error is raised |
| FrameEdit.TrimCsWraps | src/commands/edit_coordinate_sets.py:45 | a `last` larger than the frame count gives a negative stop, which counts from the end, so the kept frames end at 2n-last |
| FrameEdit.CombineCs | src/commands/edit_coordinate_sets.py:50-68 | an empty selection fails; different atom counts fail first; then different elements at any index fail; otherwise every model's frames are collected in selection order, with the total count |
| FrameEdit.AllFramesAt | src/commands/edit_coordinate_sets.py:61-64 | frame k of model q lands right after all the frames of the models before q |

## Left out

- `save_fbx` and the Blender script it writes are not part of this model. It is an exporter that runs another program.
- Command registration and argument parsing (`__init__.py`, the `CmdDesc` tables) and `presets.py` are left out. They are the host's glue.
- The `ValueError` branch of the coordinate-set selector is left out. The typed argument (`IntArg` or "all") never hands the command a value `int()` rejects.
- The logger is left out. Logged errors are error values, and warnings and status messages are dropped.
- `MouseUp`: the base `MouseMode.mouse_up` and `reset()` are unseen host code. The result only records whether `reset()` was called.
- Pseudobond groups other than the six class groups (missing structure, hydrogen bonds, ...) are not part of the table. A pick of one of their pseudobonds names only its two atoms.
- Pseudobond groups are a set of (pair, coordinate set, class) keys. Duplicate pseudobonds of one pair, class and coordinate set collapse into one key, and an empty group is not told apart from a missing one.
- `np.sqrt`, `bo_data.key`, `RADII`, the `bo_data.bonds` reference table, `float()` of a label and `%10.6f`/`%10.4f` formatting are parameters. Floating-point arithmetic is not modelled: distances are reals.
- `combine_cs` then runs the host's `combine` and `mcopy` commands to make the new model. The model stops at the frame sequence handed to `add_coordsets`.
- `FlipCs`, `TrimCs`: the result is the frame sequence handed to `add_coordsets(..., replace=True)`. The ids the host then assigns, and what it does with an empty array, are not modelled.
- `TrimCs` follows the code's Python slicing. An out-of-range `first` or `last` clamps, and a `last` larger than the frame count wraps, instead of raising an error.
- `CountsLine2000ReadsBack`, `BondLine2000ReadsBack`, `Ctab2000CountsReadBack`, `Ctab2000BondsReadBack`: stated only while the numbers are below 1000. Past that, `%3i` widens its column and a column reader cannot find the numbers.
- `AtomLine3000ReadsBack`, `AtomLine2000ReadsBack`, `Ctab3000AtomsReadBack`, `Ctab2000AtomsReadBack`: assume the formatted coordinates print as single words that fit their columns. Float formatting is a parameter.
