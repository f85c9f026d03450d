# fluid-solver-gui: a Dafny model of the input-file writer and its row lists

fluid-solver-gui is a Qt form that collects the settings of a fluid/acoustic
solver and saves them as a plain-text input file of `key = value` lines. This
project models the three pieces of logic inside that form.

1. **The input-file writer** (`save_input_file`; trial.py carries a copy of main.py's):
   - It maps dropdown labels to solver keywords through fixed tables, each with a fallback.
   - It reads the boundary-condition rows of the seven variable sub-tabs and sorts them into flow, mesh and acoustic lists.
   - It filters the mesh list and rewrites mesh types by tag.
   - It writes each list as a counted section.
   - It writes the prescribed-motion groups, then the non-empty probe and surface file entries.
2. **The Geometry tab's list of boundary-file rows** (class `GeometryTab`):
   - Add appends a row; remove takes out the first row with that widget, never the last row left.
   - A refresh renumbers the labels `B-1..B-n`. Delete buttons show only when there is more than one row.
3. **The Boundary tab's per-variable row lists** (class `BoundaryTab`):
   - The type options a sub-tab offers are fixed.
   - A row's positional layout fixes what sits at each position; the writer relies on it.
   - Labels are renumbered after every add and remove.
   - The active sub-tab is rebuilt with one row per geometry boundary, each named after its file's stem.

## Modules

- **Wrappers**: `Option`.
- **Strings**:
  - decimal printing and parsing;
  - ASCII lower-casing, `str.replace` of one character and substring search;
  - `os.path.basename` and `os.path.splitext` (posix rules).
- **Seqs**: `Filter`; `RemoveFirst`, which is `pop` of the first match.
- **Widgets**: widget identity, the item kinds a row can hold, the `B-n` labels.
- **Records**:
  - the line format of the file: `// title`, a count line, records opened by their record-key line;
  - a decoder for it, with a round-trip lemma.
- **Geometry**: class `GeometryTab`.
- **Boundary**: class `BoundaryTab`.
- **Keywords**: the label-to-keyword tables of the writer.
- **BcCollect**: the nested loop that reads boundary rows into the three lists.
- **InputFile**: the form state, the header, the six sections, and `SaveInputFile`.

### How the model represents things

- **Form state.** The form when the user saves is a `Form` value: texts, combo texts, check-box states, integer tags, and the rows of every sub-tab.
- **The file.** It is a sequence of lines: each `f.write("x\n")` is one line `x`, and a bare `"\n"` is an empty line.
- **Numeric spin-box values.** They are kept as the tokens the program prints.
- **Row identity.** A row is identified by a `Widget` object. The tabs' lists are `seq` fields of the classes that their methods reassign.
- **The geometry reference.** The Boundary tab's `geometry_boundary_rows` is the Geometry tab's own list (main.py:59). It is modelled as a reference to the `GeometryTab` object, so the Boundary tab always sees that tab's current rows.

## Model

| member | source | states |
|---|---|---|
| Keywords.ElemType | main.py:110-111 | the element type is one of the table's keywords; any label outside the table gives `4NodeQuad` |
| Keywords.ElemTypeKeywords | main.py:110 | the three connectivity labels map to `4NodeQuad`, `3NodeTri`, `6NodeTri` |
| Keywords.FluidEqn | main.py:117-118 | the fluid equation is a table keyword; an unknown label gives `navierStokes` |
| Keywords.MeshEqn | main.py:119-120 | the mesh equation is a table keyword; an unknown label gives `linearElasticPrescribed` |
| Keywords.AcousticEqn | main.py:121-122 | the acoustic equation is a table keyword; an unknown label gives `none` |
| Keywords.Fallbacks | main.py:117-122 | each fallback equals the keyword of a real option (`Incompressible Navier-Stokes`, `Prescribed`, `None`) |
| Keywords.FluidEqnKeywords | main.py:117 | each of the four fluid labels maps to its own keyword: `navierStokes`, `compressibleNS`, `euler`, `stokes` |
| Keywords.MeshEqnKeywords | main.py:119 | each of the four mesh labels maps to its own keyword: `none`, `ale`, `linearElasticPrescribed`, `linearElastic` |
| Keywords.AcousticEqnKeywords | main.py:121 | each of the five acoustic labels maps to its own keyword: `none`, `linearAcoustics`, `lpce`, `helmholtz`, `waveEquation` |
| Keywords.ElemTypeInjective | main.py:110 | distinct connectivity labels give distinct element types |
| Keywords.FluidEqnInjective | main.py:117 | distinct fluid labels give distinct keywords |
| Keywords.MeshEqnInjective | main.py:119 | distinct mesh labels give distinct keywords |
| Keywords.AcousticEqnInjective | main.py:121 | distinct acoustic labels give distinct keywords |
| Keywords.OptionsCovered | trial.py:268-280 | every label the connectivity and equation combos offer is a key of its table, so a label chosen in the form never falls back |
| Keywords.NDims | main.py:123 | `nDims` holds no `D`; every other character of the label is kept, as often as it occurs and in its order |
| Keywords.NDimsOptions | main.py:123 | `2D` gives `2`, `3D` gives `3` |
| Keywords.RestartFlag | main.py:134 | the flag parses as 1 exactly when the box is checked, else 0 |
| InputFile.HeaderLines | main.py:104-165 | the header the save writes first: the title comment and a blank line, then the geometry, solver, fluid-property and initial-condition blocks |
| InputFile.HeaderValues | main.py:104-145 | reading the header back gives the file names, the element-type, fluid, mesh and acoustic keywords, the lower-cased simulation type, `nDims` and the restart flag |
| InputFile.HeaderReadsBack | main.py:104-165 | each of the four header blocks decodes back to exactly its fields, in order |
| InputFile.HeaderKeysValid | main.py:107-165 | header keys are words, and no key repeats within the geometry or solver block |
| InputFile.BlockReadsBack | main.py:107-111 | a block is its comment line, its field lines and a blank line, and the field lines decode to the fields |
| InputFile.GeometryTabKeyword | tabs/geometry_tab.py:22-26 | the connectivity type the Geometry tab offers is always in the element table, so the fallback never applies |
| Widgets.CurrentText | main.py:189 | a combo's current text is one of its options, or empty when nothing is selected |
| BcCollect.CategoryOf | main.py:177-202 | the list a sub-tab's rows go to: mesh exactly when the lower-cased variable contains `disp`; acoustic exactly when the variable is not a displacement and the name contains `Acoustic`; flow otherwise |
| BcCollect.RowReads | main.py:180-202 | the conditions one sub-tab's rows give, in row order, or none once a row fails: at most one per row, all of the sub-tab's category |
| BcCollect.TabReads | main.py:175-202 | a sub-tab reads only when its name is in the variable table, and gives at most one condition per row |
| BcCollect.Reads | main.py:174-202 | the conditions of all sub-tabs in sub-tab order; when it succeeds, every sub-tab read |
| BcCollect.ReadRow | main.py:180-202 | a row that is read has a type other than `none`, the sub-tab's variable, and a tag exactly on displacement sub-tabs |
| BcCollect.CollectBcs | main.py:167-202 | the nested loop succeeds exactly when every sub-tab and row can be read; the three lists are then those rows split by category, in sub-tab and row order |
| BcCollect.CollectRows | main.py:180-202 | the inner loop over one sub-tab's rows: it extends the lists by that sub-tab's reads, and fails on a row it cannot read |
| BcCollect.Partition | main.py:196-202 | every read condition lands in exactly one list: the three list lengths add up to the number read, and each condition is in its own category's list |
| BcCollect.ReadsWell | main.py:189-197 | no read condition has type `none`; exactly the mesh conditions carry a tag |
| BcCollect.ReadsStop | main.py:175-202 | once a sub-tab fails to read, the whole collection fails (the exception leaves the loop) |
| BcCollect.RowReadsStop | main.py:180-202 | once a row fails to read, the sub-tab fails |
| BcCollect.TabCategory | main.py:171-178 | each of the seven sub-tabs has a variable; velocity tabs go to flow, displacement tabs to mesh, the acoustic tab to acoustic; only displacement sub-tabs carry tags |
| BcCollect.NewRowSkipped | main.py:189-191 | a row freshly added (type `None`) is read as skipped |
| BcCollect.ShapedRowRead | main.py:184-197 | a row laid out by the Boundary tab never fails to read; it is skipped exactly when its type lowers to `none`, else it reads name, type, value and (on displacement sub-tabs) tag |
| BcCollect.ShapedRowsRead | main.py:180-202 | a sub-tab of laid-out rows always reads |
| BcCollect.BoundaryTabReads | main.py:174-202 | the rows of a valid Boundary tab always read, whatever the user has typed or chosen in them |
| InputFile.FlowRecord | main.py:208-213 | a flow record's head parses back to its index; it has four fields, three when the type is `matchmeshvel` |
| InputFile.FlowSection | main.py:204-214 | the flow section decodes back to its records; `numberBC` is their number; record i has index i, the type, variable and nodes, and a `val` exactly when the type is not `matchmeshvel` |
| InputFile.FlowRecordSays | main.py:208-213 | one flow record holds index, type, var, nodes, and `val` unless the type is `matchmeshvel` |
| InputFile.WriteFlowBcs | main.py:205-213 | the writing loop produces exactly the flow section |
| InputFile.MeshKept | main.py:217 | the filter of the mesh list: a condition with a positive tag, or of a type other than `prescribed`, is always kept |
| InputFile.MeshType | main.py:222 | the written type is `prescribed` or the row's own type, and `prescribed` whenever the tag is positive |
| InputFile.MeshRecord | main.py:221-229 | a mesh record's head parses back to its index; it has four fields |
| InputFile.MeshSection | main.py:216-230 | the kept mesh conditions are those with a non-zero tag or a type other than `prescribed`, in order; the section decodes back to them, numbered from 0, and `numberBC` counts them |
| InputFile.MeshTypeRule | main.py:217-222 | the written type is `prescribed` exactly when the tag is positive or the type was `prescribed`; otherwise it is the row's own type |
| InputFile.MeshRecordSays | main.py:221-229 | a prescribed mesh record carries `tag` and no `val`; any other carries `val` and no `tag` |
| InputFile.WriteMeshBcs | main.py:217-229 | the writing loop produces exactly the mesh section of the filtered list |
| InputFile.AcousticRecord | main.py:236-240 | an acoustic record's head parses back to its index; it has four fields |
| InputFile.AcousticSection | main.py:232-241 | the acoustic section decodes back to every condition, numbered from 0, with its value |
| InputFile.AcousticRecordSays | main.py:236-240 | one acoustic record holds index, type, var, nodes and val |
| InputFile.WriteAcousticBcs | main.py:233-240 | the writing loop produces exactly the acoustic section |
| InputFile.MotionRecord | main.py:255-271 | a motion group's head parses back to its 1-based tag; it has one field per motion key |
| InputFile.MotionSection | main.py:243-272 | `numberBC` is the number of groups; the groups are tagged 1..n in order; every key holds its group's value; the pitch axis is 0,0 and the chord length 1 |
| InputFile.MotionKeysValid | main.py:256-271 | the sixteen motion keys are distinct words, none of them `tag` |
| InputFile.WritePrescribedMotion | main.py:245-271 | the writing loop produces exactly the prescribed-motion section |
| InputFile.FileRecord | main.py:285-303 | an output-file record's head parses back to its 1-based tag, and its only field is `nodes` holding the text |
| InputFile.FileSection | main.py:274-303 | an output list keeps exactly its non-empty texts, in order; `numberFiles` counts them; they are tagged 1..k, and each record's nodes is its text |
| InputFile.WriteFiles | main.py:276-287 | the collecting loop keeps the non-empty texts; the writing loop then produces exactly the file section |
| InputFile.Save | main.py:96-310 | what a save produces: cancelled exactly when the path is empty; a failed save has written just the header |
| InputFile.SaveInputFile | main.py:96-310 | the whole save: cancelled on an empty path; the header alone when a row cannot be read; otherwise the header and the six sections separated by blank lines, ending with `// End of input file` |
| InputFile.CancelledIff | main.py:98-100 | nothing is written exactly when the dialog returns no path |
| InputFile.FailedIff | main.py:174-202 | the save stops exactly when a boundary row cannot be read, and then the file holds just the header |
| InputFile.SavedLayout | main.py:103-214 | a saved file starts with the header, then the flow section and a blank line, and its last line is `// End of input file` |
| InputFile.BoundaryTabSaves | main.py:96-310 | with the rows of a valid Boundary tab and a path, the save always completes |
| InputFile.MatchMeshVelWritesNoValue | tabs/boundary_tab.py:104-105 | choosing `matchMeshVel` on a velocity sub-tab lowers to `matchmeshvel`, so that flow record has no value |
| InputFile.PrescribedOption | tabs/boundary_tab.py:106-107 | choosing `prescribed` on a displacement sub-tab: with tag 0 the row is dropped from the mesh section; with a positive tag its tag is written |
| InputFile.LowerMatchMeshVel | main.py:189 | lower-casing `matchMeshVel` gives `matchmeshvel` |
| Records.SectionRoundTrip | main.py:205-214 | a section written from records whose keys are words, none the record key, decodes back to those records: count, order and contents |
| Records.DecodeRender | main.py:207-213 | the records' lines decode back to the records |
| Records.DecodeFieldLines | main.py:209-213 | field lines decode back to their fields |
| Strings.ParseNatToString | main.py:206 | a written count or index parses back to itself |
| Strings.ParseIntToString | main.py:227 | a written tag parses back to itself |
| Strings.NatToStringInjective | main.py:208 | distinct indices print differently |
| Strings.Lower | main.py:189 | lower-casing keeps the length, turns each capital into its own small letter, leaves non-capitals alone and leaves no capital |
| Strings.RemoveCharSpec | main.py:123 | removing a character leaves none of it, keeps every other character as often as it occurs, and shortens the text by its occurrences |
| Strings.RemoveCharKeepsOrder | main.py:123 | each kept character lands right after what is kept of the characters before it, so the order is kept |
| Strings.RemoveCharAppend | main.py:123 | removing from a concatenation is removing from each part |
| Strings.StemOfPath | tabs/boundary_tab.py:160 | the stem of `dir/name.ext` is `name` |
| Strings.StemWithoutDot | tabs/boundary_tab.py:160 | a basename without a dot is its own stem |
| Strings.StemIsPrefix | tabs/boundary_tab.py:160 | the stem is a prefix of the basename |
| Strings.StemNoSlash | tabs/boundary_tab.py:160 | the stem holds no `/` |
| Strings.BasenameNoSlash | tabs/boundary_tab.py:160 | the basename holds no `/` |
| Seqs.FilterMembers | main.py:217 | a comprehension filter keeps exactly the members meeting its condition |
| Seqs.RemoveFirstAt | tabs/geometry_tab.py:181-184 | popping the first match removes exactly that element and keeps the others in order |
| Seqs.RemoveFirstNone | tabs/geometry_tab.py:181-184 | without a match the list is unchanged |
| Widgets.RowLabelInjective | tabs/geometry_tab.py:196 | distinct row numbers get distinct labels |
| Geometry.GeometryTab.constructor | tabs/geometry_tab.py:124 | a new tab has exactly one row, labelled `B-1`, with no file and its delete button hidden |
| Geometry.GeometryTab.AddBoundaryRow | tabs/geometry_tab.py:128-168 | one row is appended at the end, labelled `B-(old length + 1)` with an empty file, and the list is then refreshed |
| Geometry.GeometryTab.RemoveBoundaryRow | tabs/geometry_tab.py:170-188 | with at most one row nothing changes; otherwise the first row with that widget is popped and the list refreshed |
| Geometry.GeometryTab.RefreshUi | tabs/geometry_tab.py:190-198 | every row gets label `B-(i+1)` and placeholder `Select file for Boundary (i+1)...`; delete buttons are visible exactly when there is more than one row; widgets and files are kept |
| Geometry.GeometryTab.EditFile | tabs/geometry_tab.py:140-142 | typing into row i changes that row's file text only |
| Geometry.GeometryTab.ConnTypeText | tabs/geometry_tab.py:217-219 | the connectivity text is one of `CONNECTIVITY_TYPES` |
| Geometry.Refreshed | trial.py:231-237 | the refreshed list is numbered and keeps every row's widget and file in order |
| Geometry.NumberedIsFixed | trial.py:231-237 | refreshing a numbered list changes nothing |
| Geometry.RefreshIdempotent | trial.py:231-237 | refreshing twice is refreshing once |
| Geometry.RemoveKeepsOthers | trial.py:222-225 | removal keeps every other row; the length drops by one exactly when the widget was present |
| Geometry.RemoveKeepsDistinct | trial.py:222-225 | removal keeps widgets distinct and takes out the widget's only row |
| Geometry.RemoveLeavesOne | trial.py:220 | removing from more than one row leaves at least one |
| Boundary.TypeOptions | tabs/boundary_tab.py:104-111 | every option list starts with `None`, `Dirichlet` |
| Boundary.VelocityTabs | tabs/boundary_tab.py:104-105 | velocity sub-tabs offer `None`, `Dirichlet`, `matchMeshVel`, and no tag |
| Boundary.DisplacementTabs | tabs/boundary_tab.py:106-107 | displacement sub-tabs offer `None`, `Dirichlet`, `prescribed`, and a tag |
| Boundary.AcousticTab | tabs/boundary_tab.py:108-109 | the acoustic sub-tab offers `None`, `Dirichlet`, and no tag |
| Boundary.OtherTab | tabs/boundary_tab.py:110-111 | any other name offers `None`, `Dirichlet`, `Neumann`, `Robin` |
| Boundary.RowItems | tabs/boundary_tab.py:115-131 | a new row has the label at 0, the given name at 1 (empty when `add_bc_row` builds the row), the type combo at 3 showing `None`, the value at 5 and, on displacement sub-tabs only, a zero tag at 7 |
| Boundary.Relabelled | tabs/boundary_tab.py:175-184 | after relabelling, row i reads `B-(i+1)`, and nothing else in the rows changes |
| Boundary.RelabelIdempotent | trial.py:635-644 | relabelling twice is relabelling once |
| Boundary.RelabelNumbered | trial.py:635-644 | relabelling numbered rows changes nothing |
| Boundary.RemoveShaped | tabs/boundary_tab.py:168-173 | removal keeps every remaining row's layout |
| Boundary.BoundaryTab.constructor | tabs/boundary_tab.py:59-83 | seven empty sub-tabs, then the initial refresh: the first sub-tab holds one row `B-1` with an empty name, the others none |
| Boundary.BoundaryTab.AddBcRow | tabs/boundary_tab.py:85-135 | one laid-out row is appended to the sub-tab, labelled `B-(old count + 1)` whatever label was passed; other sub-tabs are unchanged |
| Boundary.BoundaryTab.RemoveGenericRow | tabs/boundary_tab.py:168-173 | the first row with that widget leaves the sub-tab, and the rest are relabelled |
| Boundary.BoundaryTab.RefreshBcLabels | tabs/boundary_tab.py:175-184 | the sub-tab's rows are relabelled `B-1..B-n` |
| Boundary.Prefill | tabs/boundary_tab.py:157-166 | the name a rebuilt row gets: empty on the initial build; otherwise, when not empty, the stem of its geometry file, with no `/` in it |
| Boundary.BoundaryTab.ClearTab | tabs/boundary_tab.py:148-151 | taking rows from the front until none is left empties that sub-tab and nothing else |
| Boundary.BoundaryTab.FillTab | tabs/boundary_tab.py:153-166 | the loop appends `count` rows to the emptied sub-tab: row i is labelled `B-(i+1)` and prefilled from geometry file i; the other sub-tabs and the tab stay valid |
| Boundary.BoundaryTab.AddRebuiltRow | tabs/boundary_tab.py:154-166 | one loop step appends exactly one row, named after the stem of its geometry file when that file is non-empty on a later refresh, and changes no other sub-tab |
| Boundary.RebuiltSnoc | tabs/boundary_tab.py:153-166 | appending the next prefilled row to a rebuilt prefix keeps it rebuilt, one row longer |
| Boundary.RelabelShaped | tabs/boundary_tab.py:175-184 | relabelling laid-out rows leaves a valid sub-tab |
| InputFile.WriteLaterSections | main.py:216-305 | the writes after the flow section produce the mesh, acoustic, motion, probe and surface sections, each followed by a blank line, and then `// End of input file` |
| Boundary.BoundaryTab.RefreshActiveBoundaryTab | tabs/boundary_tab.py:137-166 | other sub-tabs are untouched; the active one is emptied and refilled with 1 row when initial, else one per geometry row; row i is `B-(i+1)` and named after the stem of geometry file i when that file is non-empty and the build is not initial |
| Boundary.BoundaryTab.SetGeometryBoundaryRows | tabs/boundary_tab.py:186-188 | the tab now reads the given Geometry tab's rows |
| Boundary.BoundaryTab.SetCurrentTab | trial.py:605 | switching sub-tab updates the active index only |
| Boundary.BoundaryTab.EditRow | main.py:187-197 | the user changes one item of one row in place, keeping its kind, so the layout the writer reads is kept |
| Boundary.BoundaryTab.Snapshot | main.py:174-175 | the sub-tabs the writer iterates: the seven names in order, each with its rows' items |

## Left out

- Qt construction, layouts, styling and stylesheets are left out. This covers the whole of tabs/solver_tab.py, tabs/physical_tab.py, tabs/prescribed_tab.py, tabs/output_tab.py and utils/. The writer's view of those tabs is the `Form` value: combo texts, value tokens, check-box state and the lists of groups and texts.
- The file dialog and `open`/`write` are left out. The chosen path is a parameter, and the empty path stands for a cancelled dialog. An I/O error from `open` is not modelled: the only failure modelled is one raised while reading the boundary rows.
- The printed error message and traceback after an exception are console output and are not modelled.
- Floating point is not modelled: `:.6e` formatting, Python float `repr`, `int()` truncation of spin-box values, and `calculate_nondim` (Reynolds and Mach numbers). Numeric values are opaque tokens.
- Exceptions from the widget methods are not modelled; only the layouts' positions are checked. A row can fail to read in two ways. Its sub-tab's name can be missing from the variable table, as with `var_map.get` returning `None`. Or the items at positions 1, 3, 5 and, on displacement sub-tabs, 7 can fail to be a line edit, a combo, a spin box and an integer spin box. The reader is stricter than Python's duck typing: it accepts only those widget kinds there, so a widget of another kind that happens to have the method called (a label's `.text()`, say) is read as a failure. Every row the Boundary tab lays out has the expected kinds, so no reachable row shows the difference.
- The `if not row_widget` and `if child.widget()` guards are not modelled, because every row in the model has a widget.
- `deleteLater` and Qt object lifetime are not modelled. Removal from a layout is immediate, as `takeAt`/`removeWidget` make it.
- Strings.Lower is ASCII only. Python's `str.lower` also folds non-ASCII capitals.
- Strings.Stem follows posix path rules: the separator is `/` only, as on Linux and macOS, not `ntpath`.
- Boundary.BoundaryTab.RefreshActiveBoundaryTab is modelled for both values of `initial`. The program calls it only with `initial=True` (tabs/boundary_tab.py:83, trial.py:544).
- The main window's glue is not modelled, except the aliasing at main.py:59. trial.py's window class is the same logic with the tabs inlined. Its row and boundary functions (trial.py:189-237, 548-644) and `save_input_file` (trial.py:793-999) are covered by the same members; only widget lookup differs between trial.py and main.py.
- Mouse and keyboard editing is represented only by Geometry.GeometryTab.EditFile and Boundary.BoundaryTab.EditRow.
- InputFile.MeshRecord reads a missing tag as 0, as `bc.get('tag', 0)` does. By BcCollect.ReadsWell every mesh condition has a tag, so `bc['tag']` never fails.
