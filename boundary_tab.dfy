/** The Boundary Conditions tab: one sub-tab per solution variable, each a
    vertical list of condition rows. A row is a horizontal layout of widgets at
    fixed positions: its label "B-n", the boundary name, a "Type" label and
    combo box, a "Value" label and spin box, on displacement tabs a "Tag"
    label and spin box, and a delete button. The serialiser reads rows back by
    these positions. */
module Boundary {
  import opened Strings
  import opened Seqs
  import opened Widgets
  import Geometry

  /** The sub-tabs, in the order they are created and later saved. */
  const TabNames: seq<string> :=
    ["X-velocity", "Y-velocity", "Z-velocity", "X-disp", "Y-disp", "Z-disp", "Acoustic-potential"]

  /** The condition types a tab offers; every list starts with "None". */
  function TypeOptions(tab: string): (opts: seq<string>)
    ensures |opts| >= 2 && opts[0] == "None" && opts[1] == "Dirichlet"
  {
    if Contains(tab, "velocity") then ["None", "Dirichlet", "matchMeshVel"]
    else if Contains(tab, "disp") then ["None", "Dirichlet", "prescribed"]
    else if Contains(tab, "Acoustic") then ["None", "Dirichlet"]
    else ["None", "Dirichlet", "Neumann", "Robin"]
  }

  /** Displacement tabs give their rows a tag spin box. */
  predicate HasTag(tab: string) {
    Contains(tab, "disp")
  }

  /** The positions the serialiser reads. */
  const NamePos := 1
  const TypePos := 3
  const ValuePos := 5
  const TagPos := 7

  /** The layout of a row, whatever the user has since typed or selected in it. */
  predicate RowShaped(tab: string, items: seq<Item>) {
    |items| == (if HasTag(tab) then 9 else 7) &&
    items[0].Label? &&
    items[NamePos].LineEdit? &&
    items[2] == Label("Type") &&
    items[TypePos].Combo? && items[TypePos].options == TypeOptions(tab) &&
    items[4] == Label("Value") &&
    items[ValuePos].DoubleSpin? &&
    (HasTag(tab) ==> items[6] == Label("Tag") && items[TagPos].IntSpin?) &&
    items[|items| - 1] == DeleteButton
  }

  /** The widgets of a new row labelled `labelText` whose name reads `name`:
      the first type selected, a value of zero, and on displacement tabs a tag
      of zero. */
  function RowItems(tab: string, labelText: string, name: string): (items: seq<Item>)
    ensures RowShaped(tab, items)
    ensures items[0] == Label(labelText) && items[NamePos] == LineEdit(name)
    ensures CurrentText(items[TypePos].options, items[TypePos].index) == "None"
    ensures HasTag(tab) ==> items[TagPos] == IntSpin(0)
  {
    [Label(labelText), LineEdit(name), Label("Type"), Combo(TypeOptions(tab), 0), Label("Value"), DoubleSpin("0.0")]
    + (if HasTag(tab) then [Label("Tag"), IntSpin(0)] else [])
    + [DeleteButton]
  }

  /** A row: its container widget and the widgets laid out in it. */
  datatype BcRow = BcRow(widget: Widget, items: seq<Item>)

  /** What the serialiser sees of one sub-tab: its name and its rows' widgets. */
  datatype TabContents = TabContents(name: string, rows: seq<seq<Item>>)

  function OwnedBy(w: Widget): BcRow -> bool {
    (r: BcRow) => r.widget == w
  }

  /** Every row whose first widget is a label is labelled with its position. */
  predicate LabelsNumbered(rows: seq<BcRow>) {
    forall i :: 0 <= i < |rows| && |rows[i].items| > 0 && rows[i].items[0].Label? ==>
      rows[i].items[0] == Label(RowLabel(i + 1))
  }

  /** `b` is `a` with at most the first label of each row changed. */
  predicate SameButLabels(a: seq<BcRow>, b: seq<BcRow>) {
    |a| == |b| &&
    forall i :: 0 <= i < |a| ==>
      a[i].widget == b[i].widget && |a[i].items| == |b[i].items| &&
      (|a[i].items| > 0 ==>
        a[i].items[0].Label? == b[i].items[0].Label? &&
        (!a[i].items[0].Label? ==> a[i].items[0] == b[i].items[0]) &&
        a[i].items[1..] == b[i].items[1..])
  }

  function RelabelRow(r: BcRow, n: nat): BcRow {
    if |r.items| > 0 && r.items[0].Label? then r.(items := r.items[0 := Label(RowLabel(n))]) else r
  }

  /** The rows after relabelling: numbered by position, nothing else changed. */
  function Relabelled(rows: seq<BcRow>): (r: seq<BcRow>)
    ensures LabelsNumbered(r) && SameButLabels(rows, r)
  {
    seq(|rows|, i requires 0 <= i < |rows| => RelabelRow(rows[i], i + 1))
  }

  /** The name a rebuilt row starts with: the stem of the matching geometry
      boundary file, if there is one and it is not empty; empty on the
      initial build. */
  function Prefill(initial: bool, files: seq<string>, i: nat): (name: string)
    ensures initial ==> name == ""
    ensures name != "" ==> i < |files| && files[i] != "" && name == Stem(files[i])
    ensures '/' !in name
  {
    if !initial && i < |files| && files[i] != "" then StemNoSlash(files[i]); Stem(files[i]) else ""
  }

  /** The rows of one sub-tab are all shaped for it and numbered by position. */
  predicate TabValid(tab: string, rows: seq<BcRow>) {
    forall i :: 0 <= i < |rows| ==> RowShaped(tab, rows[i].items) && rows[i].items[0] == Label(RowLabel(i + 1))
  }

  predicate TabsValid(layouts: seq<seq<BcRow>>) {
    |layouts| == |TabNames| && forall t :: 0 <= t < |TabNames| ==> TabValid(TabNames[t], layouts[t])
  }

  class BoundaryTab {
    /** The rows of each sub-tab, in the order of TabNames. */
    var layouts: seq<seq<BcRow>>
    /** The index of the sub-tab on show. */
    var current: int
    /** The Geometry tab whose boundary-file list this tab shares. */
    var geometry: Geometry.GeometryTab?

    ghost predicate Valid()
      reads this
    {
      TabsValid(layouts) && 0 <= current < |TabNames|
    }

    /** The geometry boundary-file paths, in row order; none until the
        Geometry tab's list has been handed over. */
    function GeometryFiles(): seq<string>
      reads this, geometry
    {
      if geometry == null then [] else Geometry.Files(geometry.rows)
    }

    /** The rows' widgets per sub-tab, the form the serialiser reads. */
    function Snapshot(): (s: seq<TabContents>)
      reads this
      requires |layouts| == |TabNames|
      ensures |s| == |TabNames|
      ensures forall t :: 0 <= t < |TabNames| ==>
        s[t].name == TabNames[t] && |s[t].rows| == |layouts[t]| &&
        forall i :: 0 <= i < |layouts[t]| ==> s[t].rows[i] == layouts[t][i].items
    {
      var ls := layouts;
      seq(|TabNames|, t requires 0 <= t < |TabNames| =>
        TabContents(TabNames[t], seq(|ls[t]|, i requires 0 <= i < |ls[t]| => ls[t][i].items)))
    }

    /** The tab as first shown: the first sub-tab holds one fresh row, the
        others none. */
    constructor ()
      ensures Valid() && current == 0 && geometry == null
      ensures |layouts[0]| == 1 && layouts[0][0].items == RowItems(TabNames[0], "B-1", "")
      ensures forall t :: 1 <= t < |TabNames| ==> layouts[t] == []
    {
      layouts := seq(|TabNames|, _ => []);
      current := 0;
      geometry := null;
      new;
      RefreshActiveBoundaryTab(true);
      FirstRowLabel();
    }

    /** `set_geometry_boundary_rows`: from now on the tab reads the Geometry
        tab's own row list, so later edits there are seen here. */
    method SetGeometryBoundaryRows(g: Geometry.GeometryTab)
      modifies this
      ensures geometry == g && layouts == old(layouts) && current == old(current)
    {
      geometry := g;
    }

    /** The user picks sub-tab `i`; an index outside the tabs changes nothing. */
    method SetCurrentTab(i: int)
      requires Valid()
      modifies this
      ensures Valid()
      ensures current == (if 0 <= i < |TabNames| then i else old(current))
      ensures layouts == old(layouts) && geometry == old(geometry)
    {
      if 0 <= i < |TabNames| {
        current := i;
      }
    }

    /** Appends a fresh row to sub-tab `t`, labelled `labelText` or, without
        one, with the next row number, then relabels the sub-tab. */
    method AddBcRow(t: nat, labelText: Wrappers.Option<string>) returns (w: Widget)
      requires Valid() && t < |TabNames|
      modifies this
      ensures Valid()
      ensures fresh(w)
      ensures layouts == old(layouts)[t := old(layouts)[t] + [BcRow(w, RowItems(TabNames[t], RowLabel(|old(layouts)[t]| + 1), ""))]]
      ensures current == old(current) && geometry == old(geometry)
    {
      var n := |layouts[t]| + 1;
      var text := labelText.GetOr(RowLabel(n));
      w := new Widget();
      var rows := layouts[t] + [BcRow(w, RowItems(TabNames[t], text, ""))];
      layouts := layouts[t := rows];
      RefreshBcLabels(t);
      ghost var added := old(layouts)[t] + [BcRow(w, RowItems(TabNames[t], RowLabel(n), ""))];
      AppendValid(TabNames[t], old(layouts)[t], added[n - 1]);
      RelabelAppended(old(layouts)[t], w, TabNames[t], text, n);
      UpdateValid(old(layouts), t, added);
    }

    /** `remove_generic_row`: the row of widget `w` leaves sub-tab `t`, and
        the rows after it move up a number. */
    method RemoveGenericRow(t: nat, w: Widget)
      requires Valid() && t < |TabNames|
      modifies this
      ensures Valid()
      ensures layouts == old(layouts)[t := Relabelled(RemoveFirst(old(layouts)[t], OwnedBy(w)))]
      ensures current == old(current) && geometry == old(geometry)
    {
      var rest := RemoveFirst(layouts[t], OwnedBy(w));
      RemoveShaped(layouts[t], w, TabNames[t]);
      RelabelShaped(TabNames[t], rest);
      UpdateValid(layouts, t, Relabelled(rest));
      layouts := layouts[t := rest];
      RefreshBcLabels(t);
    }

    /** `_refresh_bc_labels`: row i of sub-tab `t` is labelled "B-(i+1)". */
    method RefreshBcLabels(t: nat)
      requires |layouts| == |TabNames| && t < |TabNames|
      modifies this
      ensures layouts == old(layouts)[t := Relabelled(old(layouts)[t])]
      ensures current == old(current) && geometry == old(geometry)
    {
      var rows := layouts[t];
      ghost var relabelled := Relabelled(old(layouts)[t]);
      var i := 0;
      while i < |rows|
        invariant 0 <= i <= |rows| == |old(layouts)[t]| == |relabelled|
        invariant forall j :: 0 <= j < i ==> rows[j] == relabelled[j]
        invariant forall j :: i <= j < |rows| ==> rows[j] == old(layouts)[t][j]
      {
        var items := rows[i].items;
        if |items| > 0 && items[0].Label? {
          rows := rows[i := rows[i].(items := items[0 := Label(RowLabel(i + 1))])];
        }
        i := i + 1;
      }
      assert rows == relabelled;
      layouts := layouts[t := rows];
    }

    /** Takes the rows of sub-tab `t` out one at a time from the front until
        none is left. */
    method ClearTab(t: nat)
      requires |layouts| == |TabNames| && t < |TabNames|
      modifies this
      ensures layouts == old(layouts)[t := []]
      ensures current == old(current) && geometry == old(geometry)
    {
      while |layouts[t]| > 0
        invariant |layouts| == |TabNames| && current == old(current) && geometry == old(geometry)
        invariant layouts == old(layouts)[t := layouts[t]]
        decreases |layouts[t]|
      {
        layouts := layouts[t := layouts[t][1..]];
      }
    }

    /** Appends `count` fresh rows to the empty sub-tab `t`, numbered from
        "B-1"; on a later refresh each row with a non-empty geometry boundary
        file also gets that file's stem as its name. */
    method FillTab(t: nat, count: nat, initial: bool, files: seq<string>)
      requires TabsValid(layouts) && 0 <= current < |TabNames| && t < |TabNames| && layouts[t] == []
      modifies this
      ensures Valid() && current == old(current) && geometry == old(geometry)
      ensures |layouts| == |old(layouts)| && layouts == old(layouts)[t := layouts[t]]
      ensures Rebuilt(layouts[t], TabNames[t], initial, files, count)
    {
      var i := 0;
      while i < count
        invariant 0 <= i <= count
        invariant Valid() && current == old(current) && geometry == old(geometry)
        invariant |layouts| == |old(layouts)| && layouts == old(layouts)[t := layouts[t]]
        invariant Rebuilt(layouts[t], TabNames[t], initial, files, i)
      {
        ghost var before := layouts[t];
        var w := AddRebuiltRow(t, initial, files);
        RebuiltSnoc(before, TabNames[t], initial, files, BcRow(w, RowItems(TabNames[t], RowLabel(i + 1), Prefill(initial, files, i))));
        i := i + 1;
      }
    }

    /** One step of the fill: a row "B-(i+1)" appended to sub-tab `t`
        (holding `i` rows), named after geometry boundary file `i` when that
        is not empty on a later refresh. */
    method AddRebuiltRow(t: nat, initial: bool, files: seq<string>) returns (w: Widget)
      requires Valid() && t < |TabNames|
      modifies this
      ensures Valid() && current == old(current) && geometry == old(geometry)
      ensures layouts == old(layouts)[t := old(layouts)[t] + [BcRow(w, RowItems(TabNames[t], RowLabel(|old(layouts)[t]| + 1), Prefill(initial, files, |old(layouts)[t]|)))]]
    {
      var i := |layouts[t]|;
      w := AddBcRow(t, Wrappers.Some(RowLabel(i + 1)));
      if !initial && i < |files| && files[i] != "" {
        ghost var added := layouts;
        EditRow(t, i, NamePos, LineEdit(Stem(files[i])));
        NameSet(TabNames[t], RowLabel(i + 1), Stem(files[i]));
        ReplaceLast(old(layouts)[t], BcRow(w, RowItems(TabNames[t], RowLabel(i + 1), "")), BcRow(w, RowItems(TabNames[t], RowLabel(i + 1), Stem(files[i]))));
        UpdateTwice(old(layouts), t, added[t], layouts[t]);
      }
    }

    /** `refresh_active_boundary_tab`: empties the sub-tab on show and fills
        it again with one row, or on a later refresh with one row per
        geometry boundary file, each named after its file. The other
        sub-tabs are untouched. */
    method RefreshActiveBoundaryTab(initial: bool)
      requires |layouts| == |TabNames| && 0 <= current < |TabNames|
      requires forall t :: 0 <= t < |TabNames| && t != current ==> TabValid(TabNames[t], layouts[t])
      modifies this
      ensures Valid()
      ensures current == old(current) && geometry == old(geometry)
      ensures forall t :: 0 <= t < |TabNames| && t != current ==> layouts[t] == old(layouts)[t]
      ensures |layouts[current]| == (if initial then 1 else |old(GeometryFiles())|)
      ensures forall i :: 0 <= i < |layouts[current]| ==>
        layouts[current][i].items == RowItems(TabNames[current], RowLabel(i + 1), Prefill(initial, old(GeometryFiles()), i))
    {
      var files := GeometryFiles();
      var count := if initial then 1 else |files|;
      var t := current;
      ClearTab(t);
      UpdateValid(old(layouts), t, []);
      FillTab(t, count, initial, files);
      RebuiltRows(layouts[t], TabNames[t], initial, files, count);
    }

    /** The user edits the widget at position `k` of a row: types a name,
        selects a type, or sets the value or the tag. */
    method EditRow(t: nat, i: nat, k: nat, item: Item)
      requires Valid() && t < |TabNames| && i < |layouts[t]|
      requires k == NamePos || k == TypePos || k == ValuePos || (k == TagPos && HasTag(TabNames[t]))
      requires item.LineEdit? == layouts[t][i].items[k].LineEdit?
      requires item.Combo? == layouts[t][i].items[k].Combo?
      requires item.Combo? ==> item.options == layouts[t][i].items[k].options
      requires item.DoubleSpin? == layouts[t][i].items[k].DoubleSpin?
      requires item.IntSpin? == layouts[t][i].items[k].IntSpin?
      modifies this
      ensures Valid()
      ensures layouts == old(layouts)[t := old(layouts)[t][i := old(layouts)[t][i].(items := old(layouts)[t][i].items[k := item])]]
      ensures current == old(current) && geometry == old(geometry)
    {
      var row := layouts[t][i];
      var edited := row.(items := row.items[k := item]);
      EditShaped(TabNames[t], row.items, k, item);
      ReplaceValid(TabNames[t], layouts[t], i, edited);
      UpdateValid(layouts, t, layouts[t][i := edited]);
      layouts := layouts[t := layouts[t][i := edited]];
    }
  }

  // ---------------------------------------------------------------------------
  // Properties
  // ---------------------------------------------------------------------------

  /** Removing a row keeps the others as they were: still shaped. */
  lemma {:induction false} RemoveShaped(rows: seq<BcRow>, w: Widget, tab: string)
    requires forall i :: 0 <= i < |rows| ==> RowShaped(tab, rows[i].items)
    ensures forall i :: 0 <= i < |RemoveFirst(rows, OwnedBy(w))| ==> RowShaped(tab, RemoveFirst(rows, OwnedBy(w))[i].items)
  {
    if rows != [] && !OwnedBy(w)(rows[0]) {
      RemoveShaped(rows[1..], w, tab);
      var r := RemoveFirst(rows, OwnedBy(w));
      assert r == [rows[0]] + RemoveFirst(rows[1..], OwnedBy(w));
      forall i | 1 <= i < |r|
        ensures RowShaped(tab, r[i].items)
      {
        assert r[i] == RemoveFirst(rows[1..], OwnedBy(w))[i - 1];
      }
    }
  }

  /** Relabelling rows laid out for a sub-tab makes the sub-tab valid. */
  lemma RelabelShaped(tab: string, rows: seq<BcRow>)
    requires forall i :: 0 <= i < |rows| ==> RowShaped(tab, rows[i].items)
    ensures TabValid(tab, Relabelled(rows))
  {
    var r := Relabelled(rows);
    forall i | 0 <= i < |r|
      ensures RowShaped(tab, r[i].items) && r[i].items[0] == Label(RowLabel(i + 1))
    {
      assert r[i] == RelabelRow(rows[i], i + 1);
    }
  }

  /** Relabelling numbered rows changes nothing, so it is idempotent. */
  lemma RelabelNumbered(rows: seq<BcRow>)
    requires LabelsNumbered(rows)
    ensures Relabelled(rows) == rows
  {
    forall i | 0 <= i < |rows|
      ensures Relabelled(rows)[i] == rows[i]
    {
      if |rows[i].items| > 0 && rows[i].items[0].Label? {
        assert rows[i].items[0 := Label(RowLabel(i + 1))] == rows[i].items;
      }
    }
  }

  lemma RelabelIdempotent(rows: seq<BcRow>)
    ensures Relabelled(Relabelled(rows)) == Relabelled(rows)
  {
    RelabelNumbered(Relabelled(rows));
  }

  lemma ContainsVelocity(t: nat)
    requires t < 3
    ensures Contains(TabNames[t], "velocity") && !Contains(TabNames[t], "disp")
  {
    var name := TabNames[t];
    assert name[2..10] == "velocity";
    ContainsAt(name, "velocity", 2);
    AbsentChar(name, "disp", 'd');
  }

  lemma ContainsDisp(t: nat)
    requires 3 <= t < 6
    ensures !Contains(TabNames[t], "velocity") && Contains(TabNames[t], "disp")
  {
    AbsentChar(TabNames[t], "velocity", 'v');
  }

  lemma AcousticLetters()
    ensures 'v' !in TabNames[6] && 'd' !in TabNames[6]
  {
  }

  /** The acoustic sub-tab's name matches neither of the earlier tests. */
  lemma AcousticMatchesNeither()
    ensures !Contains(TabNames[6], "velocity")
    ensures !Contains(TabNames[6], "disp")
  {
    AcousticLetters();
    AbsentChar(TabNames[6], "velocity", 'v');
    AbsentChar(TabNames[6], "disp", 'd');
  }

  lemma AcousticContains()
    ensures Contains(TabNames[6], "Acoustic")
  {
    assert IsPrefix("Acoustic", TabNames[6]);
  }

  /** The velocity sub-tabs. */
  lemma VelocityTabs(t: nat)
    requires t < 3
    ensures TypeOptions(TabNames[t]) == ["None", "Dirichlet", "matchMeshVel"]
    ensures !HasTag(TabNames[t])
  {
    ContainsVelocity(t);
  }

  /** The displacement sub-tabs, the only ones with a tag. */
  lemma DisplacementTabs(t: nat)
    requires 3 <= t < 6
    ensures TypeOptions(TabNames[t]) == ["None", "Dirichlet", "prescribed"]
    ensures HasTag(TabNames[t])
  {
    ContainsDisp(t);
  }

  lemma AcousticTab()
    ensures TypeOptions(TabNames[6]) == ["None", "Dirichlet"]
    ensures !HasTag(TabNames[6])
  {
    AcousticMatchesNeither();
    AcousticContains();
  }

  /** A tab whose name matches none of the variables offers the generic types. */
  lemma OtherTab(tab: string)
    requires !Contains(tab, "velocity") && !Contains(tab, "disp") && !Contains(tab, "Acoustic")
    ensures TypeOptions(tab) == ["None", "Dirichlet", "Neumann", "Robin"]
  {
  }

  /** Relabelling after an append gives the new row its number, whatever
      label it was created with. */
  lemma RelabelAppended(rows: seq<BcRow>, w: Widget, tab: string, text: string, n: nat)
    requires LabelsNumbered(rows) && n == |rows| + 1
    ensures Relabelled(rows + [BcRow(w, RowItems(tab, text, ""))]) == rows + [BcRow(w, RowItems(tab, RowLabel(n), ""))]
  {
    var a := rows + [BcRow(w, RowItems(tab, text, ""))];
    var b := rows + [BcRow(w, RowItems(tab, RowLabel(n), ""))];
    assert RowItems(tab, text, "")[0 := Label(RowLabel(n))] == RowItems(tab, RowLabel(n), "");
    forall i | 0 <= i < |rows|
      ensures Relabelled(a)[i] == b[i]
    {
      assert a[i] == rows[i];
      if |rows[i].items| > 0 && rows[i].items[0].Label? {
        assert rows[i].items[0 := Label(RowLabel(i + 1))] == rows[i].items;
      }
    }
  }

  /** Appending a row shaped for the tab and carrying the next number keeps
      the tab valid, and relabelling then changes nothing. */
  lemma AppendValid(tab: string, rows: seq<BcRow>, r: BcRow)
    requires TabValid(tab, rows)
    requires RowShaped(tab, r.items) && r.items[0] == Label(RowLabel(|rows| + 1))
    ensures TabValid(tab, rows + [r])
    ensures Relabelled(rows + [r]) == rows + [r]
  {
    RelabelNumbered(rows + [r]);
  }

  /** Typing a name into a new row gives the row created with that name. */
  lemma NameSet(tab: string, labelText: string, name: string)
    ensures RowItems(tab, labelText, "")[NamePos := LineEdit(name)] == RowItems(tab, labelText, name)
  {
  }

  /** The first `n` rows of a rebuilt sub-tab, in order, each fresh and
      named as Prefill says. */
  predicate Rebuilt(rows: seq<BcRow>, tab: string, initial: bool, files: seq<string>, n: nat) {
    |rows| == n &&
    forall j :: 0 <= j < n ==> rows[j].items == RowItems(tab, RowLabel(j + 1), Prefill(initial, files, j))
  }

  lemma RebuiltRows(rows: seq<BcRow>, tab: string, initial: bool, files: seq<string>, n: nat)
    requires Rebuilt(rows, tab, initial, files, n)
    ensures |rows| == n
    ensures forall j :: 0 <= j < |rows| ==> rows[j].items == RowItems(tab, RowLabel(j + 1), Prefill(initial, files, j))
  {
  }

  /** Appending row i + 1 as Prefill names it extends a rebuilt sub-tab. */
  lemma RebuiltSnoc(rows: seq<BcRow>, tab: string, initial: bool, files: seq<string>, r: BcRow)
    requires Rebuilt(rows, tab, initial, files, |rows|)
    requires r.items == RowItems(tab, RowLabel(|rows| + 1), Prefill(initial, files, |rows|))
    ensures Rebuilt(rows + [r], tab, initial, files, |rows| + 1)
  {
    forall j | 0 <= j < |rows| + 1
      ensures (rows + [r])[j].items == RowItems(tab, RowLabel(j + 1), Prefill(initial, files, j))
    {
      if j < |rows| {
        assert (rows + [r])[j] == rows[j];
      }
    }
  }

  lemma ReplaceLast<T>(s: seq<T>, a: T, b: T)
    ensures (s + [a])[|s| := b] == s + [b]
  {
  }

  lemma UpdateTwice<T>(s: seq<T>, i: nat, x: T, y: T)
    requires i < |s|
    ensures s[i := x][i := y] == s[i := y]
  {
  }

  /** Editing a name, type, value or tag widget in kind keeps the row's layout. */
  lemma EditShaped(tab: string, items: seq<Item>, k: nat, item: Item)
    requires RowShaped(tab, items)
    requires k == NamePos || k == TypePos || k == ValuePos || (k == TagPos && HasTag(tab))
    requires item.LineEdit? == items[k].LineEdit? && item.Combo? == items[k].Combo?
    requires item.Combo? ==> item.options == items[k].options
    requires item.DoubleSpin? == items[k].DoubleSpin? && item.IntSpin? == items[k].IntSpin?
    ensures RowShaped(tab, items[k := item]) && items[k := item][0] == items[0]
  {
  }

  lemma ReplaceValid(tab: string, rows: seq<BcRow>, i: nat, r: BcRow)
    requires TabValid(tab, rows) && i < |rows|
    requires RowShaped(tab, r.items) && r.items[0] == Label(RowLabel(i + 1))
    ensures TabValid(tab, rows[i := r])
  {
  }

  /** Replacing one sub-tab's rows by valid ones keeps all sub-tabs valid. */
  lemma UpdateValid(ls: seq<seq<BcRow>>, t: nat, rows: seq<BcRow>)
    requires |ls| == |TabNames| && t < |TabNames|
    requires forall u :: 0 <= u < |TabNames| && u != t ==> TabValid(TabNames[u], ls[u])
    requires TabValid(TabNames[t], rows)
    ensures TabsValid(ls[t := rows])
  {
  }
}
