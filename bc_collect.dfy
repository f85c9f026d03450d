/** Reading the boundary-condition rows back out of the sub-tabs and sorting
    them into the three lists the input file has sections for: flow, mesh and
    acoustic. Sub-tabs are visited in order, and so are the rows of each. A
    row whose type is "None" is passed over. Reading a row goes by widget
    position, so a row without the expected widget at a read position, or a
    sub-tab the table of variables does not know, raises an exception, which
    ends the save. */
module BcCollect {
  import opened Wrappers
  import opened Strings
  import opened Widgets
  import opened Keywords
  import Boundary
  import Seqs

  datatype Category = Flow | Mesh | Acoustic

  /** A condition as read from a row: the variable of its sub-tab, the
      boundary name, the lower-cased type, the value and, on displacement
      sub-tabs, the tag. */
  datatype Bc = Bc(variable: string, nodes: string, bcType: string, value: string, tag: Option<int>)

  /** A condition together with the list it goes to. */
  datatype Entry = Entry(category: Category, bc: Bc)

  datatype RowRead = Skip | Read(bc: Bc) | Broken

  /** The list a sub-tab's conditions go to: mesh when its variable names a
      displacement, otherwise acoustic for the acoustic sub-tab, otherwise flow. */
  function CategoryOf(tab: string, variable: string): (c: Category)
    ensures c == Mesh <==> Contains(Lower(variable), "disp")
    ensures c == Acoustic <==> !Contains(Lower(variable), "disp") && Contains(tab, "Acoustic")
  {
    if Contains(Lower(variable), "disp") then Mesh
    else if Contains(tab, "Acoustic") then Acoustic
    else Flow
  }

  /** Reads one row: the name at position 1, the type at 3 (a "none" type
      skips the row), the value at 5 and, when `isDisp`, the tag at 7. */
  function ReadRow(variable: string, isDisp: bool, items: seq<Item>): (r: RowRead)
    ensures r.Read? ==> r.bc.bcType != "none" && r.bc.variable == variable && (r.bc.tag.Some? <==> isDisp)
  {
    if |items| <= Boundary.TypePos || !items[Boundary.NamePos].LineEdit? || !items[Boundary.TypePos].Combo? then Broken
    else
      var typeText := Lower(CurrentText(items[Boundary.TypePos].options, items[Boundary.TypePos].index));
      if typeText == "none" then Skip
      else if |items| <= Boundary.ValuePos || !items[Boundary.ValuePos].DoubleSpin? then Broken
      else if isDisp && (|items| <= Boundary.TagPos || !items[Boundary.TagPos].IntSpin?) then Broken
      else Read(Bc(variable, items[Boundary.NamePos].text, typeText, items[Boundary.ValuePos].value,
                   if isDisp then Some(items[Boundary.TagPos].number) else None))
  }

  /** The conditions of a sub-tab's rows, in row order; None once a row breaks. */
  function RowReads(variable: string, cat: Category, rows: seq<seq<Item>>): (r: Option<seq<Entry>>)
    ensures r.Some? ==> |r.value| <= |rows|
    ensures r.Some? ==> forall k :: 0 <= k < |r.value| ==> r.value[k].category == cat
    decreases |rows|
  {
    if rows == [] then Some([])
    else match RowReads(variable, cat, rows[..|rows| - 1])
      case None => None
      case Some(es) =>
        match ReadRow(variable, cat == Mesh, rows[|rows| - 1])
        case Broken => None
        case Skip => Some(es)
        case Read(bc) => Some(es + [Entry(cat, bc)])
  }

  function TabReads(tab: Boundary.TabContents): (r: Option<seq<Entry>>)
    ensures r.Some? ==> tab.name in VarNames && |r.value| <= |tab.rows|
  {
    if tab.name !in VarNames then None
    else RowReads(VarNames[tab.name], CategoryOf(tab.name, VarNames[tab.name]), tab.rows)
  }

  /** The conditions of all sub-tabs, in sub-tab order. */
  function Reads(tabs: seq<Boundary.TabContents>): (r: Option<seq<Entry>>)
    ensures r.Some? ==> forall t :: 0 <= t < |tabs| ==> TabReads(tabs[t]).Some?
    decreases |tabs|
  {
    if tabs == [] then Some([])
    else
      match Reads(tabs[..|tabs| - 1])
      case None => None
      case Some(es) =>
        match TabReads(tabs[|tabs| - 1])
        case None => None
        case Some(more) => AllTabsRead(tabs, tabs[..|tabs| - 1]); Some(es + more)
  }

  /** Every sub-tab reads once those before the last one and the last one do. */
  lemma AllTabsRead(tabs: seq<Boundary.TabContents>, init: seq<Boundary.TabContents>)
    requires tabs != [] && init == tabs[..|tabs| - 1] && TabReads(tabs[|tabs| - 1]).Some?
    requires forall t :: 0 <= t < |init| ==> TabReads(init[t]).Some?
    ensures forall t :: 0 <= t < |tabs| ==> TabReads(tabs[t]).Some?
  {
    forall t | 0 <= t < |tabs|
      ensures TabReads(tabs[t]).Some?
    {
      if t < |tabs| - 1 {
        assert init[t] == tabs[t];
      }
    }
  }

  /** The conditions that go to list `c`, in the order they were read. */
  function OfCategory(es: seq<Entry>, c: Category): seq<Bc>
    decreases |es|
  {
    if es == [] then []
    else OfCategory(es[..|es| - 1], c) + (if es[|es| - 1].category == c then [es[|es| - 1].bc] else [])
  }

  predicate Sorted(es: seq<Entry>, flow: seq<Bc>, mesh: seq<Bc>, acoustic: seq<Bc>) {
    flow == OfCategory(es, Flow) && mesh == OfCategory(es, Mesh) && acoustic == OfCategory(es, Acoustic)
  }

  /** The nested loop over sub-tabs and rows that fills the three lists. It
      fails exactly when reading some sub-tab or row raises. */
  method CollectBcs(tabs: seq<Boundary.TabContents>) returns (ok: bool, flow: seq<Bc>, mesh: seq<Bc>, acoustic: seq<Bc>)
    ensures ok <==> Reads(tabs).Some?
    ensures ok ==> Sorted(Reads(tabs).value, flow, mesh, acoustic)
  {
    flow, mesh, acoustic := [], [], [];
    var t := 0;
    while t < |tabs|
      invariant 0 <= t <= |tabs|
      invariant Reads(tabs[..t]).Some?
      invariant Sorted(Reads(tabs[..t]).value, flow, mesh, acoustic)
    {
      var tab := tabs[t];
      assert tabs[..t + 1][..t] == tabs[..t];
      if tab.name !in VarNames {
        ReadsStop(tabs, t + 1);
        return false, [], [], [];
      }
      var rowsOk;
      rowsOk, flow, mesh, acoustic := CollectRows(tab.name, VarNames[tab.name], tab.rows, flow, mesh, acoustic, Reads(tabs[..t]).value);
      if !rowsOk {
        ReadsStop(tabs, t + 1);
        return false, [], [], [];
      }
      t := t + 1;
    }
    assert tabs[..t] == tabs;
    ok := true;
  }

  /** The inner loop: appends the conditions of one sub-tab's rows to the lists. */
  method CollectRows(tabName: string, variable: string, rows: seq<seq<Item>>,
                     flow0: seq<Bc>, mesh0: seq<Bc>, acoustic0: seq<Bc>, ghost before: seq<Entry>)
    returns (ok: bool, flow: seq<Bc>, mesh: seq<Bc>, acoustic: seq<Bc>)
    requires Sorted(before, flow0, mesh0, acoustic0)
    ensures ok <==> RowReads(variable, CategoryOf(tabName, variable), rows).Some?
    ensures ok ==> Sorted(before + RowReads(variable, CategoryOf(tabName, variable), rows).value, flow, mesh, acoustic)
  {
    var isDisp := Contains(Lower(variable), "disp");
    var isAcoustic := Contains(tabName, "Acoustic");
    ghost var cat := CategoryOf(tabName, variable);
    flow, mesh, acoustic := flow0, mesh0, acoustic0;
    assert rows[..0] == [] && before + [] == before;
    var i := 0;
    while i < |rows|
      invariant 0 <= i <= |rows|
      invariant RowReads(variable, cat, rows[..i]).Some?
      invariant Sorted(before + RowReads(variable, cat, rows[..i]).value, flow, mesh, acoustic)
    {
      var r := ReadRow(variable, isDisp, rows[i]);
      if r.Broken? {
        RowReadsBreak(variable, cat, rows, i);
        RowReadsStop(variable, cat, rows, i + 1);
        return false, [], [], [];
      }
      RowStep(variable, cat, rows, i, before, flow, mesh, acoustic);
      if r.Read? {
        if isDisp {
          mesh := mesh + [r.bc];
        } else if isAcoustic {
          acoustic := acoustic + [r.bc];
        } else {
          flow := flow + [r.bc];
        }
      }
      i := i + 1;
    }
    assert rows[..i] == rows;
    ok := true;
  }

  // ---------------------------------------------------------------------------
  // Properties
  // ---------------------------------------------------------------------------

  lemma SortedSnoc(es: seq<Entry>, e: Entry, flow: seq<Bc>, mesh: seq<Bc>, acoustic: seq<Bc>)
    requires Sorted(es, flow, mesh, acoustic)
    ensures Sorted(es + [e],
      if e.category == Flow then flow + [e.bc] else flow,
      if e.category == Mesh then mesh + [e.bc] else mesh,
      if e.category == Acoustic then acoustic + [e.bc] else acoustic)
  {
    assert (es + [e])[..|es|] == es;
  }

  lemma RowReadsBreak(variable: string, cat: Category, rows: seq<seq<Item>>, i: nat)
    requires i < |rows| && ReadRow(variable, cat == Mesh, rows[i]).Broken?
    ensures RowReads(variable, cat, rows[..i + 1]) == None
  {
    assert rows[..i + 1][..i] == rows[..i];
  }

  /** One more row read: its condition, if any, joins the list of its category. */
  lemma RowStep(variable: string, cat: Category, rows: seq<seq<Item>>, i: nat,
                before: seq<Entry>, flow: seq<Bc>, mesh: seq<Bc>, acoustic: seq<Bc>)
    requires i < |rows| && RowReads(variable, cat, rows[..i]).Some?
    requires Sorted(before + RowReads(variable, cat, rows[..i]).value, flow, mesh, acoustic)
    requires !ReadRow(variable, cat == Mesh, rows[i]).Broken?
    ensures RowReads(variable, cat, rows[..i + 1]).Some?
    ensures var r := ReadRow(variable, cat == Mesh, rows[i]);
      Sorted(before + RowReads(variable, cat, rows[..i + 1]).value,
        if r.Read? && cat == Flow then flow + [r.bc] else flow,
        if r.Read? && cat == Mesh then mesh + [r.bc] else mesh,
        if r.Read? && cat == Acoustic then acoustic + [r.bc] else acoustic)
  {
    var es := RowReads(variable, cat, rows[..i]).value;
    var r := ReadRow(variable, cat == Mesh, rows[i]);
    RowReadsSnoc(variable, cat, rows, i);
    if r.Read? {
      var e := Entry(cat, r.bc);
      SortedSnoc(before + es, e, flow, mesh, acoustic);
      Seqs.AppendAssoc(before, es, [e]);
    } else {
      assert es + [] == es;
    }
  }

  lemma RowReadsSnoc(variable: string, cat: Category, rows: seq<seq<Item>>, i: nat)
    requires i < |rows| && RowReads(variable, cat, rows[..i]).Some?
    requires !ReadRow(variable, cat == Mesh, rows[i]).Broken?
    ensures var r := ReadRow(variable, cat == Mesh, rows[i]);
      RowReads(variable, cat, rows[..i + 1]) ==
        Some(RowReads(variable, cat, rows[..i]).value + (if r.Read? then [Entry(cat, r.bc)] else []))
  {
    var init := rows[..i + 1];
    assert init[..|init| - 1] == rows[..i];
    assert init[|init| - 1] == rows[i];
    var es := RowReads(variable, cat, rows[..i]).value;
    match ReadRow(variable, cat == Mesh, rows[i])
    case Skip =>
      assert RowReads(variable, cat, init) == Some(es);
      assert es + [] == es;
    case Read(bc) =>
      assert RowReads(variable, cat, init) == Some(es + [Entry(cat, bc)]);
  }

  /** A row that breaks ends the reading of its sub-tab. */
  lemma {:induction false} RowReadsStop(variable: string, cat: Category, rows: seq<seq<Item>>, n: nat)
    requires n <= |rows| && RowReads(variable, cat, rows[..n]) == None
    ensures RowReads(variable, cat, rows) == None
    decreases |rows|
  {
    if n < |rows| {
      var init := rows[..|rows| - 1];
      assert init[..n] == rows[..n];
      RowReadsStop(variable, cat, init, n);
    } else {
      assert rows[..n] == rows;
    }
  }

  /** A sub-tab that breaks ends the whole reading. */
  lemma {:induction false} ReadsStop(tabs: seq<Boundary.TabContents>, n: nat)
    requires n <= |tabs| && Reads(tabs[..n]) == None
    ensures Reads(tabs) == None
    decreases |tabs|
  {
    if n < |tabs| {
      var init := tabs[..|tabs| - 1];
      assert init[..n] == tabs[..n];
      ReadsStop(init, n);
    } else {
      assert tabs[..n] == tabs;
    }
  }

  /** Every condition read goes to exactly one list: the three lists together
      hold as many conditions as were read, and each condition is in the list
      of its category. */
  lemma {:induction false} Partition(es: seq<Entry>)
    ensures |OfCategory(es, Flow)| + |OfCategory(es, Mesh)| + |OfCategory(es, Acoustic)| == |es|
    ensures forall k :: 0 <= k < |es| ==> es[k].bc in OfCategory(es, es[k].category)
    decreases |es|
  {
    if es != [] {
      var init := es[..|es| - 1];
      Partition(init);
      forall k | 0 <= k < |es|
        ensures es[k].bc in OfCategory(es, es[k].category)
      {
        if k < |init| {
          assert es[k] == init[k];
        }
      }
    }
  }

  /** What the read conditions satisfy: none has type "none", and exactly the
      mesh conditions carry a tag. */
  predicate WellRead(es: seq<Entry>) {
    forall k :: 0 <= k < |es| ==> es[k].bc.bcType != "none" && (es[k].category == Mesh <==> es[k].bc.tag.Some?)
  }

  lemma {:induction false} RowReadsWell(variable: string, cat: Category, rows: seq<seq<Item>>)
    requires RowReads(variable, cat, rows).Some?
    ensures WellRead(RowReads(variable, cat, rows).value)
    decreases |rows|
  {
    if rows != [] {
      RowReadsWell(variable, cat, rows[..|rows| - 1]);
    }
  }

  lemma {:induction false} ReadsWell(tabs: seq<Boundary.TabContents>)
    requires Reads(tabs).Some?
    ensures WellRead(Reads(tabs).value)
    decreases |tabs|
  {
    if tabs != [] {
      var last := tabs[|tabs| - 1];
      ReadsWell(tabs[..|tabs| - 1]);
      RowReadsWell(VarNames[last.name], CategoryOf(last.name, VarNames[last.name]), last.rows);
    }
  }

  /** A row as it is created has type "None", so it adds nothing to the file. */
  lemma NewRowSkipped(variable: string, isDisp: bool, tab: string, labelText: string, name: string)
    ensures ReadRow(variable, isDisp, Boundary.RowItems(tab, labelText, name)) == Skip
  {
    assert Lower("None") == "none";
  }

  /** On a row laid out by its sub-tab, reading finds the widgets it expects:
      the name typed, the type selected (lower-cased), the value and, on a
      displacement sub-tab, the tag. */
  lemma ShapedRowRead(variable: string, isDisp: bool, tab: string, items: seq<Item>)
    requires Boundary.RowShaped(tab, items) && (isDisp ==> Boundary.HasTag(tab))
    ensures !ReadRow(variable, isDisp, items).Broken?
    ensures var typeText := Lower(CurrentText(items[Boundary.TypePos].options, items[Boundary.TypePos].index));
      ReadRow(variable, isDisp, items) ==
        if typeText == "none" then Skip
        else Read(Bc(variable, items[Boundary.NamePos].text, typeText, items[Boundary.ValuePos].value,
                     if isDisp then Some(items[Boundary.TagPos].number) else None))
  {
  }

  lemma {:induction false} ShapedRowsRead(variable: string, cat: Category, tab: string, rows: seq<seq<Item>>)
    requires forall i :: 0 <= i < |rows| ==> Boundary.RowShaped(tab, rows[i])
    requires cat == Mesh ==> Boundary.HasTag(tab)
    ensures RowReads(variable, cat, rows).Some?
    decreases |rows|
  {
    if rows != [] {
      ShapedRowsRead(variable, cat, tab, rows[..|rows| - 1]);
      ShapedRowRead(variable, cat == Mesh, tab, rows[|rows| - 1]);
    }
  }

  /** The sub-tabs' variables and lists: the velocity sub-tabs feed the flow
      list, the displacement sub-tabs the mesh list and the acoustic sub-tab
      the acoustic list. So a sub-tab's rows carry a tag exactly when they
      are read as mesh conditions. */
  lemma TabCategory(t: nat)
    requires t < |Boundary.TabNames|
    ensures Boundary.TabNames[t] in VarNames
    ensures CategoryOf(Boundary.TabNames[t], VarNames[Boundary.TabNames[t]]) ==
      if t < 3 then Flow else if t < 6 then Mesh else Acoustic
    ensures Boundary.HasTag(Boundary.TabNames[t]) <==> 3 <= t < 6
  {
    if t < 3 {
      VelocityCategory(t);
    } else if t < 6 {
      DispCategory(t);
    } else {
      AcousticCategory();
    }
  }

  lemma VelocityCategory(t: nat)
    requires t < 3
    ensures Boundary.TabNames[t] in VarNames
    ensures CategoryOf(Boundary.TabNames[t], VarNames[Boundary.TabNames[t]]) == Flow
    ensures !Boundary.HasTag(Boundary.TabNames[t])
  {
    var name := Boundary.TabNames[t];
    AbsentChar(Lower(VarNames[name]), "disp", 'd');
    AbsentChar(name, "Acoustic", 'A');
    Boundary.ContainsVelocity(t);
  }

  lemma DispCategory(t: nat)
    requires 3 <= t < 6
    ensures Boundary.TabNames[t] in VarNames
    ensures CategoryOf(Boundary.TabNames[t], VarNames[Boundary.TabNames[t]]) == Mesh
    ensures Boundary.HasTag(Boundary.TabNames[t])
  {
    var v := Lower(VarNames[Boundary.TabNames[t]]);
    assert IsPrefix("disp", v[1..]);
    Boundary.ContainsDisp(t);
  }

  lemma AcousticCategory()
    ensures Boundary.TabNames[6] in VarNames
    ensures CategoryOf(Boundary.TabNames[6], VarNames[Boundary.TabNames[6]]) == Acoustic
    ensures !Boundary.HasTag(Boundary.TabNames[6])
  {
    AbsentChar(Lower(VarNames[Boundary.TabNames[6]]), "disp", 'd');
    Boundary.AcousticContains();
    Boundary.AcousticMatchesNeither();
  }

  /** Sub-tabs named and laid out as the Boundary tab makes them always read
      without an exception. */
  lemma {:induction false} LaidOutTabsRead(tabs: seq<Boundary.TabContents>)
    requires |tabs| <= |Boundary.TabNames|
    requires forall t :: 0 <= t < |tabs| ==> tabs[t].name == Boundary.TabNames[t]
    requires forall t, i :: 0 <= t < |tabs| && 0 <= i < |tabs[t].rows| ==>
      Boundary.RowShaped(Boundary.TabNames[t], tabs[t].rows[i])
    ensures Reads(tabs).Some?
    decreases |tabs|
  {
    if tabs != [] {
      var t := |tabs| - 1;
      var init := tabs[..t];
      assert forall u :: 0 <= u < t ==> init[u] == tabs[u];
      LaidOutTabsRead(init);
      TabRead(tabs[t], t);
    }
  }

  /** The sub-tab at position `t`, its rows laid out for it, is read back. */
  lemma TabRead(tab: Boundary.TabContents, t: nat)
    requires t < |Boundary.TabNames| && tab.name == Boundary.TabNames[t]
    requires forall i :: 0 <= i < |tab.rows| ==> Boundary.RowShaped(Boundary.TabNames[t], tab.rows[i])
    ensures TabReads(tab).Some?
  {
    TabCategory(t);
    var name := Boundary.TabNames[t];
    ShapedRowsRead(VarNames[name], CategoryOf(name, VarNames[name]), name, tab.rows);
  }

  /** Whatever the user has typed or selected, the Boundary tab's rows are
      read back without an exception. */
  lemma BoundaryTabReads(b: Boundary.BoundaryTab)
    requires b.Valid()
    ensures Reads(b.Snapshot()).Some?
  {
    var s := b.Snapshot();
    forall t, i | 0 <= t < |s| && 0 <= i < |s[t].rows|
      ensures Boundary.RowShaped(Boundary.TabNames[t], s[t].rows[i])
    {
      assert Boundary.TabValid(Boundary.TabNames[t], b.layouts[t]);
    }
    LaidOutTabsRead(s);
  }
}
