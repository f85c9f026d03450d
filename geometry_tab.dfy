/** The Geometry tab: mesh file names, the connectivity type and the list of
    boundary-file rows that the user grows and shrinks. Each row has a label
    "B-n", a line edit for the file path whose placeholder names the row
    number, and a delete button that is shown only while there is more than
    one row. */
module Geometry {
  import opened Strings
  import opened Seqs
  import opened Widgets

  /** The connectivity types offered, in the order the combo box lists them. */
  const ConnectivityTypes: seq<string> := ["4-Node Quadrilateral", "3-Node Triangle", "6-Node Triangle"]

  /** One boundary-file row: its container widget, the label text, the line
      edit's placeholder and text, and whether its delete button is visible. */
  datatype FileRow = FileRow(widget: Widget, labelText: string, placeholder: string, file: string, deleteVisible: bool)

  function Placeholder(n: nat): string {
    "Select file for Boundary " + NatToString(n) + "..."
  }

  /** The row that belongs to widget `w`. */
  function OwnedBy(w: Widget): FileRow -> bool {
    (r: FileRow) => r.widget == w
  }

  /** The state the refresh leaves the rows in: row i is numbered i + 1 in its
      label and its placeholder, and every delete button is visible exactly
      when there is more than one row. */
  predicate Numbered(rows: seq<FileRow>) {
    forall i :: 0 <= i < |rows| ==>
      rows[i].labelText == RowLabel(i + 1) &&
      rows[i].placeholder == Placeholder(i + 1) &&
      rows[i].deleteVisible == (|rows| > 1)
  }

  /** The rows keep their widgets and their file texts, in the same order. */
  predicate SameRows(a: seq<FileRow>, b: seq<FileRow>) {
    |a| == |b| && forall i :: 0 <= i < |a| ==> a[i].widget == b[i].widget && a[i].file == b[i].file
  }

  predicate DistinctWidgets(rows: seq<FileRow>) {
    forall i, j :: 0 <= i < j < |rows| ==> rows[i].widget != rows[j].widget
  }

  /** The rows as the refresh leaves them: numbered, and otherwise unchanged. */
  function Refreshed(rows: seq<FileRow>): (r: seq<FileRow>)
    ensures Numbered(r) && SameRows(rows, r)
  {
    seq(|rows|, i requires 0 <= i < |rows| =>
      rows[i].(labelText := RowLabel(i + 1), placeholder := Placeholder(i + 1), deleteVisible := |rows| > 1))
  }

  /** The file paths of the rows, in order. */
  function Files(rows: seq<FileRow>): (fs: seq<string>)
    ensures |fs| == |rows|
    ensures forall i :: 0 <= i < |rows| ==> fs[i] == rows[i].file
  {
    seq(|rows|, i requires 0 <= i < |rows| => rows[i].file)
  }

  class GeometryTab {
    var coordFile: string
    var connFile: string
    /** The connectivity combo box's current index. */
    var connType: int
    var rows: seq<FileRow>

    /** Every row has its own widget, and the combo box shows one of its options. */
    ghost predicate Consistent()
      reads this
    {
      DistinctWidgets(rows) && 0 <= connType < |ConnectivityTypes|
    }

    /** What holds between user actions: at least one row, all numbered. */
    ghost predicate Valid()
      reads this
    {
      Consistent() && |rows| >= 1 && Numbered(rows)
    }

    /** The tab as it is first shown: empty file names, the first connectivity
        type, and one boundary-file row. */
    constructor ()
      ensures Valid()
      ensures coordFile == "" && connFile == "" && connType == 0
      ensures |rows| == 1 && rows[0].labelText == "B-1" && rows[0].file == "" && !rows[0].deleteVisible
    {
      coordFile := "";
      connFile := "";
      connType := 0;
      rows := [];
      new;
      var _ := AddBoundaryRow();
    }

    /** Appends a row for a new widget `w`, then refreshes: the old rows keep
        their order and files, and the new row is last, labelled with the new
        length, with an empty file. */
    method AddBoundaryRow() returns (w: Widget)
      requires Consistent()
      modifies this
      ensures fresh(w)
      ensures rows == Refreshed(old(rows) + [FileRow(w, RowLabel(|old(rows)| + 1), Placeholder(|old(rows)| + 1), "", true)])
      ensures Valid()
      ensures |rows| == |old(rows)| + 1 && rows[|rows| - 1].labelText == RowLabel(|rows|) && rows[|rows| - 1].file == ""
      ensures coordFile == old(coordFile) && connFile == old(connFile) && connType == old(connType)
    {
      var n := |rows| + 1;
      w := new Widget();
      rows := rows + [FileRow(w, RowLabel(n), Placeholder(n), "", true)];
      RefreshUi();
    }

    /** Removes the row of widget `w` unless it is the only row left. Only the
        first row of `w` goes, and a widget with no row removes nothing. */
    method RemoveBoundaryRow(w: Widget)
      requires Valid()
      modifies this
      ensures Valid()
      ensures |old(rows)| <= 1 ==> rows == old(rows)
      ensures |old(rows)| > 1 ==> rows == Refreshed(RemoveFirst(old(rows), OwnedBy(w)))
      ensures coordFile == old(coordFile) && connFile == old(connFile) && connType == old(connType)
    {
      if |rows| <= 1 {
        return;
      }
      ghost var removed := RemoveFirst(rows, OwnedBy(w));
      var i := 0;
      while i < |rows|
        invariant 0 <= i <= |rows| == |old(rows)|
        invariant rows == old(rows)
        invariant forall k :: 0 <= k < i ==> !OwnedBy(w)(rows[k])
      {
        if rows[i].widget == w {
          RemoveFirstAt(rows, OwnedBy(w), i);
          rows := rows[..i] + rows[i + 1..];
          break;
        }
        i := i + 1;
      }
      if rows == old(rows) {
        RemoveFirstNone(rows, OwnedBy(w));
      }
      assert rows == removed;
      RemoveKeepsDistinct(old(rows), w);
      RemoveKeepsOthers(old(rows), w);
      RefreshedValid(removed);
      RefreshUi();
    }

    /** Renumbers every row and sets the delete buttons' visibility. */
    method RefreshUi()
      modifies this
      ensures rows == Refreshed(old(rows))
      ensures coordFile == old(coordFile) && connFile == old(connFile) && connType == old(connType)
    {
      var showDelete := |rows| > 1;
      var i := 0;
      while i < |rows|
        invariant 0 <= i <= |rows| == |old(rows)|
        invariant rows[..i] == Refreshed(old(rows))[..i]
        invariant rows[i..] == old(rows)[i..]
        invariant coordFile == old(coordFile) && connFile == old(connFile) && connType == old(connType)
      {
        rows := rows[..i] + [rows[i].(labelText := RowLabel(i + 1), placeholder := Placeholder(i + 1), deleteVisible := showDelete)] + rows[i + 1..];
        i := i + 1;
      }
    }

    /** The user types or browses a path into row `i`'s line edit. */
    method EditFile(i: nat, text: string)
      requires Valid() && i < |rows|
      modifies this
      ensures Valid()
      ensures rows == old(rows)[i := old(rows)[i].(file := text)]
      ensures coordFile == old(coordFile) && connFile == old(connFile) && connType == old(connType)
    {
      rows := rows[i := rows[i].(file := text)];
    }

    /** `get_conn_type`: the text of the selected connectivity type. */
    function ConnTypeText(): (t: string)
      reads this
      requires Consistent()
      ensures t in ConnectivityTypes
    {
      CurrentText(ConnectivityTypes, connType)
    }
  }

  // ---------------------------------------------------------------------------
  // Properties of the row list
  // ---------------------------------------------------------------------------

  /** Numbered rows are left as they are by a refresh, so refreshing twice is
      refreshing once. */
  lemma NumberedIsFixed(rows: seq<FileRow>)
    requires Numbered(rows)
    ensures Refreshed(rows) == rows
  {
  }

  lemma RefreshIdempotent(rows: seq<FileRow>)
    ensures Refreshed(Refreshed(rows)) == Refreshed(rows)
  {
    NumberedIsFixed(Refreshed(rows));
  }

  /** Removal keeps every other row, in order, and drops the row of `w`
      when `w` has one: the list shrinks by exactly that row. */
  lemma {:induction false} RemoveKeepsOthers(rows: seq<FileRow>, w: Widget)
    ensures var r := RemoveFirst(rows, OwnedBy(w));
      (forall x :: x in r ==> x in rows) &&
      (forall x :: x in rows && x.widget != w ==> x in r) &&
      |r| == (if exists k :: 0 <= k < |rows| && rows[k].widget == w then |rows| - 1 else |rows|)
  {
    if rows != [] {
      RemoveKeepsOthers(rows[1..], w);
      if rows[0].widget != w {
        assert forall k :: 0 <= k < |rows[1..]| ==> rows[1..][k] == rows[k + 1];
        if exists k :: 0 <= k < |rows| && rows[k].widget == w {
          var k :| 0 <= k < |rows| && rows[k].widget == w;
          assert rows[1..][k - 1].widget == w;
        }
      }
      assert forall x :: x in rows ==> x == rows[0] || x in rows[1..];
    }
  }

  /** With distinct widgets, the removed widget has no row left. */
  lemma {:induction false} RemoveKeepsDistinct(rows: seq<FileRow>, w: Widget)
    requires DistinctWidgets(rows)
    ensures DistinctWidgets(RemoveFirst(rows, OwnedBy(w)))
    ensures (exists k :: 0 <= k < |rows| && rows[k].widget == w) ==>
      forall x :: x in RemoveFirst(rows, OwnedBy(w)) ==> x.widget != w
  {
    if rows != [] {
      DistinctTail(rows);
      RemoveKeepsDistinct(rows[1..], w);
      RemoveKeepsOthers(rows[1..], w);
      var rest := RemoveFirst(rows[1..], OwnedBy(w));
      if rows[0].widget != w {
        assert RemoveFirst(rows, OwnedBy(w)) == [rows[0]] + rest;
        if exists k :: 0 <= k < |rows| && rows[k].widget == w {
          var k :| 0 <= k < |rows| && rows[k].widget == w;
          assert rows[1..][k - 1].widget == w;
        }
      }
    }
  }

  /** The rows after the first have distinct widgets, none of them the first's. */
  lemma DistinctTail(rows: seq<FileRow>)
    requires DistinctWidgets(rows) && rows != []
    ensures DistinctWidgets(rows[1..])
    ensures forall x :: x in rows[1..] ==> x.widget != rows[0].widget
  {
    forall i, j | 0 <= i < j < |rows[1..]|
      ensures rows[1..][i].widget != rows[1..][j].widget
    {
      assert rows[1..][i] == rows[i + 1] && rows[1..][j] == rows[j + 1];
    }
    forall x | x in rows[1..]
      ensures x.widget != rows[0].widget
    {
      var j :| 0 <= j < |rows[1..]| && rows[1..][j] == x;
      assert rows[j + 1] == x;
    }
  }

  /** Refreshing keeps the rows' widgets apart and their number. */
  lemma RefreshedValid(rows: seq<FileRow>)
    ensures DistinctWidgets(rows) ==> DistinctWidgets(Refreshed(rows))
    ensures |Refreshed(rows)| == |rows|
  {
  }

  /** Removing rows never leaves the list empty: it has one row more than any
      removal can take away. */
  lemma RemoveLeavesOne(rows: seq<FileRow>, w: Widget)
    requires |rows| > 1
    ensures |Refreshed(RemoveFirst(rows, OwnedBy(w)))| >= 1
  {
    RemoveKeepsOthers(rows, w);
  }
}
