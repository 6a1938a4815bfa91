/**
  The `list` command: one line per registry name, in registry order, each
  made of a label column (`(custom)` for a custom template, blanks
  otherwise), the name padded with dashes to a common width, and the URL.
  Colouring is left out, so a cell is its plain text.
 */
module TemplateList {

  import opened Wrappers
  import opened Dicts
  import opened Strings
  import opened TemplateHelper

  /** The text of the label column. */
  const LabelText: string := "(custom)"

  /** The longest name; 0 when there are none. */
  function MaxLength(names: seq<string>): (m: nat)
    ensures forall i :: 0 <= i < |names| ==> |names[i]| <= m
    ensures names == [] ==> m == 0
  {
    if names == [] then 0
    else
      var init := names[..|names| - 1];
      var rest := MaxLength(init);
      assert forall i :: 0 <= i < |init| ==> names[i] == init[i];
      var last := |names[|names| - 1]|;
      if last >= rest then last else rest
  }

  /** The width of the name column: one more than the longest name. */
  function NamePads(names: seq<string>): (pads: nat)
    ensures forall i :: 0 <= i < |names| ==> |names[i]| < pads
  {
    MaxLength(names) + 1
  }

  /** `label`: the label text of a record, empty unless it is marked custom. */
  function Label(t: Template): string {
    if t.custom == Some(true) then LabelText else ""
  }

  /** The label column: as wide as `(custom)`, which it shows exactly for the records marked custom. */
  function LabelCell(t: Template): (cell: string)
    ensures |cell| == |LabelText|
    ensures cell == LabelText <==> t.custom == Some(true)
    ensures t.custom != Some(true) ==> forall i :: 0 <= i < |cell| ==> cell[i] == ' '
  {
    if t.custom == Some(true) then LabelText
    else
      var blank := Repeat(' ', |LabelText|);
      assert blank[0] != LabelText[0];
      blank
  }

  /** The label column is the label padded at the start with blanks to the width of `(custom)`. */
  lemma LabelCellPadded(t: Template)
    ensures LabelCell(t) == PadStart(Label(t), |LabelText|, ' ')
  {
    var padded := PadStart(Label(t), |LabelText|, ' ');
    if t.custom != Some(true) {
      assert padded == Repeat(' ', |LabelText|);
    }
  }

  /** The name column: the name and a space, then dashes up to `pads` characters. */
  function NameCell(name: string, pads: int): (cell: string)
    ensures |cell| == if |name| + 1 >= pads then |name| + 1 else pads
    ensures cell[..|name|] == name && cell[|name|] == ' '
    ensures forall i :: |name| < i < |cell| ==> cell[i] == '-'
  {
    var r := PadEnd(name + " ", pads, '-');
    assert r[..|name| + 1] == name + " ";
    assert r[..|name|] == r[..|name| + 1][..|name|];
    r
  }

  /** The three cells of a line, joined by single spaces. */
  function Row(name: string, t: Template, pads: int): string {
    LabelCell(t) + " " + NameCell(name, pads) + " " + t.url
  }

  /** The formatted lines of `names`, in their order. */
  function Rows(names: seq<string>, vals: map<string, Template>, pads: int): (rows: seq<string>)
    requires forall j :: 0 <= j < |names| ==> names[j] in vals
    ensures |rows| == |names|
    decreases |names|
  {
    if names == [] then []
    else
      var init, last := names[..|names| - 1], names[|names| - 1];
      assert forall j :: 0 <= j < |init| ==> init[j] == names[j];
      Rows(init, vals, pads) + [Row(last, vals[last], pads)]
  }

  /** Line `j` of `Rows` is the row of the `j`-th name. */
  lemma {:induction false} RowsAt(names: seq<string>, vals: map<string, Template>, pads: int, j: nat)
    requires forall k :: 0 <= k < |names| ==> names[k] in vals
    requires j < |names|
    ensures Rows(names, vals, pads)[j] == Row(names[j], vals[names[j]], pads)
    decreases |names|
  {
    var init := names[..|names| - 1];
    assert forall k :: 0 <= k < |init| ==> init[k] == names[k];
    if j < |init| {
      RowsAt(init, vals, pads, j);
    }
  }

  /** The rows of one name more are the rows so far and the row of that name. */
  lemma {:induction false} RowsSnoc(names: seq<string>, vals: map<string, Template>, pads: int, i: nat)
    requires forall k :: 0 <= k < |names| ==> names[k] in vals
    requires i < |names|
    ensures Rows(names[..i + 1], vals, pads) == Rows(names[..i], vals, pads) + [Row(names[i], vals[names[i]], pads)]
  {
    assert names[..i + 1][..i] == names[..i];
  }

  /** The `forEach` over the names: one formatted line each, in order, the name column `pads` wide. */
  method FormatRows(names: seq<string>, vals: map<string, Template>, pads: int) returns (rows: seq<string>)
    requires forall k :: 0 <= k < |names| ==> names[k] in vals
    ensures rows == Rows(names, vals, pads)
  {
    rows := [];
    var i := 0;
    while i < |names|
      invariant 0 <= i <= |names|
      invariant rows == Rows(names[..i], vals, pads)
    {
      var name := names[i];
      var line := Row(name, vals[name], pads);
      RowsSnoc(names, vals, pads, i);
      rows := rows + [line];
      i := i + 1;
    }
    assert names[..i] == names;
  }

  /**
    `list`: a blank line, one formatted line per registry name in registry
    order, and a blank line.
   */
  method List(store: TemplateStore) returns (lines: seq<string>)
    requires store.Valid()
    ensures var all := Registry(store.builtins, store.GetCustomTemplates());
      lines == [""] + Rows(all.keys, all.vals, NamePads(all.keys)) + [""]
  {
    var all := store.GetAllTemplates();
    var names := all.keys;
    var namePads := NamePads(names);
    assert forall k :: 0 <= k < |names| ==> names[k] in all.vals;
    var rows := FormatRows(names, all.vals, namePads);
    lines := [""] + rows + [""];
  }

  /** Every name column of a listing has the same width, so the URLs line up. */
  lemma NameColumnsAligned(names: seq<string>, i: nat, t: Template)
    requires i < |names|
    ensures |NameCell(names[i], NamePads(names))| == NamePads(names)
    ensures |Row(names[i], t, NamePads(names))| == |LabelText| + NamePads(names) + 2 + |t.url|
  {
  }

  /** Three cells joined by single spaces can be read back at their columns. */
  lemma JoinedColumns(a: string, b: string, c: string)
    ensures var row := a + " " + b + " " + c;
      row[..|a|] == a && row[|a| + 1..|a| + 1 + |b|] == b && row[|a| + |b| + 2..] == c
  {
    var row := a + " " + b + " " + c;
    assert row == a + (" " + b + " " + c);
    assert row[|a| + |b| + 2..] == c by {
      assert row == (a + " " + b + " ") + c;
    }
    assert row[|a| + 1..] == b + " " + c by {
      assert row == (a + " ") + (b + " " + c);
    }
    assert row[|a| + 1..|a| + 1 + |b|] == row[|a| + 1..][..|b|];
  }

  /** A line of the listing holds the label, the name and the URL at fixed columns. */
  lemma RowColumns(name: string, t: Template, pads: int)
    requires |name| < pads
    ensures var row := Row(name, t, pads);
      && row[..|LabelText|] == LabelCell(t)
      && row[|LabelText| + 1..|LabelText| + 1 + |name|] == name
      && row[|LabelText| + pads + 2..] == t.url
  {
    var labelCell, cell := LabelCell(t), NameCell(name, pads);
    CellsAt(labelCell, cell, t.url, |name|);
  }

  /** The cells of a row, with the first `n` characters of the middle one. */
  lemma CellsAt(a: string, b: string, c: string, n: nat)
    requires n <= |b|
    ensures var row := a + " " + b + " " + c;
      && row[..|a|] == a
      && row[|a| + 1..|a| + 1 + n] == b[..n]
      && row[|a| + |b| + 2..] == c
  {
    var row := a + " " + b + " " + c;
    JoinedColumns(a, b, c);
    assert row[|a| + 1..|a| + 1 + n] == row[|a| + 1..|a| + 1 + |b|][..n];
  }

  /** A longest name: its length is `MaxLength(names)`. */
  lemma {:induction false} LongestName(names: seq<string>) returns (i: nat)
    requires names != []
    ensures i < |names| && |names[i]| == MaxLength(names)
    decreases |names|
  {
    var init := names[..|names| - 1];
    if |names[|names| - 1]| >= MaxLength(init) || init == [] {
      i := |names| - 1;
    } else {
      i := LongestName(init);
      assert names[i] == init[i];
    }
  }

  /** A longest name is followed by a single space and no dash. */
  lemma LongestNameHasNoDashes(names: seq<string>)
    requires names != []
    ensures exists i :: 0 <= i < |names| && NameCell(names[i], NamePads(names)) == names[i] + " "
  {
    var i := LongestName(names);
    var cell := NameCell(names[i], NamePads(names));
    assert cell == cell[..|names[i]|] + [cell[|names[i]|]];
  }

}
