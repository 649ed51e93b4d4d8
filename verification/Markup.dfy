/** Grids of buttons: built row by row in place, and turned into a payload. */
module Markup {
  import opened Results
  import opened PayloadTree

  datatype ButtonTextAlign = LEFT | CENTER | RIGHT
  {
    function Value(): string
    {
      match this
      case LEFT => "left"
      case CENTER => "center"
      case RIGHT => "right"
    }
  }

  /** A button; `Valid` is what its constructor insists on. `data` holds the entries of its dictionary. */
  datatype Button = Button(
    labelText: string,
    command: Missing<string>,
    data: seq<Entry>,
    textColor: Missing<string>,
    backgroundColor: Missing<string>,
    align: ButtonTextAlign,
    silent: bool,
    widthRatio: Missing<int>,
    alert: Missing<string>,
    processOnClient: Missing<bool>,
    link: Missing<string>)
  {
    predicate Valid()
    {
      command.Given? || link.Given?
    }
  }

  type Grid = seq<seq<Button>>

  function Flatten(grid: Grid): seq<Button>
  {
    if grid == [] then [] else grid[0] + Flatten(grid[1..])
  }

  /** What adding one button does to the rows. */
  function AddToGrid(grid: Grid, button: Button, newRow: bool): Grid
  {
    if newRow || grid == [] then grid + [[button]]
    else grid[..|grid| - 1] + [grid[|grid| - 1] + [button]]
  }

  // ----- The object -----

  /** A row is a list the caller may hold on to. */
  class ButtonRow {
    var buttons: seq<Button>

    constructor (buttons: seq<Button>)
      ensures this.buttons == buttons
    {
      this.buttons := buttons;
    }
  }

  datatype MarkupError = CommandRequired

  class BaseMarkup {
    var rows: seq<ButtonRow>

    constructor (buttons: seq<ButtonRow>)
      ensures rows == buttons
    {
      rows := buttons;
    }

    function GridOf(): Grid
      reads this, rows
    {
      seq(|rows|, i requires 0 <= i < |rows| reads this, rows => rows[i].buttons)
    }

    /** The last row, which is the one that grows, stands in the grid only once. */
    predicate LastRowIsUnshared()
      reads this
    {
      rows == [] || rows[|rows| - 1] !in rows[..|rows| - 1]
    }

    /** `add_built_button`. */
    method AddBuiltButton(button: Button, newRow: bool)
      modifies this, if newRow || rows == [] then {} else {rows[|rows| - 1]}
      ensures GridOf() == AddToGrid(old(GridOf()), button, newRow) <==> newRow || old(LastRowIsUnshared())
      ensures newRow || old(rows) == [] ==>
        |rows| == |old(rows)| + 1 && rows[..|old(rows)|] == old(rows) && fresh(rows[|old(rows)|])
      ensures !newRow && old(rows) != [] ==>
        rows == old(rows) && rows[|rows| - 1].buttons == old(rows[|rows| - 1].buttons) + [button]
    {
      if newRow {
        var row := new ButtonRow([button]);
        rows := rows + [row];
        assert GridOf() == old(GridOf()) + [[button]];
        return;
      }
      if rows == [] {
        var row := new ButtonRow([]);
        rows := rows + [row];
      }
      var last := rows[|rows| - 1];
      assert old(LastRowIsUnshared()) ==> forall i | 0 <= i < |rows| - 1 :: rows[i] != last by {
        assert forall i | 0 <= i < |rows| - 1 :: rows[i] in rows[..|rows| - 1];
      }
      last.buttons := last.buttons + [button];
      ghost var grid := old(GridOf());
      if grid == [] {
        assert [] + [button] == [button];
        assert GridOf() == [] + [[button]];
      } else if old(LastRowIsUnshared()) {
        assert GridOf() == grid[..|grid| - 1] + [grid[|grid| - 1] + [button]];
      } else {
        var k :| 0 <= k < |rows| - 1 && rows[k] == last;
        assert |GridOf()[k]| == |grid[k]| + 1 && AddToGrid(grid, button, newRow)[k] == grid[k];
      }
    }

    /** `add_button`, once the keyword arguments are gathered into a button. */
    method AddButton(button: Button, newRow: bool) returns (r: Result<(), MarkupError>)
      modifies this, if newRow || rows == [] then {} else {rows[|rows| - 1]}
      ensures r == if button.Valid() then Success(()) else Failure(CommandRequired)
      ensures !button.Valid() ==> GridOf() == old(GridOf()) && rows == old(rows)
      ensures button.Valid() && (old(LastRowIsUnshared()) || newRow) ==>
        GridOf() == AddToGrid(old(GridOf()), button, newRow)
    {
      if button.link.Undefined? && button.command.Undefined? {
        return Failure(CommandRequired);
      }
      AddBuiltButton(button, newRow);
      r := Success(());
    }

    /** `add_row`: the caller's list becomes the last row. */
    method AddRow(row: ButtonRow)
      modifies this
      ensures rows == old(rows) + [row]
      ensures GridOf() == old(GridOf()) + [row.buttons]
      ensures LastRowIsUnshared() <==> row !in old(rows)
    {
      rows := rows + [row];
      assert rows[..|rows| - 1] == old(rows);
    }
  }

  /** A row added twice shows a button added once in both places. */
  method SharedRowDoublesButton(button: Button) returns (markup: BaseMarkup)
    ensures markup.GridOf() == [[button], [button]]
  {
    var row := new ButtonRow([]);
    markup := new BaseMarkup([]);
    markup.AddRow(row);
    markup.AddRow(row);
    label Before:
    markup.AddBuiltButton(button, false);
    assert markup.rows == old@Before(markup.rows) == [row, row];
    assert row.buttons == [] + [button] == [button];
  }

  // ----- Whole runs -----

  datatype Step = ButtonAdded(button: Button, newRow: bool) | RowAdded(row: seq<Button>)

  function Perform(grid: Grid, step: Step): Grid
  {
    match step
    case ButtonAdded(button, newRow) => AddToGrid(grid, button, newRow)
    case RowAdded(row) => grid + [row]
  }

  function Build(grid: Grid, steps: seq<Step>): Grid
  {
    if steps == [] then grid else Perform(Build(grid, steps[..|steps| - 1]), steps[|steps| - 1])
  }

  function BroughtBy(step: Step): seq<Button>
  {
    match step
    case ButtonAdded(button, _) => [button]
    case RowAdded(row) => row
  }

  /** The buttons the steps bring, in order. */
  function Brought(steps: seq<Step>): seq<Button>
  {
    if steps == [] then [] else Brought(steps[..|steps| - 1]) + BroughtBy(steps[|steps| - 1])
  }

  lemma {:induction false} FlattenConcat(a: Grid, b: Grid)
    ensures Flatten(a + b) == Flatten(a) + Flatten(b)
  {
    if a == [] {
      assert a + b == b;
    } else {
      assert (a + b)[1..] == a[1..] + b;
      FlattenConcat(a[1..], b);
    }
  }

  lemma {:induction false} FlattenRow(row: seq<Button>)
    ensures Flatten([row]) == row
  {
    assert [row][1..] == [];
  }

  lemma {:induction false} FlattenAfterStep(grid: Grid, step: Step)
    ensures Flatten(Perform(grid, step)) == Flatten(grid) + BroughtBy(step)
  {
    if step.RowAdded? {
      FlattenConcat(grid, [step.row]);
      FlattenRow(step.row);
    } else if step.newRow || grid == [] {
      FlattenConcat(grid, [[step.button]]);
      FlattenRow([step.button]);
    } else {
      var front, last := grid[..|grid| - 1], grid[|grid| - 1];
      assert grid == front + [last];
      FlattenConcat(front, [last]);
      FlattenConcat(front, [last + [step.button]]);
      FlattenRow(last);
      FlattenRow(last + [step.button]);
    }
  }

  /**
   No button is lost, none is made up, and reading the rows one after the other gives them in the order
   in which they came.
   */
  lemma {:induction false} ButtonsKeepOrder(grid: Grid, steps: seq<Step>)
    ensures Flatten(Build(grid, steps)) == Flatten(grid) + Brought(steps)
  {
    if steps == [] {
    } else {
      var front, step := steps[..|steps| - 1], steps[|steps| - 1];
      ButtonsKeepOrder(grid, front);
      FlattenAfterStep(Build(grid, front), step);
    }
  }

  lemma {:induction false} RowsAfterStep(grid: Grid, step: Step)
    ensures |grid| <= |Perform(grid, step)|
    ensures forall i | 0 <= i < |grid| :: grid[i] <= Perform(grid, step)[i]
    ensures forall row | row in Perform(grid, step) :: row != [] || row in grid || step == RowAdded(row)
  {
  }

  /** Rows stay where they are and only grow; an empty row is one that was there or was added empty. */
  lemma {:induction false} RowsOnlyGrow(grid: Grid, steps: seq<Step>)
    ensures |grid| <= |Build(grid, steps)|
    ensures forall i | 0 <= i < |grid| :: grid[i] <= Build(grid, steps)[i]
    ensures forall row | row in Build(grid, steps) :: row != [] || row in grid || RowAdded(row) in steps
  {
    if steps == [] {
    } else {
      var front, step := steps[..|steps| - 1], steps[|steps| - 1];
      hide Perform;
      RowsOnlyGrow(grid, front);
      RowsAfterStep(Build(grid, front), step);
      assert steps == front + [step];
      assert forall s | s in front :: s in steps;
      assert step in steps;
    }
  }

  /** A markup filled step by step, each added row a list of its own, holds the grid that was built. */
  method Fill(steps: seq<Step>) returns (markup: BaseMarkup)
    ensures fresh(markup) && markup.GridOf() == Build([], steps)
  {
    hide AddToGrid;
    markup := new BaseMarkup([]);
    var i := 0;
    while i < |steps|
      invariant 0 <= i <= |steps|
      invariant fresh(markup) && forall row | row in markup.rows :: fresh(row)
      invariant markup.LastRowIsUnshared()
      invariant markup.GridOf() == Build([], steps[..i])
    {
      assert steps[..i + 1][..i] == steps[..i];
      assert markup.rows != [] ==> markup.rows[|markup.rows| - 1] in markup.rows;
      match steps[i] {
        case ButtonAdded(button, newRow) =>
          ghost var before := markup.rows;
          markup.AddBuiltButton(button, newRow);
          if |markup.rows| > |before| {
            assert markup.rows == before + [markup.rows[|before|]];
          }
        case RowAdded(buttons) =>
          var row := new ButtonRow(buttons);
          markup.AddRow(row);
      }
      i := i + 1;
    }
    assert steps[..i] == steps;
  }
}
