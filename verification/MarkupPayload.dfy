/** Buttons and grids of buttons as they are sent. */
module MarkupPayload {
  import opened Results
  import opened PayloadTree
  import opened PayloadFields
  import opened Markup

  /** `api_button_from_domain`, dumped. */
  function ButtonTree(b: Button): Tree
  {
    Dict(ButtonEntries(b))
  }

  function ButtonEntries(b: Button): seq<Entry>
  {
    [
      Entry("command", TextField(b.command)),
      Entry("label", Chars(b.labelText)),
      Entry("data", Dict(b.data)),
      Entry("opts", Dict(OptionEntries(b)))
    ]
  }

  function OptionEntries(b: Button): seq<Entry>
  {
    var showAlert := if b.alert.Given? then Given(true) else Undefined;
    var handler := if b.processOnClient == Given(true) || b.link.Given? then Given("client") else Undefined;
    [
      Entry("silent", Bool(b.silent)),
      Entry("font_color", TextField(b.textColor)),
      Entry("background_color", TextField(b.backgroundColor)),
      Entry("align", Chars(b.align.Value())),
      Entry("h_size", NumberField(b.widthRatio)),
      Entry("show_alert", FlagField(showAlert)),
      Entry("alert_text", TextField(b.alert)),
      Entry("handler", TextField(handler)),
      Entry("link", TextField(b.link))
    ]
  }

  /** `api_markup_from_domain`, dumped. */
  function MarkupTree(grid: Grid): Tree
  {
    List(RowTrees(grid))
  }

  function RowTrees(grid: Grid): (r: seq<Tree>)
    ensures |r| == |grid|
  {
    seq(|grid|, i requires 0 <= i < |grid| => List(ButtonTrees(grid[i])))
  }

  function ButtonTrees(row: seq<Button>): (r: seq<Tree>)
    ensures |r| == |row|
  {
    seq(|row|, i requires 0 <= i < |row| => ButtonTree(row[i]))
  }

  lemma {:induction false} ButtonHasLeaf(b: Button)
    ensures HasLeaf(ButtonTree(b))
  {
    assert HasLeaf(ButtonEntries(b)[1].value);
  }

  lemma {:induction false} RowHasLeaf(row: seq<Button>)
    ensures HasLeaf(List(ButtonTrees(row)))
  {
    if row != [] {
      ButtonHasLeaf(row[0]);
      assert HasLeaf(ButtonTrees(row)[0]);
    }
  }

  /** Pruning leaves the grid its shape: every row, even an empty one, and every button of it stay in place. */
  lemma {:induction false} MarkupKeepsShape(grid: Grid)
    ensures HasLeaf(MarkupTree(grid))
    ensures var sent := Prune(MarkupTree(grid));
      && sent.List? && |sent.items| == |grid|
      && forall i | 0 <= i < |grid| ::
           && sent.items[i].List? && |sent.items[i].items| == |grid[i]|
           && forall j | 0 <= j < |grid[i]| :: sent.items[i].items[j] == Prune(ButtonTree(grid[i][j]))
  {
    hide ButtonTree;
    var rows := RowTrees(grid);
    forall x | x in rows ensures HasLeaf(x) {
      var i :| 0 <= i < |rows| && rows[i] == x;
      RowHasLeaf(grid[i]);
    }
    if rows != [] {
      assert rows[0] in rows;
    }
    AllItemsStay(rows);
    forall i | 0 <= i < |grid|
      ensures var row := PruneItems(rows)[i];
        && row.List? && |row.items| == |grid[i]|
        && forall j | 0 <= j < |grid[i]| :: row.items[j] == Prune(ButtonTree(grid[i][j]))
    {
      var buttons := ButtonTrees(grid[i]);
      forall x | x in buttons ensures HasLeaf(x) {
        var j :| 0 <= j < |buttons| && buttons[j] == x;
        ButtonHasLeaf(grid[i][j]);
      }
      AllItemsStay(buttons);
    }
  }

  /**
   Which fields of a button are sent: the label always, the command and the options if they were given,
   the data unless nothing of it is left.
   */
  lemma {:induction false} ButtonFields(b: Button)
    ensures var sent := Prune(ButtonTree(b));
      && Field(sent, "label") == Some(Chars(b.labelText))
      && Field(sent, "command") == (if b.command.Given? then Some(Chars(b.command.value)) else None)
      && Field(sent, "data") == (if HasLeaf(Dict(b.data)) then Some(Prune(Dict(b.data))) else None)
      && Field(sent, "opts") == Some(Prune(Dict(OptionEntries(b))))
  {
    hide HasLeaf, OptionEntries;
    var entries := ButtonEntries(b);
    FieldAfterPruning(entries, 0);
    FieldAfterPruning(entries, 1);
    FieldAfterPruning(entries, 2);
    FieldAfterPruning(entries, 3);
    ScalarsStay(b);
  }

  lemma {:induction false} ScalarsStay(b: Button)
    ensures forall t: Tree :: !t.IsContainer() ==> (HasLeaf(t) <==> !t.Absent?) && Prune(t) == t
    ensures HasLeaf(Dict(OptionEntries(b)))
  {
    assert HasLeaf(OptionEntries(b)[0].value);
  }

  lemma {:induction false} OptionKeysAreDistinct(b: Button)
    ensures DistinctKeys(OptionEntries(b))
  {
  }

  lemma {:induction false} LookFields(b: Button)
    ensures var sent := Prune(Dict(OptionEntries(b)));
      && Field(sent, "silent") == Some(Bool(b.silent))
      && Field(sent, "font_color") == (if b.textColor.Given? then Some(Chars(b.textColor.value)) else None)
      && Field(sent, "background_color")
         == (if b.backgroundColor.Given? then Some(Chars(b.backgroundColor.value)) else None)
      && Field(sent, "align") == (match b.align
                                  case LEFT => Some(Chars("left"))
                                  case CENTER => Some(Chars("center"))
                                  case RIGHT => Some(Chars("right")))
      && Field(sent, "h_size") == (if b.widthRatio.Given? then Some(Num(b.widthRatio.value)) else None)
  {
    hide Prune, Field, DistinctKeys;
    var entries := OptionEntries(b);
    OptionKeysAreDistinct(b);
    ScalarAfterPruning(entries, 0);
    ScalarAfterPruning(entries, 1);
    ScalarAfterPruning(entries, 2);
    ScalarAfterPruning(entries, 3);
    ScalarAfterPruning(entries, 4);
  }

  /**
   The client handles a click on a link or if told so; an alert is shown exactly if there is one; colours
   and width are sent exactly if given.
   */
  lemma {:induction false} OptionFields(b: Button)
    ensures var sent := Prune(Dict(OptionEntries(b)));
      && Field(sent, "silent") == Some(Bool(b.silent))
      && Field(sent, "font_color") == (if b.textColor.Given? then Some(Chars(b.textColor.value)) else None)
      && Field(sent, "background_color")
         == (if b.backgroundColor.Given? then Some(Chars(b.backgroundColor.value)) else None)
      && Field(sent, "align") == (match b.align
                                  case LEFT => Some(Chars("left"))
                                  case CENTER => Some(Chars("center"))
                                  case RIGHT => Some(Chars("right")))
      && Field(sent, "h_size") == (if b.widthRatio.Given? then Some(Num(b.widthRatio.value)) else None)
      && Field(sent, "show_alert") == (if b.alert.Given? then Some(Bool(true)) else None)
      && Field(sent, "alert_text") == (if b.alert.Given? then Some(Chars(b.alert.value)) else None)
      && Field(sent, "handler")
         == (if b.processOnClient == Given(true) || b.link.Given? then Some(Chars("client")) else None)
      && Field(sent, "link") == (if b.link.Given? then Some(Chars(b.link.value)) else None)
  {
    hide Prune, Field, DistinctKeys;
    LookFields(b);
    var entries := OptionEntries(b);
    OptionKeysAreDistinct(b);
    ScalarAfterPruning(entries, 5);
    ScalarAfterPruning(entries, 6);
    ScalarAfterPruning(entries, 7);
    ScalarAfterPruning(entries, 8);
  }
}
