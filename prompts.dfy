/**
 * The static table of prompt options and the restriction of that table to
 * the current selection (`promptOptions.filter(o => selectedPrompts.includes(o.id))`).
 */
module Prompts {
  import opened Selection

  /** One row of `promptOptions`; `caption` is the row's `label` (a reserved word in Dafny). */
  datatype PromptOption = PromptOption(id: string, caption: string, prompt: string)

  /** `promptOptions`: fixed at startup, never mutated. */
  const PromptOptions: seq<PromptOption> := [
    PromptOption("portrait", "Portrait",
      "a polaroid photo of the two people with a white curtain background, no props, slight blur, and a soft flash light source"),
    PromptOption("high-five", "High Five",
      "a polaroid photo of the two people high-fiving each other with a white curtain background, soft light, slightly blurred"),
    PromptOption("hug", "Hug",
      "a polaroid photo of the two people hugging with a white curtain background, soft light, slightly blurred")
  ]

  /** The ids of a table, in table order. */
  function Ids(table: seq<PromptOption>): (r: seq<string>)
    ensures |r| == |table|
    ensures forall o :: o in table ==> o.id in r
    decreases |table|
  {
    if table == [] then [] else [table[0].id] + Ids(table[1..])
  }

  predicate IsPromptId(id: string) {
    id in Ids(PromptOptions)
  }

  /**
   * What the page's selection always is: each id at most once, and only ids
   * of the table (the toggle buttons are the only writers, one per option).
   */
  predicate SelectionValid(selected: seq<string>) {
    NoDuplicates(selected) && forall id :: id in selected ==> IsPromptId(id)
  }

  lemma TableIdsDistinct()
    ensures NoDuplicates(Ids(PromptOptions))
  {
    assert Ids(PromptOptions) == ["portrait", "high-five", "hug"];
  }

  /**
   * The options whose id is selected, in the order of the TABLE (not the
   * order in which they were clicked).
   */
  function SelectedOptions(table: seq<PromptOption>, selected: seq<string>): (r: seq<PromptOption>)
    ensures forall o :: o in r <==> o in table && o.id in selected
    ensures IsSubsequence(r, table)
    decreases |table|
  {
    if table == [] then []
    else if table[0].id in selected then [table[0]] + SelectedOptions(table[1..], selected)
    else SelectedOptions(table[1..], selected)
  }

  /**
   * `selectedPromptObjects`: the prompts a run walks. Table ids are
   * distinct, so there are never more of them than selected ids.
   */
  function Chosen(selected: seq<string>): (r: seq<PromptOption>)
    ensures |r| <= |selected|
    ensures forall o :: o in r ==> o.id in selected
  {
    TableIdsDistinct();
    SelectedAtMostSelection(PromptOptions, selected);
    SelectedOptions(PromptOptions, selected)
  }

  /** Ids that the table does not contain do not influence the restriction. */
  lemma {:induction false} SelectedIgnoresForeignId(table: seq<PromptOption>, selected: seq<string>, x: string)
    requires x !in Ids(table)
    ensures SelectedOptions(table, selected) == SelectedOptions(table, Without(selected, x))
    decreases |table|
  {
    if table != [] {
      assert Ids(table) == [table[0].id] + Ids(table[1..]);
      SelectedIgnoresForeignId(table[1..], selected, x);
    }
  }

  lemma IdsSplit(table: seq<PromptOption>)
    requires table != [] && NoDuplicates(Ids(table))
    ensures table[0].id !in Ids(table[1..]) && NoDuplicates(Ids(table[1..]))
    ensures Ids(table) == [table[0].id] + Ids(table[1..])
  {
    var ids := Ids(table);
    assert ids == [table[0].id] + Ids(table[1..]);
    assert ids[1..] == Ids(table[1..]);
  }

  /** A table with distinct ids never yields more options than there are selected ids. */
  lemma {:induction false} SelectedAtMostSelection(table: seq<PromptOption>, selected: seq<string>)
    requires NoDuplicates(Ids(table))
    ensures |SelectedOptions(table, selected)| <= |selected|
    decreases |table|
  {
    if table != [] {
      IdsSplit(table);
      var x := table[0].id;
      if x in selected {
        SelectedIgnoresForeignId(table[1..], selected, x);
        SelectedAtMostSelection(table[1..], Without(selected, x));
      } else {
        SelectedAtMostSelection(table[1..], selected);
      }
    }
  }

  /** A valid selection yields exactly one option per selected id. */
  lemma {:induction false} SelectedMatchesSelection(table: seq<PromptOption>, selected: seq<string>)
    requires NoDuplicates(Ids(table)) && NoDuplicates(selected)
    requires forall id :: id in selected ==> id in Ids(table)
    ensures |SelectedOptions(table, selected)| == |selected|
    decreases |table|
  {
    if table == [] {
      HeadIsMember(selected);
    } else {
      IdsSplit(table);
      var x := table[0].id;
      if x in selected {
        var k :| 0 <= k < |selected| && selected[k] == x;
        WithoutAt(selected, k);
        WithoutKeepsNoDuplicates(selected, x);
        SelectedIgnoresForeignId(table[1..], selected, x);
        SelectedMatchesSelection(table[1..], Without(selected, x));
      } else {
        SelectedMatchesSelection(table[1..], selected);
      }
    }
  }

  lemma SelectionValidMatches(selected: seq<string>)
    requires SelectionValid(selected)
    ensures |SelectedOptions(PromptOptions, selected)| == |selected|
  {
    TableIdsDistinct();
    SelectedMatchesSelection(PromptOptions, selected);
  }

  /** Clicking a table option keeps the selection valid. */
  lemma ToggleKeepsSelectionValid(selected: seq<string>, id: string)
    requires SelectionValid(selected) && IsPromptId(id)
    ensures SelectionValid(Toggle(selected, id))
  {
    ToggleKeepsNoDuplicates(selected, id);
  }

  /** Clicking "Hug" and then "Portrait" still runs Portrait first. */
  lemma TableOrderNotClickOrder()
    ensures SelectedOptions(PromptOptions, Toggle(Toggle([], "hug"), "portrait"))
         == [PromptOptions[0], PromptOptions[2]]
  {
    assert Toggle(Toggle([], "hug"), "portrait") == ["hug", "portrait"];
    assert PromptOptions[1].id !in ["hug", "portrait"];
  }
}
