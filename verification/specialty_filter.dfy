/**
  The specialty checklist: a long list is collapsed to its first entries
  behind a "Show all" toggle, each entry is marked when selected, and a count
  line reports how many are selected.  `showAll` is the component's state and
  is passed in.
 */
module SpecialtyFilter {
  import opened Common
  import opened Text
  import DirectoryPage

  /** Lists with more entries than this are long. */
  const LongListThreshold: int := 15
  /** How many entries a collapsed long list shows. */
  const CollapsedCount: int := 10

  predicate IsLongList(specialties: seq<string>) {
    |specialties| > LongListThreshold
  }

  /** The state `showAll` starts in when the component is first shown with `specialties`. */
  function InitialShowAll(specialties: seq<string>): bool {
    !IsLongList(specialties)
  }

  /** The entries listed: all of them, or the first `CollapsedCount`. */
  function Displayed(specialties: seq<string>, showAll: bool): (r: seq<string>)
    ensures |r| <= |specialties| && r == specialties[..|r|]
    ensures |r| == if showAll then |specialties| else Min(CollapsedCount, |specialties|)
  {
    if showAll then specialties else specialties[..Min(CollapsedCount, |specialties|)]
  }

  /** One checklist entry: its text, whether its box is checked, and what a click reports. */
  datatype Row = Row(specialty: string, checked: bool, onChangeArg: string)

  function Rows(specialties: seq<string>, selected: seq<string>, showAll: bool): (rows: seq<Row>)
    ensures |rows| == |Displayed(specialties, showAll)|
    ensures forall i :: 0 <= i < |rows| ==>
      && rows[i].specialty == specialties[i]
      && (rows[i].checked <==> specialties[i] in selected)
      && rows[i].onChangeArg == specialties[i]
  {
    var shown := Displayed(specialties, showAll);
    seq(|shown|, i requires 0 <= i < |shown| => Row(shown[i], shown[i] in selected, shown[i]))
  }

  /** The toggle button's label; a short list has no button. */
  function ToggleLabel(specialties: seq<string>, showAll: bool): (button: Option<string>)
    ensures button.Some? <==> IsLongList(specialties)
    ensures button.Some? && showAll ==> button.value == "Show less"
    ensures button.Some? && !showAll ==> button.value == "Show all (" + NumberString(|specialties|) + ")"
  {
    if !IsLongList(specialties) then None
    else if showAll then Some("Show less")
    else Some("Show all (" + NumberString(|specialties|) + ")")
  }

  /** The count line, shown only when something is selected. */
  function SelectionLine(selected: seq<string>): (line: Option<string>)
    ensures line.Some? <==> |selected| > 0
    ensures line.Some? ==> line.value == NumberString(|selected|) + " specialties selected"
  {
    if |selected| > 0 then Some(NumberString(|selected|) + " specialties selected") else None
  }

  datatype Panel = Panel(rows: seq<Row>, toggle: Option<string>, selectionLine: Option<string>)

  function Render(specialties: seq<string>, selected: seq<string>, showAll: bool): Panel {
    Panel(Rows(specialties, selected, showAll), ToggleLabel(specialties, showAll), SelectionLine(selected))
  }

  /**
    When the panel is first shown, a short list is listed in full with no
    button, and a long list shows exactly its first ten entries under "Show
    all (n)".
   */
  lemma InitialView(specialties: seq<string>, selected: seq<string>)
    ensures var p := Render(specialties, selected, InitialShowAll(specialties));
      && (!IsLongList(specialties) ==>
            p.toggle == None && |p.rows| == |specialties|)
      && (IsLongList(specialties) ==>
            && |p.rows| == CollapsedCount
            && (forall i :: 0 <= i < CollapsedCount ==> p.rows[i].specialty == specialties[i])
            && p.toggle == Some("Show all (" + NumberString(|specialties|) + ")"))
  {
  }

  /**
    Pressing the button of a collapsed long list keeps the ten rows already
    shown, checks and all, and lists every further entry after them under
    "Show less"; pressing it again gives back the panel as first shown.
   */
  lemma ToggleTwiceRestores(specialties: seq<string>, selected: seq<string>)
    requires IsLongList(specialties)
    ensures var collapsed, expanded := Render(specialties, selected, false), Render(specialties, selected, true);
      && |expanded.rows| == |specialties|
      && collapsed.rows == expanded.rows[..CollapsedCount]
      && expanded.toggle == Some("Show less")
      && expanded.selectionLine == collapsed.selectionLine
    ensures Render(specialties, selected, false) == Render(specialties, selected, InitialShowAll(specialties))
  {
  }

  /**
    `showAll` is fixed when the panel first appears.  Shown first with an
    empty list, as before the advocates have loaded, it stays expanded: a long
    list that arrives later is listed in full, under "Show less".
   */
  lemma MountedBeforeLoad(specialties: seq<string>, selected: seq<string>)
    requires IsLongList(specialties)
    ensures var p := Render(specialties, selected, InitialShowAll([]));
      |p.rows| == |specialties| && p.toggle == Some("Show less")
  {
  }

  /**
    Clicking a row hands its own specialty to the page's toggle, which flips
    exactly that specialty's membership: the box's checked state inverts and
    every other row keeps its state.
   */
  lemma ClickFlipsOnlyThatRow(specialties: seq<string>, selected: seq<string>, showAll: bool, i: int)
    requires 0 <= i < |Rows(specialties, selected, showAll)|
    ensures var rows := Rows(specialties, selected, showAll);
      var after := Rows(specialties, DirectoryPage.ToggleSpecialty(selected, rows[i].onChangeArg), showAll);
      && |after| == |rows|
      && after[i].checked == !rows[i].checked
      && (forall j :: 0 <= j < |rows| && rows[j].specialty != rows[i].specialty ==> after[j].checked == rows[j].checked)
  {
  }

  /**
    Ticking an unselected specialty raises the count line by one, and
    unticking the only selected one removes the line.
   */
  lemma SelectionLineFollowsToggle(selected: seq<string>, specialty: string)
    ensures specialty !in selected ==>
      SelectionLine(DirectoryPage.ToggleSpecialty(selected, specialty))
        == Some(NumberString(|selected| + 1) + " specialties selected")
    ensures selected == [specialty] ==> SelectionLine(DirectoryPage.ToggleSpecialty(selected, specialty)) == None
  {
  }
}
