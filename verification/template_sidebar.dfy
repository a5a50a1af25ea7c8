/** The Task Constructor's sidebar: the list of built-in block templates,
    which the user can reorder one step at a time, and the form that
    registers a custom block type. */
module TemplateSidebar {
  import opened Results
  import opened Text
  import opened Sequences
  import opened TaskBlocks

  /** The templates start in the order of the built-in type list. */
  const InitialOrder: seq<string> := BlockTypes

  /** The up arrow of the template at `i`: it trades places with the one
      above it; the first template does not move. */
  function MoveUp(order: seq<string>, i: nat): (r: seq<string>)
    requires i < |order|
    ensures |r| == |order| && multiset(r) == multiset(order)
    ensures i == 0 ==> r == order
    ensures i > 0 ==> r[i - 1] == order[i] && r[i] == order[i - 1]
    ensures forall k :: 0 <= k < |order| && k != i && k + 1 != i ==> r[k] == order[k]
  {
    if i > 0 then Swap(order, i - 1, i) else order
  }

  /** The down arrow of the template at `i`: it trades places with the one
      below it; the last template does not move. */
  function MoveDown(order: seq<string>, i: nat): (r: seq<string>)
    requires i < |order|
    ensures |r| == |order| && multiset(r) == multiset(order)
    ensures i == |order| - 1 ==> r == order
    ensures i < |order| - 1 ==> r[i] == order[i + 1] && r[i + 1] == order[i]
    ensures forall k :: 0 <= k < |order| && k != i && k != i + 1 ==> r[k] == order[k]
  {
    if i < |order| - 1 then Swap(order, i, i + 1) else order
  }

  /** Moving a template up and then moving it back down restores the order. */
  lemma UpThenDown(order: seq<string>, i: nat)
    requires 0 < i < |order|
    ensures MoveDown(MoveUp(order, i), i - 1) == order
  {
    SwapInvolution(order, i - 1, i);
  }

  /** Moving a template down and then moving it back up restores the order. */
  lemma DownThenUp(order: seq<string>, i: nat)
    requires i + 1 < |order|
    ensures MoveUp(MoveDown(order, i), i + 1) == order
  {
    SwapInvolution(order, i, i + 1);
  }

  /** A click on one of the arrows of the template at `index`. */
  datatype Arrow = Up(index: nat) | Down(index: nat)

  /** Every click names a template that is on screen. */
  predicate OnScreen(order: seq<string>, clicks: seq<Arrow>) {
    forall k :: 0 <= k < |clicks| ==> clicks[k].index < |order|
  }

  function Click(order: seq<string>, a: Arrow): (r: seq<string>)
    requires a.index < |order|
    ensures |r| == |order| && multiset(r) == multiset(order)
  {
    match a
    case Up(i) => MoveUp(order, i)
    case Down(i) => MoveDown(order, i)
  }

  lemma OnScreenAfter(order: seq<string>, clicks: seq<Arrow>)
    requires clicks != [] && OnScreen(order, clicks)
    ensures OnScreen(Click(order, clicks[0]), clicks[1..])
  {
    forall k | 0 <= k < |clicks| - 1 ensures clicks[1..][k].index < |order| {
      assert clicks[1..][k] == clicks[k + 1];
    }
  }

  /** The order after a run of clicks. */
  function ApplyClicks(order: seq<string>, clicks: seq<Arrow>): (r: seq<string>)
    requires OnScreen(order, clicks)
    ensures |r| == |order|
    decreases |clicks|
  {
    if clicks == [] then order
    else
      OnScreenAfter(order, clicks);
      ApplyClicks(Click(order, clicks[0]), clicks[1..])
  }

  lemma ClickDistinct(order: seq<string>, a: Arrow)
    requires a.index < |order| && Distinct(order)
    ensures Distinct(Click(order, a))
  {
    match a
    case Up(i) => if i > 0 { DistinctSwap(order, i - 1, i); }
    case Down(i) => if i < |order| - 1 { DistinctSwap(order, i, i + 1); }
  }

  /** However the arrows are clicked, the sidebar shows every template once:
      the order stays a permutation of what it was, without repeats. */
  lemma {:induction false} ClicksPermute(order: seq<string>, clicks: seq<Arrow>)
    requires OnScreen(order, clicks) && Distinct(order)
    ensures multiset(ApplyClicks(order, clicks)) == multiset(order)
    ensures Distinct(ApplyClicks(order, clicks))
    decreases |clicks|
  {
    if clicks != [] {
      var next := Click(order, clicks[0]);
      ClickDistinct(order, clicks[0]);
      OnScreenAfter(order, clicks);
      ClicksPermute(next, clicks[1..]);
      assert ApplyClicks(order, clicks) == ApplyClicks(next, clicks[1..]);
    }
  }

  lemma TemplatesStayComplete(clicks: seq<Arrow>)
    requires OnScreen(InitialOrder, clicks)
    ensures |ApplyClicks(InitialOrder, clicks)| == |BlockTypes|
    ensures multiset(ApplyClicks(InitialOrder, clicks)) == multiset(BlockTypes)
    ensures Distinct(ApplyClicks(InitialOrder, clicks))
  {
    BlockTypesDistinct();
    ClicksPermute(InitialOrder, clicks);
  }

  // ---------------------------------------------------------------------
  // The custom block type form

  /** The form's two text inputs and whether it is open. */
  datatype CustomForm = CustomForm(typeInput: string, tooltipInput: string, isOpen: bool)

  const ClosedForm: CustomForm := CustomForm("", "", false)

  /** What the sidebar hands to the application: a type name and a tooltip. */
  datatype CustomRequest = CustomRequest(blockType: string, tooltip: string)

  function OpenForm(f: CustomForm): (r: CustomForm)
    ensures r.isOpen && r.typeInput == f.typeInput && r.tooltipInput == f.tooltipInput
  {
    f.(isOpen := true)
  }

  /** The cancel button closes the form but keeps what was typed. */
  function CancelForm(f: CustomForm): (r: CustomForm)
    ensures !r.isOpen && r.typeInput == f.typeInput && r.tooltipInput == f.tooltipInput
  {
    f.(isOpen := false)
  }

  /** The confirm button. It is disabled, and the handler does nothing, while
      the type name is blank; otherwise the trimmed name and tooltip are sent
      and the form is cleared and closed. */
  function SubmitCustomForm(f: CustomForm): (r: (CustomForm, Option<CustomRequest>))
    ensures r.1.Some? <==> !IsBlank(f.typeInput)
    ensures r.1.None? ==> r.0 == f
    ensures r.1.Some? ==>
              && r.1.value == CustomRequest(Trim(f.typeInput), Trim(f.tooltipInput))
              && r.0 == ClosedForm
  {
    TrimEmptyIffBlank(f.typeInput);
    if Trim(f.typeInput) != "" then
      (ClosedForm, Some(CustomRequest(Trim(f.typeInput), Trim(f.tooltipInput))))
    else (f, None)
  }

  /** A submitted name is never blank and is already trimmed, so the
      application's own blank check on a custom type never fires for a name
      that comes from this form. */
  lemma SubmittedNameIsClean(f: CustomForm)
    requires !IsBlank(f.typeInput)
    ensures var req := SubmitCustomForm(f).1.value;
            !IsBlank(req.blockType) && Trim(req.blockType) == req.blockType
  {
    TrimEmptyIffBlank(f.typeInput);
    TrimIdempotent(f.typeInput);
    TrimEmptyIffBlank(Trim(f.typeInput));
  }
}
