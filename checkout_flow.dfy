/**
 * The checkout step sequencer of a checkout flow plugin: the ordered step list,
 * navigation to the first, last, next and previous step (with the behaviour of
 * PHP's array_search, array_slice and key), the skipping of steps that have no
 * visible pane, and the action buttons of a step.
 */
module CheckoutFlow {
  import opened Wrappers

  type StepId = string
  type PaneId = string

  /** What the flow manager supplies: the step ids in order and the pane ids of each step in order. */
  datatype Flow = Flow(steps: seq<StepId>, panes: map<StepId, seq<PaneId>>)

  /** A form handler: a method of a pane object (`[$pane, 'validateForm']`) or of the form (`'::submitForm'`). */
  datatype Handler = PaneMethod(pane: PaneId, name: string) | FormMethod(name: string)

  /** The "Next" button with its ordered validate and submit handler lists. */
  datatype NextButton = NextButton(validate: seq<Handler>, submit: seq<Handler>)

  /** The actions of a step: the "Previous" button's submit handlers, the "Next" button, the "Cancel" link's route. */
  datatype FormActions = FormActions(previous: Option<seq<Handler>>, next: Option<NextButton>, cancel: Option<string>)

  /** The built checkout form: the ids of the panes built, the actions and the title. */
  datatype CheckoutForm = CheckoutForm(panes: seq<PaneId>, actions: FormActions, title: string)

  /**
   * The position argument of getStep: the four names its callers pass, and
   * `Unknown` for any name other than those four, which the switch sends to its
   * default branch.
   */
  datatype Position = First | Last | Next | Previous | Unknown

  const CancelRoute: string := "commerce_cart.page"

  /** The keys of a PHP array are distinct. */
  predicate Distinct(s: seq<StepId>)
  {
    forall i, j :: 0 <= i < j < |s| ==> s[i] != s[j]
  }

  // ---------------------------------------------------------------------------
  // PHP array primitives over the ordered key list
  // ---------------------------------------------------------------------------

  /** `x` first occurs in `keys` at index `i`. */
  predicate FoundAt(keys: seq<StepId>, x: StepId, i: int)
  {
    0 <= i < |keys| && keys[i] == x && x !in keys[..i]
  }

  /** array_search: the index of the first key equal to `x`, or FALSE (None). */
  function ArraySearch(keys: seq<StepId>, x: StepId): (r: Option<nat>)
    ensures r.Some? ==> FoundAt(keys, x, r.value)
    ensures r.None? <==> x !in keys
  {
    if keys == [] then None
    else if keys[0] == x then Some(0)
    else match ArraySearch(keys[1..], x)
      case None => None
      case Some(i) =>
        assert keys[..i + 1] == [keys[0]] + keys[1..][..i];
        Some(i + 1)
  }

  /** The result of array_search used in arithmetic: FALSE counts as 0. */
  function SearchIndex(keys: seq<StepId>, x: StepId): nat
  {
    match ArraySearch(keys, x)
    case Some(i) => i
    case None => 0
  }

  /**
   * array_slice($a, $offset, $length): an offset past the end gives the empty
   * array; a negative offset counts from the end and is clipped at the start;
   * a length reaching past the end is cut at the end.
   */
  function ArraySlice(a: seq<StepId>, offset: int, length: Option<nat>): (r: seq<StepId>)
    ensures offset > |a| ==> r == []
    ensures offset <= |a| ==>
      var start := if offset >= 0 then offset else if |a| + offset < 0 then 0 else |a| + offset;
      && |r| == (if length.Some? && length.value < |a| - start then length.value else |a| - start)
      && forall k :: 0 <= k < |r| ==> r[k] == a[start + k]
  {
    var n := |a|;
    if offset > n then []
    else
      var start := if offset >= 0 then offset else if n + offset < 0 then 0 else n + offset;
      var len := match length
        case None => n - start
        case Some(l) => if start + l > n then n - start else l;
      a[start..start + len]
  }

  /** key(): the key at the array's internal pointer, the first one; NULL for an empty array. */
  function Key(a: seq<StepId>): (r: Option<StepId>)
    ensures r.None? <==> a == []
    ensures r.Some? ==> r.value == a[0]
  {
    if a == [] then None else Some(a[0])
  }

  /** The step at index `i`, or NULL when `i` is outside the list. */
  function StepAt(steps: seq<StepId>, i: int): Option<StepId>
  {
    if 0 <= i < |steps| then Some(steps[i]) else None
  }

  // ---------------------------------------------------------------------------
  // getStep and its four callers
  // ---------------------------------------------------------------------------

  /**
   * getStep($position) with `current` for `$this->step`. The contract states the
   * result by index: the first step for any position other than "last", "next" and
   * "previous"; the final step for "last"; the step after the current one for
   * "next" (the step at index 1 when the current step is not listed); the step
   * before the current one for "previous", wrapping to the final step when the
   * current step is the first one or is not listed.
   */
  function GetStep(steps: seq<StepId>, current: StepId, position: Position): (r: Option<StepId>)
    ensures position == Last ==> r == StepAt(steps, |steps| - 1)
    ensures position == Next ==>
      (forall i | FoundAt(steps, current, i) :: r == StepAt(steps, i + 1)) &&
      (current !in steps ==> r == StepAt(steps, 1))
    ensures position == Previous ==>
      (forall i | FoundAt(steps, current, i) ::
         r == if i >= 1 then StepAt(steps, i - 1) else StepAt(steps, |steps| - 1)) &&
      (current !in steps ==> r == StepAt(steps, |steps| - 1))
    ensures position.First? || position.Unknown? ==> r == StepAt(steps, 0)
  {
    match position
    case Last => Key(ArraySlice(steps, -1, Some(1)))
    case Next => Key(ArraySlice(steps, SearchIndex(steps, current) + 1, None))
    case Previous => Key(ArraySlice(steps, SearchIndex(steps, current) - 1, None))
    case _ => Key(steps)
  }

  /** getFirstStep: the first step, whatever the current one. */
  function FirstStep(steps: seq<StepId>, current: StepId): (r: Option<StepId>)
    ensures r == StepAt(steps, 0)
  {
    GetStep(steps, current, First)
  }

  /** getLastStep: the final step, whatever the current one. */
  function LastStep(steps: seq<StepId>, current: StepId): (r: Option<StepId>)
    ensures r == StepAt(steps, |steps| - 1)
  {
    GetStep(steps, current, Last)
  }

  /** getNextStep: the step after the current one; the step at index 1 from an unlisted one. */
  function NextStep(steps: seq<StepId>, current: StepId): (r: Option<StepId>)
    ensures current in steps ==> r == StepAt(steps, SearchIndex(steps, current) + 1)
    ensures current !in steps ==> r == StepAt(steps, 1)
  {
    GetStep(steps, current, Next)
  }

  /** getPreviousStep: the step before the current one; the final step from the first or an unlisted one. */
  function PreviousStep(steps: seq<StepId>, current: StepId): (r: Option<StepId>)
    ensures current in steps ==>
      var i := SearchIndex(steps, current);
      r == if i >= 1 then StepAt(steps, i - 1) else StepAt(steps, |steps| - 1)
    ensures current !in steps ==> r == StepAt(steps, |steps| - 1)
  {
    GetStep(steps, current, Previous)
  }

  // ---------------------------------------------------------------------------
  // Buttons
  // ---------------------------------------------------------------------------

  /** PHP's loose `==` between a step id and a step-or-NULL: NULL equals only the empty string. */
  predicate LooseEquals(step: StepId, other: Option<StepId>)
  {
    match other
    case None => step == ""
    case Some(s) => step == s
  }

  /** The "Previous" button exists: the step is neither the first nor the last. */
  predicate HasPrevious(steps: seq<StepId>, step: StepId)
    ensures HasPrevious(steps, step) <==>
      if steps == [] then step != "" else step != steps[0] && step != steps[|steps| - 1]
  {
    !LooseEquals(step, FirstStep(steps, step)) && !LooseEquals(step, LastStep(steps, step))
  }

  /** The "Next" button and the "Cancel" link exist: the step is not the last. */
  predicate HasNext(steps: seq<StepId>, step: StepId)
    ensures HasNext(steps, step) <==> if steps == [] then step != "" else step != steps[|steps| - 1]
  {
    !LooseEquals(step, LastStep(steps, step))
  }

  /**
   * `hs` holds `name` of every pane in pane order, followed by the form's own
   * `'::' . name`.
   */
  predicate PaneHandlers(hs: seq<Handler>, panes: seq<PaneId>, name: string)
  {
    && |hs| == |panes| + 1
    && (forall k :: 0 <= k < |panes| ==> hs[k] == PaneMethod(panes[k], name))
    && hs[|panes|] == FormMethod("::" + name)
  }

  /**
   * On a listed step the "Next" button exists exactly when the step is not the
   * final one, and then there is a next step to go to.
   */
  lemma NextButtonHasTarget(steps: seq<StepId>, step: StepId)
    requires step in steps
    ensures HasNext(steps, step) <==> step != steps[|steps| - 1]
    ensures HasNext(steps, step) ==> NextStep(steps, step).Some?
  {
    var i := ArraySearch(steps, step).value;
    assert FoundAt(steps, step, i);
  }

  /**
   * On a listed step the "Previous" button exists exactly when the step is
   * neither the first nor the final one, and then "previous" is the real
   * predecessor: the wrap-around to the last step is never reached from it.
   */
  lemma PreviousButtonNeverWraps(steps: seq<StepId>, step: StepId)
    requires step in steps
    ensures HasPrevious(steps, step) <==> step != steps[0] && step != steps[|steps| - 1]
    ensures HasPrevious(steps, step) ==>
      forall i | FoundAt(steps, step, i) :: i >= 1 && PreviousStep(steps, step) == Some(steps[i - 1])
  {
    var i := ArraySearch(steps, step).value;
    assert FoundAt(steps, step, i);
  }

  /**
   * On a step that is not in the list both buttons
   * exist, "Previous" leads to the final step and "Next" to the step at index 1.
   */
  lemma UnlistedStepButtons(steps: seq<StepId>, step: StepId)
    requires step !in steps && |steps| >= 1
    ensures HasPrevious(steps, step) && HasNext(steps, step)
    ensures PreviousStep(steps, step) == Some(steps[|steps| - 1])
    ensures NextStep(steps, step) == StepAt(steps, 1)
  {
  }

  // ---------------------------------------------------------------------------
  // Visible panes and step skipping
  // ---------------------------------------------------------------------------

  /** getCheckoutFlowStepPanes: the panes of a step; a step the flow does not configure has none. */
  function PanesOf(flow: Flow, step: StepId): seq<PaneId>
  {
    if step in flow.panes then flow.panes[step] else []
  }

  /** The panes for which `isVisible` holds, in pane order. */
  function VisiblePanes(panes: seq<PaneId>, isVisible: PaneId -> bool): (r: seq<PaneId>)
    ensures |r| <= |panes|
    ensures forall p :: p in r <==> p in panes && isVisible(p)
  {
    if panes == [] then []
    else
      var init := panes[..|panes| - 1];
      var last := panes[|panes| - 1];
      assert panes == init + [last];
      VisiblePanes(init, isVisible) + if isVisible(last) then [last] else []
  }

  /**
   * The filter keeps pane order: the visible panes of two consecutive runs of
   * panes are those of the first run followed by those of the second.
   */
  lemma {:induction false} VisiblePanesConcat(a: seq<PaneId>, b: seq<PaneId>, isVisible: PaneId -> bool)
    ensures VisiblePanes(a + b, isVisible) == VisiblePanes(a, isVisible) + VisiblePanes(b, isVisible)
    decreases |b|
  {
    if b == [] {
      assert a + b == a;
    } else {
      var init := b[..|b| - 1];
      var last := b[|b| - 1];
      assert (a + b)[..|a + b| - 1] == a + init;
      assert (a + b)[|a + b| - 1] == last;
      VisiblePanesConcat(a, init, isVisible);
    }
  }

  predicate HasVisiblePane(flow: Flow, isVisible: PaneId -> bool, step: StepId)
  {
    VisiblePanes(PanesOf(flow, step), isVisible) != []
  }

  /**
   * The first index at or after `from` whose step has a visible pane, if any;
   * every step from `from` up to it has none.
   */
  function FirstVisibleFrom(flow: Flow, isVisible: PaneId -> bool, from: nat): (r: Option<nat>)
    ensures r.Some? ==> from <= r.value < |flow.steps| && HasVisiblePane(flow, isVisible, flow.steps[r.value])
    ensures forall j :: from <= j < |flow.steps| && (r.None? || j < r.value) ==> !HasVisiblePane(flow, isVisible, flow.steps[j])
    decreases |flow.steps| - from
  {
    if from >= |flow.steps| then None
    else if HasVisiblePane(flow, isVisible, flow.steps[from]) then Some(from)
    else FirstVisibleFrom(flow, isVisible, from + 1)
  }

  /**
   * Skipping from `step` stops inside the list: the step itself has a visible
   * pane, or some step after its search index does.
   */
  predicate CanSettle(flow: Flow, isVisible: PaneId -> bool, step: StepId)
  {
    HasVisiblePane(flow, isVisible, step) || FirstVisibleFrom(flow, isVisible, SearchIndex(flow.steps, step) + 1).Some?
  }

  /**
   * The step buildFormPanes settles on from `step`: it has a visible pane; when it
   * differs from `step`, `step` had none, it is listed, and every step strictly
   * between the two had none either.
   */
  function Settled(flow: Flow, isVisible: PaneId -> bool, step: StepId): (r: StepId)
    requires Distinct(flow.steps) && CanSettle(flow, isVisible, step)
    ensures HasVisiblePane(flow, isVisible, r)
    ensures r != step ==>
      && !HasVisiblePane(flow, isVisible, step)
      && r in flow.steps
      && SearchIndex(flow.steps, step) < SearchIndex(flow.steps, r)
      && forall j :: SearchIndex(flow.steps, step) < j < SearchIndex(flow.steps, r) ==>
           !HasVisiblePane(flow, isVisible, flow.steps[j])
  {
    if HasVisiblePane(flow, isVisible, step) then step
    else
      var k := FirstVisibleFrom(flow, isVisible, SearchIndex(flow.steps, step) + 1).value;
      SearchDistinct(flow.steps, k);
      flow.steps[k]
  }

  /** In a list of distinct keys array_search finds each key at its own index. */
  lemma SearchDistinct(steps: seq<StepId>, i: nat)
    requires Distinct(steps) && i < |steps|
    ensures FoundAt(steps, steps[i], i) && SearchIndex(steps, steps[i]) == i
  {
    var k := ArraySearch(steps, steps[i]).value;
    assert FoundAt(steps, steps[i], k);
  }

  /** "next" of a step is the step one index past its search index, when there is one. */
  lemma NextAfterSearchIndex(steps: seq<StepId>, step: StepId)
    requires SearchIndex(steps, step) + 1 < |steps|
    ensures NextStep(steps, step) == Some(steps[SearchIndex(steps, step) + 1])
  {
    if step in steps {
      var i := ArraySearch(steps, step).value;
      assert FoundAt(steps, step, i);
    }
  }

  /**
   * One skip: a step without a visible pane that can settle moves to the next
   * listed step, one index further on, which settles on the same step.
   */
  lemma SkipStep(flow: Flow, isVisible: PaneId -> bool, step: StepId)
    requires Distinct(flow.steps) && CanSettle(flow, isVisible, step)
    requires !HasVisiblePane(flow, isVisible, step)
    ensures SearchIndex(flow.steps, step) + 1 < |flow.steps|
    ensures NextStep(flow.steps, step) == Some(flow.steps[SearchIndex(flow.steps, step) + 1])
    ensures SearchIndex(flow.steps, flow.steps[SearchIndex(flow.steps, step) + 1]) == SearchIndex(flow.steps, step) + 1
    ensures CanSettle(flow, isVisible, NextStep(flow.steps, step).value)
    ensures Settled(flow, isVisible, NextStep(flow.steps, step).value) == Settled(flow, isVisible, step)
  {
    var i := SearchIndex(flow.steps, step) + 1;
    NextAfterSearchIndex(flow.steps, step);
    SearchDistinct(flow.steps, i);
    var next := flow.steps[i];
    var target := FirstVisibleFrom(flow, isVisible, i);
    assert target.Some? && Settled(flow, isVisible, step) == flow.steps[target.value];
    if HasVisiblePane(flow, isVisible, next) {
      assert target == Some(i);
    } else {
      assert target == FirstVisibleFrom(flow, isVisible, SearchIndex(flow.steps, next) + 1);
    }
  }

  /** Every pane is visible: the default isVisible of a checkout pane. */
  predicate AlwaysVisible(p: PaneId)
  {
    true
  }

  /** With the default visibility of a pane (always visible) a step with panes is never skipped. */
  lemma DefaultVisibilityNeverSkips(flow: Flow, step: StepId)
    requires Distinct(flow.steps) && PanesOf(flow, step) != []
    ensures CanSettle(flow, AlwaysVisible, step)
    ensures Settled(flow, AlwaysVisible, step) == step
  {
    assert PanesOf(flow, step)[0] in VisiblePanes(PanesOf(flow, step), AlwaysVisible);
  }

  /** Pane visibility with a login pane, shown only to anonymous users, and every other pane always shown. */
  function LoginVisibility(login: PaneId, anonymous: bool): (r: PaneId -> bool)
    ensures r(login) == anonymous
    ensures forall p :: p != login ==> r(p)
  {
    p => p != login || anonymous
  }

  /** Some pane of the list is not the login pane. */
  predicate HasPaneOtherThan(panes: seq<PaneId>, login: PaneId)
  {
    exists k :: 0 <= k < |panes| && panes[k] != login
  }

  /** A step holding only the login pane is kept for an anonymous customer. */
  lemma LoginStepKeptWhenAnonymous(flow: Flow, login: PaneId, step: StepId)
    requires Distinct(flow.steps) && PanesOf(flow, step) == [login]
    ensures CanSettle(flow, LoginVisibility(login, true), step)
    ensures Settled(flow, LoginVisibility(login, true), step) == step
  {
    assert [login][..0] == [];
    assert VisiblePanes([login], LoginVisibility(login, true)) == [login];
  }

  /**
   * A step holding only the login pane is skipped for a logged-in customer, in
   * favour of the following step when that step has a pane other than the
   * login pane.
   */
  lemma LoginStepSkippedWhenLoggedIn(flow: Flow, login: PaneId, i: nat)
    requires Distinct(flow.steps) && i + 1 < |flow.steps|
    requires PanesOf(flow, flow.steps[i]) == [login]
    requires HasPaneOtherThan(PanesOf(flow, flow.steps[i + 1]), login)
    ensures CanSettle(flow, LoginVisibility(login, false), flow.steps[i])
    ensures Settled(flow, LoginVisibility(login, false), flow.steps[i]) == flow.steps[i + 1]
  {
    LoginHidden(flow, login, flow.steps[i]);
    OtherPaneVisible(flow, login, flow.steps[i + 1]);
    SettlesOnNextVisible(flow, LoginVisibility(login, false), i);
  }

  /** A step without a visible pane settles on the next listed step when that one has a visible pane. */
  lemma SettlesOnNextVisible(flow: Flow, isVisible: PaneId -> bool, i: nat)
    requires Distinct(flow.steps) && i + 1 < |flow.steps|
    requires !HasVisiblePane(flow, isVisible, flow.steps[i])
    requires HasVisiblePane(flow, isVisible, flow.steps[i + 1])
    ensures CanSettle(flow, isVisible, flow.steps[i])
    ensures Settled(flow, isVisible, flow.steps[i]) == flow.steps[i + 1]
  {
    SearchDistinct(flow.steps, i);
    assert FirstVisibleFrom(flow, isVisible, i + 1) == Some(i + 1);
  }

  /** For a logged-in customer a step holding only the login pane shows nothing. */
  lemma LoginHidden(flow: Flow, login: PaneId, step: StepId)
    requires PanesOf(flow, step) == [login]
    ensures !HasVisiblePane(flow, LoginVisibility(login, false), step)
  {
    assert [login][..0] == [];
    assert VisiblePanes([login], LoginVisibility(login, false)) == [];
  }

  /** For a logged-in customer a step with any pane besides the login pane shows something. */
  lemma OtherPaneVisible(flow: Flow, login: PaneId, step: StepId)
    requires HasPaneOtherThan(PanesOf(flow, step), login)
    ensures HasVisiblePane(flow, LoginVisibility(login, false), step)
  {
    var k :| 0 <= k < |PanesOf(flow, step)| && PanesOf(flow, step)[k] != login;
    assert PanesOf(flow, step)[k] in VisiblePanes(PanesOf(flow, step), LoginVisibility(login, false));
  }

  /**
   * Running off the end: when no later step has a visible pane, buildFormPanes
   * sets the step to NULL, here the empty id, which no step id equals and which
   * has no pane. From NULL, array_search gives FALSE, so the next step is the one
   * at index 1, and the skipping settles on the first step from index 1 that has
   * a visible pane, when there is one.
   */
  lemma RunOffRestartsAtIndexOne(flow: Flow, isVisible: PaneId -> bool)
    requires "" !in flow.steps && PanesOf(flow, "") == []
    ensures NextStep(flow.steps, "") == StepAt(flow.steps, 1)
    ensures CanSettle(flow, isVisible, "") <==> FirstVisibleFrom(flow, isVisible, 1).Some?
    ensures Distinct(flow.steps) && CanSettle(flow, isVisible, "") ==>
      Settled(flow, isVisible, "") == flow.steps[FirstVisibleFrom(flow, isVisible, 1).value]
  {
    assert VisiblePanes([], isVisible) == [];
    assert SearchIndex(flow.steps, "") == 0;
  }

  /** Three steps a, b, c of which only b has a pane. */
  const BackwardsExample: Flow := Flow(["a", "b", "c"], map["b" := ["pane"]])

  /** In the example only b has a visible pane, and the empty id is no step. */
  lemma BackwardsExampleVisibility()
    ensures !HasVisiblePane(BackwardsExample, AlwaysVisible, "c")
    ensures HasVisiblePane(BackwardsExample, AlwaysVisible, "b")
    ensures "" !in BackwardsExample.steps && PanesOf(BackwardsExample, "") == []
  {
    assert PanesOf(BackwardsExample, "c") == [];
    assert PanesOf(BackwardsExample, "b") == ["pane"];
    assert ["pane"][..0] == [];
    assert VisiblePanes(["pane"], AlwaysVisible) == ["pane"];
  }

  /** In the example c is the final step and b is at index 1. */
  lemma BackwardsExampleSearch()
    ensures Distinct(BackwardsExample.steps)
    ensures |BackwardsExample.steps| == 3
    ensures BackwardsExample.steps[1] == "b" && BackwardsExample.steps[2] == "c"
    ensures SearchIndex(BackwardsExample.steps, "b") == 1 && SearchIndex(BackwardsExample.steps, "c") == 2
  {
    var steps := BackwardsExample.steps;
    assert Distinct(steps);
    SearchDistinct(steps, 1);
    SearchDistinct(steps, 2);
  }

  /**
   * The restart can settle before the starting step: with steps a, b, c of which
   * only b has a visible pane, starting at c runs off the end (there is no next
   * step) and the restart from NULL settles on b.
   */
  lemma RunOffSettlesBackwards()
    ensures !CanSettle(BackwardsExample, AlwaysVisible, "c")
    ensures NextStep(BackwardsExample.steps, "c") == None
    ensures Distinct(BackwardsExample.steps) && CanSettle(BackwardsExample, AlwaysVisible, "")
    ensures Settled(BackwardsExample, AlwaysVisible, "") == "b"
    ensures SearchIndex(BackwardsExample.steps, "b") < SearchIndex(BackwardsExample.steps, "c")
  {
    BackwardsExampleVisibility();
    BackwardsExampleSearch();
    assert FirstVisibleFrom(BackwardsExample, AlwaysVisible, 3) == None;
    assert FirstVisibleFrom(BackwardsExample, AlwaysVisible, 1) == Some(1);
    RunOffRestartsAtIndexOne(BackwardsExample, AlwaysVisible);
  }

  /** The foreach of buildFormPanes: the ids of the visible panes, in order. */
  method CollectVisiblePanes(panes: seq<PaneId>, isVisible: PaneId -> bool) returns (formPanes: seq<PaneId>)
    ensures formPanes == VisiblePanes(panes, isVisible)
  {
    formPanes := [];
    for i := 0 to |panes|
      invariant formPanes == VisiblePanes(panes[..i], isVisible)
    {
      assert panes[..i + 1][..i] == panes[..i];
      if isVisible(panes[i]) {
        formPanes := formPanes + [panes[i]];
      }
    }
    assert panes[..|panes|] == panes;
  }

  /**
   * The foreach of actions over the step's panes: each pane's validateForm and
   * submitForm handler in pane order, then the form's own two handlers.
   */
  method NextHandlers(panes: seq<PaneId>) returns (validate: seq<Handler>, submit: seq<Handler>)
    ensures PaneHandlers(validate, panes, "validateForm")
    ensures PaneHandlers(submit, panes, "submitForm")
  {
    validate, submit := [], [];
    for k := 0 to |panes|
      invariant |validate| == k && |submit| == k
      invariant forall m :: 0 <= m < k ==> validate[m] == PaneMethod(panes[m], "validateForm")
      invariant forall m :: 0 <= m < k ==> submit[m] == PaneMethod(panes[m], "submitForm")
    {
      validate := validate + [PaneMethod(panes[k], "validateForm")];
      submit := submit + [PaneMethod(panes[k], "submitForm")];
    }
    validate := validate + [FormMethod("::validateForm")];
    submit := submit + [FormMethod("::submitForm")];
  }

  // ---------------------------------------------------------------------------
  // The checkout flow plugin
  // ---------------------------------------------------------------------------

  class CheckoutFlowBase {
    /** The flow's steps and panes, supplied by the flow manager. */
    const flow: Flow
    /** `$this->step`: the current step. */
    var step: StepId

    ghost predicate Valid()
    {
      Distinct(flow.steps)
    }

    constructor (flow: Flow, step: StepId)
      requires Distinct(flow.steps)
      ensures Valid() && this.flow == flow && this.step == step
    {
      this.flow := flow;
      this.step := step;
    }

    /**
     * buildFormPanes: builds the visible panes of the current step; while there
     * are none, moves `step` to the next step and tries again.
     */
    method BuildFormPanes(isVisible: PaneId -> bool) returns (formPanes: seq<PaneId>)
      requires Valid() && CanSettle(flow, isVisible, step)
      modifies this
      ensures Valid()
      ensures step == Settled(flow, isVisible, old(step))
      ensures formPanes == VisiblePanes(PanesOf(flow, step), isVisible) && formPanes != []
    {
      formPanes := CollectVisiblePanes(PanesOf(flow, step), isVisible);
      while formPanes == []
        invariant CanSettle(flow, isVisible, step)
        invariant Settled(flow, isVisible, step) == Settled(flow, isVisible, old(step))
        invariant formPanes == VisiblePanes(PanesOf(flow, step), isVisible)
        decreases |flow.steps| - SearchIndex(flow.steps, step)
      {
        SkipStep(flow, isVisible, step);
        step := NextStep(flow.steps, step).value;
        formPanes := CollectVisiblePanes(PanesOf(flow, step), isVisible);
      }
    }

    /**
     * actions: "Previous" exists iff the step is neither the first nor the last;
     * "Next" and "Cancel" exist iff it is not the last; "Next" validates and
     * submits through every given pane in order and then through the form.
     */
    method Actions(panes: seq<PaneId>) returns (a: FormActions)
      ensures a.previous.Some? <==> HasPrevious(flow.steps, step)
      ensures a.previous.Some? ==> a.previous.value == [FormMethod("::previousForm")]
      ensures a.next.Some? <==> HasNext(flow.steps, step)
      ensures a.cancel.Some? <==> HasNext(flow.steps, step)
      ensures a.cancel.Some? ==> a.cancel.value == CancelRoute
      ensures a.next.Some? ==>
        PaneHandlers(a.next.value.validate, panes, "validateForm") &&
        PaneHandlers(a.next.value.submit, panes, "submitForm")
    {
      var first := FirstStep(flow.steps, step);
      var last := LastStep(flow.steps, step);
      var previous := None;
      if !LooseEquals(step, first) && !LooseEquals(step, last) {
        previous := Some([FormMethod("::previousForm")]);
      }
      var next := None;
      var cancel := None;
      if !LooseEquals(step, last) {
        var validate, submit := NextHandlers(panes);
        next := Some(NextButton(validate, submit));
        cancel := Some(CancelRoute);
      }
      a := FormActions(previous, next, cancel);
    }

    /**
     * buildForm: the handler panes are fetched for the requested step before
     * buildFormPanes may move on, so after a skip the "Next" handlers belong to
     * the requested step while the buttons and the title follow the new step.
     */
    method BuildForm(isVisible: PaneId -> bool) returns (form: CheckoutForm)
      requires Valid() && CanSettle(flow, isVisible, step)
      modifies this
      ensures Valid()
      ensures step == Settled(flow, isVisible, old(step))
      ensures form.panes == VisiblePanes(PanesOf(flow, step), isVisible)
      ensures form.actions.previous.Some? <==> HasPrevious(flow.steps, step)
      ensures form.panes != []
      ensures form.actions.previous.Some? ==> form.actions.previous.value == [FormMethod("::previousForm")]
      ensures form.actions.next.Some? <==> HasNext(flow.steps, step)
      ensures form.actions.cancel.Some? <==> HasNext(flow.steps, step)
      ensures form.actions.cancel.Some? ==> form.actions.cancel.value == CancelRoute
      ensures form.actions.next.Some? ==>
        PaneHandlers(form.actions.next.value.validate, PanesOf(flow, old(step)), "validateForm") &&
        PaneHandlers(form.actions.next.value.submit, PanesOf(flow, old(step)), "submitForm")
      ensures form.title == "Checkout " + step
    {
      var panes := PanesOf(flow, step);
      var formPanes := BuildFormPanes(isVisible);
      var actions := Actions(panes);
      form := CheckoutForm(formPanes, actions, "Checkout " + step);
    }

    /** submitForm: redirects to the next step (NULL after the final step). */
    method SubmitForm() returns (redirect: Option<StepId>)
      ensures forall i | FoundAt(flow.steps, step, i) :: redirect == StepAt(flow.steps, i + 1)
      ensures step !in flow.steps ==> redirect == StepAt(flow.steps, 1)
    {
      redirect := NextStep(flow.steps, step);
    }

    /** previousForm: redirects to the previous step, the final step from the first one. */
    method PreviousForm() returns (redirect: Option<StepId>)
      ensures forall i | FoundAt(flow.steps, step, i) ::
        redirect == if i >= 1 then StepAt(flow.steps, i - 1) else StepAt(flow.steps, |flow.steps| - 1)
      ensures step !in flow.steps ==> redirect == StepAt(flow.steps, |flow.steps| - 1)
    {
      redirect := PreviousStep(flow.steps, step);
    }
  }
}
