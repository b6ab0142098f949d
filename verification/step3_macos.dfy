/**
 * The macOS/Linux environment step: a fixed table of five sub-steps, each
 * naming the action groups it draws, a stepper over them, and the panel of
 * actions for the active sub-step.
 */
module Step3MacOS {
  import opened StepModel
  import Progress

  /** One row of the sub-step table. */
  datatype SubStep = SubStep(key: string, title: string, actionGroups: seq<string>)

  const SubSteps: seq<SubStep> := [
    SubStep("shell_check", "Identificar Shell", ["shell_check"]),
    SubStep("setup_files", "Crear y Abrir Archivo", ["zshrc_setup", "bash_setup"]),
    SubStep("copy_block", "Copiar Bloque de Configuración", ["common"]),
    SubStep("apply_changes", "Aplicar Cambios", ["zshrc_apply", "bash_apply"]),
    SubStep("validation", "Validar Configuración", ["validation"])
  ]

  /** The table has five rows; each names one or two groups, and exactly
      the file set-up and the apply rows offer two (the zsh and bash
      options). */
  lemma {:induction false} SubStepsShape()
    ensures |SubSteps| == 5
    ensures forall i :: 0 <= i < 5 ==> 1 <= |SubSteps[i].actionGroups| <= 2
    ensures forall i :: 0 <= i < 5 ==>
      (|SubSteps[i].actionGroups| == 2 <==> SubSteps[i].key in {"setup_files", "apply_changes"})
  {
  }

  /** Every group key the table names anywhere. */
  predicate Configured(k: string) {
    exists i, j :: 0 <= i < |SubSteps| && 0 <= j < |SubSteps[i].actionGroups| && SubSteps[i].actionGroups[j] == k
  }

  /** The default group is named by no sub-step. */
  lemma {:induction false} DefaultNotConfigured()
    ensures !Configured(DefaultKey)
  {
    forall i, j | 0 <= i < |SubSteps| && 0 <= j < |SubSteps[i].actionGroups|
      ensures SubSteps[i].actionGroups[j] != DefaultKey
    {
      assert SubSteps[i].actionGroups[j][0] != 'd';
    }
  }

  // ---------------------------------------------------------------------
  // Navigation
  // ---------------------------------------------------------------------

  const LastSubStep: int := |SubSteps| - 1

  /** The back button: disabled on the first sub-step, otherwise one back. */
  function Back(active: int): (r: int)
    ensures 0 <= active <= LastSubStep ==> 0 <= r <= LastSubStep
    ensures r == active <==> active == 0
    ensures active != 0 ==> r == active - 1
  {
    if active == 0 then active else active - 1
  }

  /** The forward button: disabled on the last sub-step, otherwise one on. */
  function Forward(active: int): (r: int)
    ensures 0 <= active <= LastSubStep ==> 0 <= r <= LastSubStep
    ensures r == active <==> active == LastSubStep
    ensures active != LastSubStep ==> r == active + 1
  {
    if active == LastSubStep then active else active + 1
  }

  datatype Nav = Previous | Following

  /** The active sub-step after a sequence of presses, starting at `active`. */
  function Navigate(active: int, ns: seq<Nav>): (r: int)
    ensures 0 <= active <= LastSubStep ==> 0 <= r <= LastSubStep
    decreases |ns|
  {
    if ns == [] then active
    else Navigate(if ns[0] == Previous then Back(active) else Forward(active), ns[1..])
  }

  /** Starting from the first sub-step, any presses keep a valid index. */
  lemma {:induction false} NavigationStaysInRange(ns: seq<Nav>)
    ensures 0 <= Navigate(0, ns) < |SubSteps|
  {
  }

  // ---------------------------------------------------------------------
  // The stepper
  // ---------------------------------------------------------------------

  /** The stepper circles: completed (with a check mark) before the active
      sub-step, current on it, pending after it. */
  function Stepper(active: int): (r: seq<Progress.Phase>)
    requires 0 <= active <= LastSubStep
    ensures |r| == |SubSteps|
    ensures forall i :: 0 <= i < |r| ==> r[i] == Progress.PhaseOf(i, active)
    ensures forall i :: 0 <= i < |r| ==> (r[i] == Progress.Completed <==> Progress.CheckMark(i, active))
    ensures Progress.Count(r, Progress.Current) == 1
    ensures Progress.Count(r, Progress.Completed) == active
  {
    Progress.CurrentCount(|SubSteps|, active);
    Progress.CompletedCount(|SubSteps|, active);
    Progress.Ladder(|SubSteps|, active)
  }

  /** A title is highlighted up to and including the active sub-step. */
  predicate TitleHighlighted(i: int, active: int) {
    i <= active
  }

  lemma {:induction false} HighlightedIffNotPending(i: int, active: int)
    ensures TitleHighlighted(i, active) <==> Progress.PhaseOf(i, active) != Progress.Pending
  {
  }

  // ---------------------------------------------------------------------
  // The action panel
  // ---------------------------------------------------------------------

  /** Option A and option B side by side, or a single row of actions. */
  datatype Panel = TwoOptions(optionA: seq<Action>, optionB: seq<Action>) | Single(actions: seq<Action>)

  /** `groupedActions[key]?.map(…)`: a missing group draws nothing. */
  function Lookup(g: Groups, k: string): (r: seq<Action>)
    ensures k !in g ==> r == []
  {
    if k in g then g[k] else []
  }

  /** The panel for a row naming `keys`: two options when it names two
      groups, otherwise its only group. */
  function PanelFor(g: Groups, keys: seq<string>): (p: Panel)
    requires keys != []
    ensures p.TwoOptions? <==> |keys| > 1
  {
    if |keys| > 1 then TwoOptions(Lookup(g, keys[0]), Lookup(g, keys[1]))
    else Single(Lookup(g, keys[0]))
  }

  /** The panel of the active sub-step. */
  function Render(g: Groups, active: int): (p: Panel)
    requires 0 <= active <= LastSubStep
    ensures p.TwoOptions? <==> |SubSteps[active].actionGroups| == 2
  {
    RowShape(active);
    PanelFor(g, SubSteps[active].actionGroups)
  }

  /** Each row names one or two groups. */
  lemma {:induction false} RowShape(active: int)
    requires 0 <= active <= LastSubStep
    ensures 1 <= |SubSteps[active].actionGroups| <= 2
  {
    if active == 0 {
    } else if active == 1 {
    } else if active == 2 {
    } else if active == 3 {
    } else {
    }
  }

  function PanelActions(p: Panel): seq<Action> {
    match p
    case TwoOptions(a, b) => a + b
    case Single(xs) => xs
  }

  /** For a row of one or two keys, an action is drawn exactly when its key
      is one the row names; option A holds the first key's group and option
      B the second's, each in original order. */
  lemma {:induction false} PanelShowsNamedGroups(xs: seq<Action>, keys: seq<string>, a: Action)
    requires 1 <= |keys| <= 2
    ensures a in PanelActions(PanelFor(Group(xs), keys)) <==> a in xs && KeyOf(a) in keys
    ensures var p := PanelFor(Group(xs), keys);
      && (p.TwoOptions? ==> p.optionA == InGroup(xs, keys[0]) && p.optionB == InGroup(xs, keys[1]))
      && (p.Single? ==> p.actions == InGroup(xs, keys[0]))
  {
    PanelIsFilters(xs, keys);
    InRow(keys, KeyOf(a));
  }

  /** The panel holds the filters of the row's keys. */
  lemma {:induction false} PanelIsFilters(xs: seq<Action>, keys: seq<string>)
    requires 1 <= |keys| <= 2
    ensures PanelFor(Group(xs), keys) ==
      if |keys| > 1 then TwoOptions(InGroup(xs, keys[0]), InGroup(xs, keys[1]))
      else Single(InGroup(xs, keys[0]))
  {
    LookupIsFilter(xs, keys[0]);
    if |keys| > 1 {
      LookupIsFilter(xs, keys[1]);
    }
  }

  lemma {:induction false} InRow(keys: seq<string>, k: string)
    requires 1 <= |keys| <= 2
    ensures k in keys <==> k == keys[0] || (|keys| > 1 && k == keys[1])
  {
    if |keys| > 1 {
      assert keys == [keys[0], keys[1]];
    } else {
      assert keys == [keys[0]];
    }
  }

  /** Looking a key up in the grouping gives its filter, empty when absent. */
  lemma {:induction false} LookupIsFilter(xs: seq<Action>, k: string)
    ensures Lookup(Group(xs), k) == InGroup(xs, k)
  {
  }

  /** The same for the active sub-step's row. */
  lemma {:induction false} RenderShowsNamedGroups(xs: seq<Action>, active: int, a: Action)
    requires 0 <= active <= LastSubStep
    ensures a in PanelActions(Render(Group(xs), active)) <==>
      a in xs && KeyOf(a) in SubSteps[active].actionGroups
    ensures var p := Render(Group(xs), active);
      && (p.TwoOptions? ==>
            p.optionA == InGroup(xs, SubSteps[active].actionGroups[0]) &&
            p.optionB == InGroup(xs, SubSteps[active].actionGroups[1]))
      && (p.Single? ==> p.actions == InGroup(xs, SubSteps[active].actionGroups[0]))
  {
    RowShape(active);
    PanelShowsNamedGroups(xs, SubSteps[active].actionGroups, a);
  }

  /** Actions in the default group, or under any key the table does not
      name, are drawn in no sub-step. */
  lemma {:induction false} UnconfiguredNeverShown(xs: seq<Action>, a: Action)
    requires !Configured(KeyOf(a))
    ensures forall active :: 0 <= active <= LastSubStep ==>
      a !in PanelActions(Render(Group(xs), active))
  {
    forall active | 0 <= active <= LastSubStep
      ensures a !in PanelActions(Render(Group(xs), active))
    {
      assert forall j :: 0 <= j < |SubSteps[active].actionGroups| ==>
        SubSteps[active].actionGroups[j] != KeyOf(a);
      RenderShowsNamedGroups(xs, active, a);
    }
  }

  /** With the declared response schema no action has a group, so this
      view draws no action at all. */
  lemma {:induction false} UngroupedNeverShown(xs: seq<Action>, active: int)
    requires 0 <= active <= LastSubStep
    requires forall a :: a in xs ==> a.group.None?
    ensures PanelActions(Render(Group(xs), active)) == []
  {
    DefaultNotConfigured();
    if PanelActions(Render(Group(xs), active)) != [] {
      var a := PanelActions(Render(Group(xs), active))[0];
      RenderShowsNamedGroups(xs, active, a);
      UnconfiguredNeverShown(xs, a);
    }
  }
}
