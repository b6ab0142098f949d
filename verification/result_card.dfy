/**
 * The result card: a pager over the generated steps with a back and a
 * forward button, and the view of one step (its command, its grouped
 * actions under a fixed list of group keys, and its formatted details).
 */
module ResultCard {
  import opened Wrappers
  import opened TextUtil
  import opened StepModel
  import DetailsDisplay

  /** The steps the card was given and the index of the step on show. */
  datatype Card = Card(steps: seq<Step>, index: int)

  /** The index names a step. */
  predicate Valid(c: Card) {
    0 <= c.index < |c.steps|
  }

  /** A freshly mounted card shows the first step. */
  function Start(steps: seq<Step>): (c: Card)
    ensures c.steps == steps
    ensures steps != [] ==> Valid(c) && IsFirst(c)
  {
    Card(steps, 0)
  }

  predicate IsLast(c: Card) {
    c.index == |c.steps| - 1
  }

  predicate IsFirst(c: Card) {
    c.index == 0
  }

  /** `handleNext`: moves on unless already at the last step. */
  function Next(c: Card): (r: Card)
    ensures r.steps == c.steps
    ensures Valid(c) ==> Valid(r)
    ensures c.index <= r.index <= c.index + 1
    ensures r.index == c.index <==> c.index >= |c.steps| - 1
  {
    if c.index < |c.steps| - 1 then c.(index := c.index + 1) else c
  }

  /** `handlePrev`: moves back unless already at the first step. */
  function Prev(c: Card): (r: Card)
    ensures r.steps == c.steps
    ensures Valid(c) ==> Valid(r)
    ensures c.index - 1 <= r.index <= c.index
    ensures r.index == c.index <==> c.index <= 0
  {
    if c.index > 0 then c.(index := c.index - 1) else c
  }

  /** Back undoes forward, away from the last step. */
  lemma {:induction false} PrevUndoesNext(c: Card)
    requires Valid(c) && !IsLast(c)
    ensures Prev(Next(c)) == c
  {
  }

  /** Forward undoes back, away from the first step. */
  lemma {:induction false} NextUndoesPrev(c: Card)
    requires Valid(c) && !IsFirst(c)
    ensures Next(Prev(c)) == c
  {
  }

  datatype Button = Back | Forward

  /** A button press. Back is disabled on the first step, so pressing it
      there changes nothing; forward on the last step calls `onReset`
      instead of advancing, which hands control back (`None`). */
  function Press(c: Card, b: Button): (r: Option<Card>)
    ensures r.None? <==> b == Forward && IsLast(c)
    ensures r.Some? ==> r.value.steps == c.steps && (Valid(c) ==> Valid(r.value))
    ensures b == Back ==> r == Some(Prev(c))
    ensures b == Forward && !IsLast(c) ==> r == Some(Next(c))
  {
    match b
    case Back => if IsFirst(c) then Some(c) else Some(Prev(c))
    case Forward => if IsLast(c) then None else Some(Next(c))
  }

  /** A sequence of presses; `None` once the card has asked for a reset. */
  function Run(c: Card, bs: seq<Button>): (r: Option<Card>)
    ensures r.Some? ==> r.value.steps == c.steps && (Valid(c) ==> Valid(r.value))
    decreases |bs|
  {
    if bs == [] then Some(c)
    else match Press(c, bs[0])
      case None => None
      case Some(c') => Run(c', bs[1..])
  }

  function Repeat(b: Button, n: nat): (r: seq<Button>)
    ensures |r| == n
    ensures forall i :: 0 <= i < n ==> r[i] == b
  {
    if n == 0 then [] else [b] + Repeat(b, n - 1)
  }

  /** From step `i`, `k` presses of forward reach step `i + k` while that is
      still a step. */
  lemma {:induction false} ForwardWalks(steps: seq<Step>, i: nat, k: nat)
    requires i + k < |steps|
    ensures Run(Card(steps, i), Repeat(Forward, k)) == Some(Card(steps, i + k))
    decreases k
  {
    if k > 0 {
      assert Repeat(Forward, k)[1..] == Repeat(Forward, k - 1);
      ForwardWalks(steps, i + 1, k - 1);
    }
  }

  /** A fresh card reaches the last step after `|steps| - 1` forward presses,
      and one more press asks for a reset. */
  lemma {:induction false} ForwardToReset(steps: seq<Step>)
    requires steps != []
    ensures Run(Start(steps), Repeat(Forward, |steps| - 1)) == Some(Card(steps, |steps| - 1))
    ensures Run(Start(steps), Repeat(Forward, |steps|)) == None
  {
    ForwardWalks(steps, 0, |steps| - 1);
    RunSnoc(Start(steps), Repeat(Forward, |steps| - 1), Forward);
    assert Repeat(Forward, |steps|) == Repeat(Forward, |steps| - 1) + [Forward];
  }

  /** Running `bs` then one more press is running `bs + [b]`. */
  lemma {:induction false} RunSnoc(c: Card, bs: seq<Button>, b: Button)
    ensures Run(c, bs + [b]) ==
      match Run(c, bs)
      case None => None
      case Some(d) => Press(d, b)
    decreases |bs|
  {
    if bs == [] {
      assert bs + [b] == [b];
      assert [b][1..] == [];
    } else {
      assert (bs + [b])[0] == bs[0];
      assert (bs + [b])[1..] == bs[1..] + [b];
      if Press(c, bs[0]).Some? {
        RunSnoc(Press(c, bs[0]).value, bs[1..], b);
      }
    }
  }

  // ---------------------------------------------------------------------
  // The view of one step
  // ---------------------------------------------------------------------

  /** The action sections, in the order they are drawn. */
  datatype Section =
    | ShellChoice(zsh: seq<Action>, bash: seq<Action>)
    | Common(actions: seq<Action>)
    | Validation(actions: seq<Action>)
    | Default(actions: seq<Action>)

  const ZshKey: string := "zshrc"
  const BashKey: string := "bash_profile"
  const CommonKey: string := "common"
  const ValidationKey: string := "validation"

  /** Where each kind of section is drawn: the shell pair first, then
      common, validation and default. */
  function SectionRank(s: Section): nat {
    match s
    case ShellChoice(_, _) => 0
    case Common(_) => 1
    case Validation(_) => 2
    case Default(_) => 3
  }

  /** The section holds the groups of its own keys, which exist. */
  predicate FromGroups(g: Groups, s: Section) {
    match s
    case ShellChoice(z, b) => ZshKey in g && BashKey in g && z == g[ZshKey] && b == g[BashKey]
    case Common(xs) => CommonKey in g && xs == g[CommonKey]
    case Validation(xs) => ValidationKey in g && xs == g[ValidationKey]
    case Default(xs) => DefaultKey in g && xs == g[DefaultKey]
  }

  /** The sections drawn for a grouping: the zsh/bash pair only when both
      groups exist, then common, validation and default when they exist.
      No other key is looked at. */
  function Sections(g: Groups): (r: seq<Section>)
    ensures |r| <= 4
  {
    (if ZshKey in g && BashKey in g then [ShellChoice(g[ZshKey], g[BashKey])] else [])
    + (if CommonKey in g then [Common(g[CommonKey])] else [])
    + (if ValidationKey in g then [Validation(g[ValidationKey])] else [])
    + (if DefaultKey in g then [Default(g[DefaultKey])] else [])
  }

  /** Each drawn section holds the groups of its own keys, the sections come
      in the fixed order (so each kind at most once), and every section whose
      groups exist is drawn. */
  lemma {:induction false} SectionsDrawn(g: Groups)
    ensures var r := Sections(g);
      && (forall i :: 0 <= i < |r| ==> FromGroups(g, r[i]))
      && (forall i, j :: 0 <= i < j < |r| ==> SectionRank(r[i]) < SectionRank(r[j]))
    ensures ZshKey in g && BashKey in g ==> ShellChoice(g[ZshKey], g[BashKey]) in Sections(g)
    ensures CommonKey in g ==> Common(g[CommonKey]) in Sections(g)
    ensures ValidationKey in g ==> Validation(g[ValidationKey]) in Sections(g)
    ensures DefaultKey in g ==> Default(g[DefaultKey]) in Sections(g)
  {
  }

  /** The action buttons of one section, in order. */
  function SectionActions(s: Section): seq<Action> {
    match s
    case ShellChoice(z, b) => z + b
    case Common(xs) => xs
    case Validation(xs) => xs
    case Default(xs) => xs
  }

  /** Every action button the sections draw, in order. */
  function Shown(ss: seq<Section>): (r: seq<Action>)
    decreases |ss|
  {
    if ss == [] then [] else SectionActions(ss[0]) + Shown(ss[1..])
  }

  lemma {:induction false} ShownAppend(a: seq<Section>, b: seq<Section>)
    ensures Shown(a + b) == Shown(a) + Shown(b)
    decreases |a|
  {
    if a == [] {
      assert a + b == b;
    } else {
      assert (a + b)[0] == a[0];
      assert (a + b)[1..] == a[1..] + b;
      ShownAppend(a[1..], b);
    }
  }

  /** The keys whose actions are drawn whenever their group exists. */
  predicate AlwaysShownKey(k: string) {
    k == CommonKey || k == ValidationKey || k == DefaultKey
  }

  /** Some action of `xs` has key `k`. */
  predicate HasKey(xs: seq<Action>, k: string) {
    InGroup(xs, k) != []
  }

  /** An action of the step is drawn exactly when its key is common,
      validation or default, or is one of the shell pair and both halves of
      the pair exist. Actions under any other key are never drawn. */
  lemma {:induction false} ShownActions(xs: seq<Action>, a: Action)
    ensures a in Shown(Sections(Group(xs))) <==>
      a in xs &&
      (AlwaysShownKey(KeyOf(a)) ||
       ((KeyOf(a) == ZshKey || KeyOf(a) == BashKey) && HasKey(xs, ZshKey) && HasKey(xs, BashKey)))
  {
    var g := Group(xs);
    var p := if ZshKey in g && BashKey in g then [ShellChoice(g[ZshKey], g[BashKey])] else [];
    var c := if CommonKey in g then [Common(g[CommonKey])] else [];
    var v := if ValidationKey in g then [Validation(g[ValidationKey])] else [];
    var d := if DefaultKey in g then [Default(g[DefaultKey])] else [];
    assert Sections(g) == ((p + c) + v) + d;
    ShownAppend((p + c) + v, d);
    ShownAppend(p + c, v);
    ShownAppend(p, c);
    ShownOfOne(p);
    ShownOfOne(c);
    ShownOfOne(v);
    ShownOfOne(d);
  }

  lemma {:induction false} ShownOfOne(ss: seq<Section>)
    requires |ss| <= 1
    ensures Shown(ss) == if ss == [] then [] else SectionActions(ss[0])
  {
    if ss != [] {
      assert ss[1..] == [];
    }
  }

  /** With no action naming a group, the step shows exactly one section,
      the default one, holding every action in order. */
  lemma {:induction false} UngroupedShowsDefault(xs: seq<Action>)
    requires xs != []
    requires forall a :: a in xs ==> a.group.None?
    ensures Sections(Group(xs)) == [Default(xs)]
  {
    UngroupedAllDefault(xs);
  }

  /** What the card draws for one step. */
  datatype StepView = StepView(
    title: string,
    explanation: string,
    code: Option<string>,
    sections: Option<seq<Section>>,
    details: Option<seq<DetailsDisplay.Block>>)

  /** The view of a step: the code block only for a non-empty command; the
      action area only when the step has an actions array (an empty array
      still draws the empty area); the details only when non-empty. */
  function ViewStep(s: Step): (v: StepView)
    ensures v.title == s.title && v.explanation == s.explanation
    ensures v.code.Some? <==> s.command.Some? && s.command.value != ""
    ensures v.code.Some? ==> v.code == s.command
    ensures v.sections.Some? <==> s.actions.Some?
    ensures s.actions == Some([]) ==> v.sections == Some([])
    ensures s.actions.Some? ==> v.sections == Some(Sections(Group(s.actions.value)))
    ensures v.details.Some? <==> s.details.Some? && s.details.value != ""
    ensures v.details.Some? ==> v.details == DetailsDisplay.Format(s.details.value)
  {
    StepView(
      s.title,
      s.explanation,
      if s.command.Some? && s.command.value != "" then s.command else None,
      if s.actions.Some? then Some(Sections(Group(s.actions.value))) else None,
      if s.details.Some? then DetailsDisplay.Format(s.details.value) else None)
  }

  /** The card's action area draws an action of the step exactly when its
      key is common, validation or default, or is one of the shell pair and
      both halves of the pair exist. */
  lemma {:induction false} ViewStepShowsActions(s: Step, a: Action)
    requires s.actions.Some?
    ensures var xs := s.actions.value;
      a in Shown(ViewStep(s).sections.value) <==>
        a in xs &&
        (AlwaysShownKey(KeyOf(a)) ||
         ((KeyOf(a) == ZshKey || KeyOf(a) == BashKey) && HasKey(xs, ZshKey) && HasKey(xs, BashKey)))
  {
    ShownActions(s.actions.value, a);
  }

  /** The card's details are one block per non-blank line of the normalised
      details, in order, each classified from its trimmed line. */
  lemma {:induction false} ViewStepDetailsFollowLines(s: Step)
    requires s.details.Some? && s.details.value != ""
    ensures var lines := DetailsDisplay.NonBlank(DetailsDisplay.Split(DetailsDisplay.Normalize(s.details.value)));
      var blocks := ViewStep(s).details.value;
      && |blocks| == |lines|
      && forall i :: 0 <= i < |blocks| ==> blocks[i] == DetailsDisplay.Classify(Trim(lines[i]))
  {
    DetailsDisplay.BlocksFollowLines(s.details.value);
    DetailsDisplay.NonBlankCount(DetailsDisplay.Split(DetailsDisplay.Normalize(s.details.value)));
  }

  /** What the whole card draws: "step i of n", the current step, and the
      two buttons. */
  datatype CardView = CardView(
    position: int,
    total: nat,
    step: StepView,
    backEnabled: bool,
    forwardResets: bool)

  function View(c: Card): (v: CardView)
    requires Valid(c)
    ensures 1 <= v.position <= v.total == |c.steps|
    ensures v.position == c.index + 1 && v.step == ViewStep(c.steps[c.index])
    ensures v.backEnabled <==> !IsFirst(c)
    ensures v.forwardResets <==> v.position == v.total
  {
    CardView(c.index + 1, |c.steps|, ViewStep(c.steps[c.index]), !IsFirst(c), IsLast(c))
  }
}
