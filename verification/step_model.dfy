/**
 * The records the conversion service returns (a step with an optional
 * command, details and actions) and the grouping of a step's actions by
 * their `group` key, which the result card and the macOS/Linux sub-step
 * view both compute with the same `reduce`.
 */
module StepModel {
  import opened Wrappers

  datatype ActionKind = Command | Link

  /** One suggested action: a button (its `caption` is the source's `label`)
      that copies a command or opens a link. */
  datatype Action = Action(caption: string, kind: ActionKind, value: string, group: Option<string>)

  /** One step of the generated guide. */
  datatype Step = Step(
    title: string,
    explanation: string,
    command: Option<string>,
    details: Option<string>,
    actions: Option<seq<Action>>)

  type Groups = map<string, seq<Action>>

  const DefaultKey: string := "default"

  /** `action.group || 'default'`: an absent or empty group falls back to
      the default key. */
  function KeyOf(a: Action): (k: string)
    ensures k != []
    ensures a.group.Some? && a.group.value != "" ==> k == a.group.value
    ensures k == DefaultKey <==> a.group.None? || a.group.value == "" || a.group.value == DefaultKey
  {
    if a.group.Some? && a.group.value != "" then a.group.value else DefaultKey
  }

  // ---------------------------------------------------------------------
  // The reference: one group is a filter of the input
  // ---------------------------------------------------------------------

  /** The actions of `xs` whose key is `k`, in their original order. */
  function InGroup(xs: seq<Action>, k: string): (r: seq<Action>)
    ensures |r| <= |xs|
    ensures forall a :: a in r <==> a in xs && KeyOf(a) == k
    decreases |xs|
  {
    if xs == [] then []
    else if KeyOf(xs[0]) == k then [xs[0]] + InGroup(xs[1..], k)
    else InGroup(xs[1..], k)
  }

  /** Filtering commutes with appending one action at the end. */
  lemma {:induction false} InGroupSnoc(xs: seq<Action>, a: Action, k: string)
    ensures InGroup(xs + [a], k) == InGroup(xs, k) + (if KeyOf(a) == k then [a] else [])
    decreases |xs|
  {
    if xs == [] {
      assert xs + [a] == [a];
      assert [a][1..] == [];
    } else {
      assert (xs + [a])[0] == xs[0];
      assert (xs + [a])[1..] == xs[1..] + [a];
      InGroupSnoc(xs[1..], a, k);
    }
  }

  // ---------------------------------------------------------------------
  // The reduce
  // ---------------------------------------------------------------------

  /** One step of the reduce: create the group on first use, then push. */
  function AddToGroup(g: Groups, a: Action): Groups {
    var k := KeyOf(a);
    if k in g then g[k := g[k] + [a]] else g[k := [a]]
  }

  /** A reduce step adds the action's key if it was missing, appends the
      action at the end of that key's group, and leaves every other group
      as it was. */
  lemma {:induction false} AddToGroupPushes(g: Groups, a: Action)
    ensures AddToGroup(g, a).Keys == g.Keys + {KeyOf(a)}
    ensures AddToGroup(g, a)[KeyOf(a)] == (if KeyOf(a) in g then g[KeyOf(a)] else []) + [a]
    ensures forall k :: k in g && k != KeyOf(a) ==> AddToGroup(g, a)[k] == g[k]
  {
  }

  /** The reduce over the actions, left to right, from an empty object:
      a group exists exactly for the keys that occur, and each group holds
      exactly the actions with its key, in their original order. */
  function Group(xs: seq<Action>): (g: Groups)
    ensures forall k :: k in g <==> InGroup(xs, k) != []
    ensures forall k :: k in g ==> g[k] == InGroup(xs, k)
    decreases |xs|
  {
    if xs == [] then map[]
    else
      var init := xs[..|xs| - 1];
      var a := xs[|xs| - 1];
      assert xs == init + [a];
      var g := Group(init);
      AddToGroupStep(init, a, g);
      AddToGroup(g, a)
  }

  /** One step of the reduce keeps the groups equal to the filters. */
  lemma {:induction false} AddToGroupStep(init: seq<Action>, a: Action, g: Groups)
    requires forall k :: k in g <==> InGroup(init, k) != []
    requires forall k :: k in g ==> g[k] == InGroup(init, k)
    ensures forall k :: k in AddToGroup(g, a) <==> InGroup(init + [a], k) != []
    ensures forall k :: k in AddToGroup(g, a) ==> AddToGroup(g, a)[k] == InGroup(init + [a], k)
  {
    forall k ensures InGroup(init + [a], k) == InGroup(init, k) + (if KeyOf(a) == k then [a] else []) {
      InGroupSnoc(init, a, k);
    }
  }

  /** Every action lands in the group of its key and in no other. */
  lemma {:induction false} EachActionInOneGroup(xs: seq<Action>, a: Action)
    requires a in xs
    ensures KeyOf(a) in Group(xs) && a in Group(xs)[KeyOf(a)]
    ensures forall k :: k in Group(xs) && k != KeyOf(a) ==> a !in Group(xs)[k]
  {
    assert a in InGroup(xs, KeyOf(a));
  }

  /** Grouping an empty list gives an empty object. */
  lemma {:induction false} GroupOfNothing()
    ensures Group([]) == map[]
  {
  }

  // ---------------------------------------------------------------------
  // The groups partition the input
  // ---------------------------------------------------------------------

  predicate Distinct(ks: seq<string>) {
    forall i, j :: 0 <= i < j < |ks| ==> ks[i] != ks[j]
  }

  /** Total size of the groups listed in `ks`. */
  function SizeOver(g: Groups, ks: seq<string>): nat
    requires forall i :: 0 <= i < |ks| ==> ks[i] in g
  {
    if ks == [] then 0 else |g[ks[0]]| + SizeOver(g, ks[1..])
  }

  /** Total size of the filters for the keys listed in `ks`. */
  function FilteredSize(xs: seq<Action>, ks: seq<string>): nat {
    if ks == [] then 0 else |InGroup(xs, ks[0])| + FilteredSize(xs, ks[1..])
  }

  /** Whichever order the keys are listed in, the group sizes add up to the
      number of actions: no action is lost and none is counted twice. */
  lemma {:induction false} GroupIsPartition(xs: seq<Action>, ks: seq<string>)
    requires Distinct(ks)
    requires forall k :: k in ks <==> k in Group(xs)
    ensures forall i :: 0 <= i < |ks| ==> ks[i] in Group(xs)
    ensures SizeOver(Group(xs), ks) == |xs|
  {
    SizeIsFilteredSize(xs, ks);
    forall a | a in xs ensures KeyOf(a) in ks {
      assert a in InGroup(xs, KeyOf(a));
    }
    FilteredSizeCovers(xs, ks);
  }

  lemma {:induction false} SizeIsFilteredSize(xs: seq<Action>, ks: seq<string>)
    requires forall i :: 0 <= i < |ks| ==> ks[i] in Group(xs)
    ensures SizeOver(Group(xs), ks) == FilteredSize(xs, ks)
    decreases |ks|
  {
    if ks != [] {
      SizeIsFilteredSize(xs, ks[1..]);
    }
  }

  /** With every key listed once, the filters add up to the whole input. */
  lemma {:induction false} FilteredSizeCovers(xs: seq<Action>, ks: seq<string>)
    requires Distinct(ks)
    requires forall a :: a in xs ==> KeyOf(a) in ks
    ensures FilteredSize(xs, ks) == |xs|
    decreases |xs|
  {
    if xs == [] {
      FilteredSizeOfNothing(ks);
    } else {
      FilteredSizeCons(xs, ks);
      FilteredSizeCovers(xs[1..], ks);
    }
  }

  lemma {:induction false} FilteredSizeOfNothing(ks: seq<string>)
    ensures FilteredSize([], ks) == 0
    decreases |ks|
  {
    if ks != [] {
      FilteredSizeOfNothing(ks[1..]);
    }
  }

  /** The first action adds one to the size of exactly one listed filter. */
  lemma {:induction false} FilteredSizeCons(xs: seq<Action>, ks: seq<string>)
    requires xs != [] && Distinct(ks)
    ensures FilteredSize(xs, ks) == FilteredSize(xs[1..], ks) + (if KeyOf(xs[0]) in ks then 1 else 0)
    decreases |ks|
  {
    if ks != [] {
      assert Distinct(ks[1..]) by {
        forall i, j | 0 <= i < j < |ks[1..]| ensures ks[1..][i] != ks[1..][j] {
          assert ks[1..][i] == ks[i + 1] && ks[1..][j] == ks[j + 1];
        }
      }
      FilteredSizeCons(xs, ks[1..]);
      if KeyOf(xs[0]) == ks[0] {
        assert KeyOf(xs[0]) !in ks[1..] by {
          forall j | 0 <= j < |ks[1..]| ensures ks[1..][j] != ks[0] {
            assert ks[1..][j] == ks[j + 1];
          }
        }
      } else {
        assert KeyOf(xs[0]) in ks <==> KeyOf(xs[0]) in ks[1..] by {
          assert ks == [ks[0]] + ks[1..];
        }
      }
    }
  }

  // ---------------------------------------------------------------------
  // Actions without a group
  // ---------------------------------------------------------------------

  /** When no action names a group (as with every action the declared
      response schema allows), everything lands in the default group, in
      order. */
  lemma {:induction false} UngroupedAllDefault(xs: seq<Action>)
    requires xs != []
    requires forall a :: a in xs ==> a.group.None?
    ensures Group(xs) == map[DefaultKey := xs]
  {
    InGroupOfOneKey(xs);
    forall k | k != DefaultKey ensures InGroup(xs, k) == [] {
      if InGroup(xs, k) != [] {
        assert InGroup(xs, k)[0] in InGroup(xs, k);
      }
    }
    OnlyKeyGroups(xs, Group(xs));
  }

  /** A grouping that agrees with the filters, when only the default filter
      is non-empty, is the single default group. */
  lemma {:induction false} OnlyKeyGroups(xs: seq<Action>, g: Groups)
    requires forall k :: k in g <==> InGroup(xs, k) != []
    requires forall k :: k in g ==> g[k] == InGroup(xs, k)
    requires xs != [] && InGroup(xs, DefaultKey) == xs
    requires forall k :: k != DefaultKey ==> InGroup(xs, k) == []
    ensures g == map[DefaultKey := xs]
  {
    assert g.Keys == {DefaultKey};
  }

  /** Filtering by the key that every action has keeps everything. */
  lemma {:induction false} InGroupOfOneKey(xs: seq<Action>)
    requires forall a :: a in xs ==> a.group.None?
    ensures InGroup(xs, DefaultKey) == xs
    decreases |xs|
  {
    if xs != [] {
      assert xs[0] in xs;
      assert forall a :: a in xs[1..] ==> a in xs;
      InGroupOfOneKey(xs[1..]);
    }
  }

  // ---------------------------------------------------------------------
  // The reduce as written, on a plain object
  // ---------------------------------------------------------------------

  /** The property names an empty JavaScript object literal already answers
      with a truthy value, inherited from `Object.prototype`. */
  const InheritedKeys: set<string> := {
    "constructor", "hasOwnProperty", "isPrototypeOf", "propertyIsEnumerable",
    "toLocaleString", "toString", "valueOf", "__proto__",
    "__defineGetter__", "__defineSetter__", "__lookupGetter__", "__lookupSetter__"
  }

  /** The reduce as the code runs it on `{}`: for an inherited name `!acc[k]`
      is false, so no array is created and the `push` that follows throws a
      TypeError, here `None`. */
  function GroupAsWritten(xs: seq<Action>): (r: Option<Groups>)
    ensures r.Some? ==> forall a :: a in xs ==> KeyOf(a) !in InheritedKeys
    decreases |xs|
  {
    if xs == [] then Some(map[])
    else
      var init := xs[..|xs| - 1];
      var a := xs[|xs| - 1];
      assert xs == init + [a];
      match GroupAsWritten(init)
      case None => None
      case Some(g) => if KeyOf(a) in InheritedKeys then None else Some(AddToGroup(g, a))
  }

  /** The reduce as written agrees with `Group` exactly when no key is an
      inherited name, and throws otherwise. */
  lemma {:induction false} GroupAsWrittenIff(xs: seq<Action>)
    ensures GroupAsWritten(xs) ==
      if forall a :: a in xs ==> KeyOf(a) !in InheritedKeys then Some(Group(xs)) else None
    decreases |xs|
  {
    if xs != [] {
      var init := xs[..|xs| - 1];
      var a := xs[|xs| - 1];
      assert xs == init + [a];
      assert forall b :: b in xs <==> b in init || b == a;
      GroupAsWrittenIff(init);
    }
  }

  /** An action whose group is "toString" makes the reduce throw, while the
      intended grouping simply files it under that key. */
  lemma {:induction false} InheritedKeyThrows(xs: seq<Action>)
    requires xs == [Action("Shell", Command, "echo $SHELL", Some("toString"))]
    ensures GroupAsWritten(xs) == None
    ensures Group(xs) == map["toString" := xs]
  {
    assert KeyOf(xs[0]) == "toString";
    assert xs[..0] == [];
    assert InGroup(xs, "toString") == xs by {
      assert xs[1..] == [];
    }
    assert Group(xs) == AddToGroup(Group([]), xs[0]) by {
      assert xs[..|xs| - 1] == [];
    }
  }
}
