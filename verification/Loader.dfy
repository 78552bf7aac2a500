/**
 The loader's component graph: what it accepts, and the depth-first check that decides it.
 */
module Loader {
  import opened Wire
  import opened Schema

  const MAX_COMPONENT_DEPTH: nat := 32

  /** A parsed member, its references still by name. */
  datatype Node =
    | Field(name: Name, required: bool)
    | Group(name: Name, required: bool, items: seq<Node>)
    | Component(name: Name, required: bool)

  type Graph = map<Name, seq<Node>>

  datatype LoadError =
    | ComponentCycle(name: Name)
    | UnknownComponent(name: Name)
    | NestingTooDeep
    | UnknownFieldName(name: Name)
    | EmptyGroup(name: Name)
    | DuplicateMessage(name: Name)

  // ----- chains of groups and components -----

  /** Where a chain of steps leads: each step enters the group or component at that position. */
  function Follow(g: Graph, items: seq<Node>, steps: seq<nat>): Option<seq<Node>>
    decreases |steps|
  {
    if steps == [] then Some(items)
    else if steps[0] >= |items| then None
    else match items[steps[0]]
      case Field(_, _) => None
      case Group(_, _, inner) => Follow(g, inner, steps[1..])
      case Component(name, _) => if name in g then Follow(g, g[name], steps[1..]) else None
  }

  /** One step from `item` leads to `inner`. */
  ghost predicate Enters(g: Graph, item: Node, inner: seq<Node>) {
    match item
    case Field(_, _) => false
    case Group(_, _, nested) => inner == nested
    case Component(name, _) => name in g && inner == g[name]
  }

  /** A chain ends where a component is referenced that is not defined. */
  ghost predicate Dangles(g: Graph, items: seq<Node>) {
    exists steps, i :: DanglesAt(g, items, steps, i)
  }

  ghost predicate DanglesAt(g: Graph, items: seq<Node>, steps: seq<nat>, i: nat) {
    var end := Follow(g, items, steps);
    end.Some? && i < |end.value| && end.value[i].Component? && end.value[i].name !in g
  }

  ghost predicate Circular(g: Graph, name: Name) {
    name in g && exists steps: seq<nat> :: steps != [] && Follow(g, g[name], steps) == Some(g[name])
  }

  /** No chain below `items` dangles, and none takes more than `n` steps. */
  ghost predicate Sound(g: Graph, items: seq<Node>, n: nat) {
    !Dangles(g, items) && forall steps :: Follow(g, items, steps).Some? ==> |steps| <= n
  }

  // ----- the same by recursion on the number of steps -----

  ghost predicate Fits(g: Graph, items: seq<Node>, n: int)
    decreases n
  {
    n >= 0 && forall i :: 0 <= i < |items| ==> ItemFits(g, items[i], n)
  }

  ghost predicate ItemFits(g: Graph, item: Node, n: int)
    requires n >= 0
    decreases n, 0
  {
    match item
    case Field(_, _) => true
    case Group(_, _, inner) => n > 0 && Fits(g, inner, n - 1)
    case Component(name, _) => n > 0 && name in g && Fits(g, g[name], n - 1)
  }

  lemma {:induction false} FitsIsMonotone(g: Graph, items: seq<Node>, n: int, m: int)
    requires Fits(g, items, n) && n <= m
    ensures Fits(g, items, m)
    decreases n
  {
    forall i | 0 <= i < |items| ensures ItemFits(g, items[i], m) {
      assert ItemFits(g, items[i], n);
      match items[i]
      case Field(_, _) =>
      case Group(_, _, inner) => FitsIsMonotone(g, inner, n - 1, m - 1);
      case Component(name, _) => FitsIsMonotone(g, g[name], n - 1, m - 1);
    }
  }

  lemma {:induction false} FollowFits(g: Graph, items: seq<Node>, steps: seq<nat>, n: int)
    requires Fits(g, items, n) && Follow(g, items, steps).Some?
    ensures |steps| <= n && Fits(g, Follow(g, items, steps).value, n - |steps|)
    decreases |steps|
  {
    if steps != [] {
      assert ItemFits(g, items[steps[0]], n);
      match items[steps[0]]
      case Group(_, _, inner) => FollowFits(g, inner, steps[1..], n - 1);
      case Component(name, _) => FollowFits(g, g[name], steps[1..], n - 1);
    }
  }

  /** Both readings agree: chains are bounded and sound exactly when the recursion bottoms out. */
  lemma {:induction false} FitsIsSound(g: Graph, items: seq<Node>, n: nat)
    ensures Fits(g, items, n) <==> Sound(g, items, n)
    decreases n
  {
    if Fits(g, items, n) {
      forall steps | Follow(g, items, steps).Some? ensures |steps| <= n {
        FollowFits(g, items, steps, n);
      }
      forall steps, i: nat ensures !DanglesAt(g, items, steps, i) {
        var end := Follow(g, items, steps);
        if end.Some? && i < |end.value| {
          FollowFits(g, items, steps, n);
          assert ItemFits(g, end.value[i], n - |steps|);
        }
      }
    }
    if Sound(g, items, n) {
      forall i | 0 <= i < |items| ensures ItemFits(g, items[i], n) {
        if !items[i].Field? {
          var inner := StepInto(g, items, i);
          SoundBelow(g, items, i, inner, n);
          FitsIsSound(g, inner, n - 1);
        }
      }
    }
  }

  lemma StepInto(g: Graph, items: seq<Node>, i: nat) returns (inner: seq<Node>)
    requires i < |items| && !items[i].Field? && !Dangles(g, items)
    ensures Enters(g, items[i], inner)
  {
    if items[i].Group? {
      inner := items[i].items;
    } else {
      if items[i].name !in g {
        assert DanglesAt(g, items, [], i);
        assert false;
      }
      inner := g[items[i].name];
    }
  }

  lemma FollowFrom(g: Graph, items: seq<Node>, i: nat, inner: seq<Node>, steps: seq<nat>)
    requires i < |items|
    requires Enters(g, items[i], inner)
    ensures Follow(g, items, [i] + steps) == Follow(g, inner, steps)
  {
    assert ([i] + steps)[1..] == steps;
  }

  lemma SoundBelow(g: Graph, items: seq<Node>, i: nat, inner: seq<Node>, n: nat)
    requires Sound(g, items, n) && i < |items|
    requires Enters(g, items[i], inner)
    ensures n > 0 && Sound(g, inner, n - 1)
  {
    FollowFrom(g, items, i, inner, []);
    assert |[i] + []| <= n;
    forall steps | Follow(g, inner, steps).Some? ensures |steps| <= n - 1 {
      FollowFrom(g, items, i, inner, steps);
      assert |[i] + steps| <= n;
    }
    forall steps, j: nat ensures !DanglesAt(g, inner, steps, j) {
      if DanglesAt(g, inner, steps, j) {
        FollowFrom(g, items, i, inner, steps);
        assert DanglesAt(g, items, [i] + steps, j);
      }
    }
  }

  lemma {:induction false} FollowJoins(g: Graph, items: seq<Node>, a: seq<nat>, b: seq<nat>)
    requires Follow(g, items, a).Some?
    ensures Follow(g, items, a + b) == Follow(g, Follow(g, items, a).value, b)
    decreases |a|
  {
    if a == [] {
      assert a + b == b;
    } else {
      assert (a + b)[0] == a[0] && (a + b)[1..] == a[1..] + b;
      match items[a[0]]
      case Group(_, _, inner) => FollowJoins(g, inner, a[1..], b);
      case Component(name, _) => FollowJoins(g, g[name], a[1..], b);
    }
  }

  /** What comes back to itself never fits. */
  lemma {:induction false} CircleNeverFits(g: Graph, items: seq<Node>, steps: seq<nat>, n: int)
    requires steps != [] && Follow(g, items, steps) == Some(items)
    ensures !Fits(g, items, n)
    decreases n
  {
    if Fits(g, items, n) {
      FollowFits(g, items, steps, n);
      CircleNeverFits(g, items, steps, n - |steps|);
    }
  }

  // ----- the check -----

  /** A component on the current path, or one fully measured, with the height of its subtree. */
  datatype VisitState = InProgress | Measured(height: nat)

  /** `h` is the number of levels at and below the component, exactly. */
  ghost predicate TrueHeight(g: Graph, name: Name, h: nat) {
    name in g && h > 0 && Fits(g, g[name], h - 1) && !Fits(g, g[name], h - 2)
  }

  ghost predicate HeightsAreTrue(g: Graph, state: map<Name, VisitState>) {
    forall c :: c in state && state[c].Measured? ==> TrueHeight(g, c, state[c].height) && state[c].height <= MAX_COMPONENT_DEPTH
  }

  /** The components entered on the way: the first one, then those the steps go through. */
  function Along(g: Graph, first: Name, steps: seq<nat>): set<Name>
    decreases |steps|
  {
    if steps == [] then {first}
    else
      var before, last := steps[..|steps| - 1], steps[|steps| - 1];
      Along(g, first, before) + if first in g then EnteredAt(Follow(g, g[first], before), last) else {}
  }

  function EnteredAt(items: Option<seq<Node>>, i: nat): set<Name> {
    if items.Some? && i < |items.value| && items.value[i].Component? then {items.value[i].name} else {}
  }

  /** In progress are exactly the components of the current path. */
  ghost predicate OnPath(g: Graph, state: map<Name, VisitState>, first: Name, steps: seq<nat>) {
    forall c :: (c in state && state[c].InProgress?) <==> c in Along(g, first, steps)
  }

  ghost predicate LeadsTo(g: Graph, c: Name, items: seq<Node>) {
    c in g && exists steps :: Follow(g, g[c], steps) == Some(items)
  }

  lemma AlongNext(g: Graph, first: Name, steps: seq<nat>, items: seq<Node>, i: nat)
    requires Stands(g, first, steps, items) && i < |items|
    ensures Along(g, first, steps + [i]) == Along(g, first, steps) + if items[i].Component? then {items[i].name} else {}
  {
    assert (steps + [i])[..|steps|] == steps;
  }

  /** Every component of the path leads to where the path stands. */
  lemma {:induction false} PathLeads(g: Graph, first: Name, steps: seq<nat>, items: seq<Node>, c: Name)
    requires Stands(g, first, steps, items) && c in Along(g, first, steps)
    ensures LeadsTo(g, c, items)
    decreases |steps|
  {
    if steps == [] {
      assert Follow(g, g[first], []) == Some(items);
    } else {
      var before, last := steps[..|steps| - 1], steps[|steps| - 1];
      assert steps == before + [last];
      PrefixFollows(g, g[first], before, last);
      var above := Follow(g, g[first], before).value;
      if c in Along(g, first, before) {
        PathLeads(g, first, before, above, c);
        var inner := PathStep(g, c, above, last, items);
      } else {
        assert c == above[last].name && Follow(g, g[c], []) == Some(items);
      }
    }
  }

  /** A chain without its last step leads to where that step is taken. */
  lemma PrefixFollows(g: Graph, items: seq<Node>, steps: seq<nat>, i: nat)
    requires Follow(g, items, steps + [i]).Some?
    ensures Follow(g, items, steps).Some?
    ensures var above := Follow(g, items, steps).value; i < |above| && Enters(g, above[i], Follow(g, items, steps + [i]).value)
    decreases |steps|
  {
    if steps == [] {
      assert ([] + [i])[0] == i && ([] + [i])[1..] == [];
    } else {
      assert (steps + [i])[0] == steps[0] && (steps + [i])[1..] == steps[1..] + [i];
      match items[steps[0]]
      case Group(_, _, inner) => PrefixFollows(g, inner, steps[1..], i);
      case Component(name, _) => PrefixFollows(g, g[name], steps[1..], i);
    }
  }

  ghost predicate FirstFit(g: Graph, items: seq<Node>, i: nat, n: nat)
    requires i <= |items|
  {
    forall j :: 0 <= j < i ==> ItemFits(g, items[j], n)
  }

  lemma FirstFitNext(g: Graph, items: seq<Node>, i: nat, n: nat, reach: nat)
    requires i < |items| && FirstFit(g, items, i, n) && ItemFits(g, items[i], reach)
    ensures FirstFit(g, items, i + 1, if reach > n then reach else n)
  {
    var m := if reach > n then reach else n;
    ItemFitsIsMonotone(g, items[i], reach, m);
    forall j | 0 <= j < i ensures ItemFits(g, items[j], m) {
      ItemFitsIsMonotone(g, items[j], n, m);
    }
  }

  /** The components in progress are the same ones, and what was measured stays so. */
  ghost predicate PathRestored(before: map<Name, VisitState>, after: map<Name, VisitState>) {
    && (forall c :: (c in after && after[c].InProgress?) <==> (c in before && before[c].InProgress?))
    && (forall c :: c in before && before[c].Measured? ==> c in after && after[c] == before[c])
  }

  lemma PathStep(g: Graph, c: Name, items: seq<Node>, i: nat, inner: seq<Node>) returns (steps: seq<nat>)
    requires LeadsTo(g, c, items) && i < |items| && Enters(g, items[i], inner)
    ensures steps != [] && Follow(g, g[c], steps) == Some(inner)
  {
    var above :| Follow(g, g[c], above) == Some(items);
    FollowFrom(g, items, i, inner, []);
    assert [i] + [] == [i];
    FollowJoins(g, g[c], above, [i]);
    steps := above + [i];
  }

  lemma ItemFitsIsMonotone(g: Graph, item: Node, n: nat, m: nat)
    requires ItemFits(g, item, n) && n <= m
    ensures ItemFits(g, item, m)
  {
    match item
    case Field(_, _) =>
    case Group(_, _, inner) => FitsIsMonotone(g, inner, n - 1, m - 1);
    case Component(name, _) => FitsIsMonotone(g, g[name], n - 1, m - 1);
  }

  /** Some chain from the component takes more steps than are allowed. */
  ghost predicate Overlong(g: Graph, first: Name) {
    first in g && exists steps :: Follow(g, g[first], steps).Some? && |steps| >= MAX_COMPONENT_DEPTH
  }

  /** Some chain from the component ends where `name` is referenced. */
  ghost predicate Reaches(g: Graph, first: Name, name: Name) {
    exists steps, items, i :: Stands(g, first, steps, items) && ReferencedAt(items, i, name)
  }

  predicate ReferencedAt(items: seq<Node>, i: nat, name: Name) {
    i < |items| && items[i].Component? && items[i].name == name
  }

  /** The error names a fault met on a chain from the component. */
  ghost predicate Justified(g: Graph, first: Name, error: LoadError) {
    match error
    case ComponentCycle(name) => Circular(g, name) && Reaches(g, first, name)
    case UnknownComponent(name) => name !in g && (name == first || Reaches(g, first, name))
    case NestingTooDeep => Overlong(g, first)
    case _ => false
  }

  /** A height of exactly `h` means a chain of `h` steps. */
  lemma HeightIsReached(g: Graph, first: Name, steps: seq<nat>, c: Name, h: nat, room: int)
    requires c in g && Fits(g, g[c], h) && !Fits(g, g[c], h - 1) && h >= MAX_COMPONENT_DEPTH
    requires Stands(g, first, steps, g[c]) && room < h
    ensures Overlong(g, first) && !Fits(g, g[c], room)
  {
    if Fits(g, g[c], room) {
      FitsIsMonotone(g, g[c], room, h - 1);
    }
    FitsIsSound(g, g[c], h);
    FitsIsSound(g, g[c], h - 1);
    var more :| Follow(g, g[c], more).Some? && |more| > h - 1;
    FollowJoins(g, g[first], steps, more);
    assert |steps + more| >= MAX_COMPONENT_DEPTH;
  }

  /** Where the visit stands: `steps` lead from the component visited first to `items`. */
  ghost predicate Stands(g: Graph, first: Name, steps: seq<nat>, items: seq<Node>) {
    first in g && Follow(g, g[first], steps) == Some(items)
  }

  lemma StandsNext(g: Graph, first: Name, steps: seq<nat>, items: seq<Node>, i: nat, inner: seq<Node>)
    requires Stands(g, first, steps, items) && i < |items| && Enters(g, items[i], inner)
    ensures Stands(g, first, steps + [i], inner)
  {
    FollowFrom(g, items, i, inner, []);
    assert [i] + [] == [i];
    FollowJoins(g, g[first], steps, [i]);
  }

  /** Visits a component first reached, at no depth, or at position `i` of `above`. */
  method VisitComponent(name: Name, g: Graph, before: map<Name, VisitState>, depth: nat,
                        ghost first: Name, ghost steps: seq<nat>, ghost above: seq<Node>, ghost i: nat)
    returns (height: Result<nat, LoadError>, state: map<Name, VisitState>)
    requires depth <= MAX_COMPONENT_DEPTH && HeightsAreTrue(g, before)
    requires if depth == 0 then name == first && forall c :: c in before ==> before[c].Measured?
             else
               && ReferencedAt(above, i, name) && OnPath(g, before, first, steps)
               && Stands(g, first, steps, above) && |steps| == depth - 1
    ensures HeightsAreTrue(g, state)
    ensures height.Ok? ==> PathRestored(before, state) && name in g && TrueHeight(g, name, height.value)
    ensures height.Ok? ==> name in state && state[name] == Measured(height.value) && height.value <= MAX_COMPONENT_DEPTH
    ensures height.Err? ==> !(name in g && Fits(g, g[name], MAX_COMPONENT_DEPTH - depth - 1)) && Justified(g, first, height.error)
    decreases MAX_COMPONENT_DEPTH + 1 - depth, 2
  {
    state := before;
    if name in state {
      match state[name]
      case Measured(h) => return Ok(h), state;
      case InProgress =>
        PathLeads(g, first, steps, above, name);
        ghost var circle := PathStep(g, name, above, i, g[name]);
        CircleNeverFits(g, g[name], circle, MAX_COMPONENT_DEPTH - depth - 1);
        return Err(ComponentCycle(name)), state;
    }
    if name !in g {
      return Err(UnknownComponent(name)), state;
    }
    assert Follow(g, g[name], []) == Some(g[name]);
    ghost var chain := [];
    if depth > 0 {
      StandsNext(g, first, steps, above, i, g[name]);
      AlongNext(g, first, steps, above, i);
      chain := steps + [i];
    }
    state := state[name := InProgress];
    height, state := VisitItems(g[name], g, state, depth + 1, first, chain);
    if height.Err? {
      return;
    }
    if 1 + height.value > MAX_COMPONENT_DEPTH {
      HeightIsReached(g, first, chain, name, height.value, MAX_COMPONENT_DEPTH - depth - 1);
      return Err(NestingTooDeep), state;
    }
    height := Ok(1 + height.value);
    state := state[name := Measured(height.value)];
  }

  method VisitItems(items: seq<Node>, g: Graph, before: map<Name, VisitState>, depth: nat, ghost first: Name, ghost steps: seq<nat>)
    returns (height: Result<nat, LoadError>, state: map<Name, VisitState>)
    requires 0 < depth <= MAX_COMPONENT_DEPTH + 1 && HeightsAreTrue(g, before) && OnPath(g, before, first, steps)
    requires Stands(g, first, steps, items) && |steps| == depth - 1
    ensures HeightsAreTrue(g, state)
    ensures height.Ok? ==> PathRestored(before, state) && Fits(g, items, height.value) && !Fits(g, items, height.value - 1)
    ensures height.Err? ==> !Fits(g, items, MAX_COMPONENT_DEPTH - depth) && Justified(g, first, height.error)
    decreases MAX_COMPONENT_DEPTH + 2 - depth, 1
  {
    state := before;
    if depth > MAX_COMPONENT_DEPTH {
      return Err(NestingTooDeep), state;
    }
    var deepest := 0;
    for i := 0 to |items|
      invariant HeightsAreTrue(g, state) && PathRestored(before, state)
      invariant FirstFit(g, items, i, deepest)
      invariant deepest > 0 ==> exists j :: 0 <= j < i && !ItemFits(g, items[j], deepest - 1)
    {
      var reach;
      reach, state := VisitItem(items, i, g, state, depth, first, steps);
      if reach.Err? {
        return reach, state;
      }
      FirstFitNext(g, items, i, deepest, reach.value);
      if reach.value > deepest {
        deepest := reach.value;
      }
    }
    return Ok(deepest), state;
  }

  /** The levels item `i` reaches: none for a field, one more than its own for a group. */
  method VisitItem(items: seq<Node>, i: nat, g: Graph, before: map<Name, VisitState>, depth: nat, ghost first: Name, ghost steps: seq<nat>)
    returns (reach: Result<nat, LoadError>, state: map<Name, VisitState>)
    requires 0 < depth <= MAX_COMPONENT_DEPTH && HeightsAreTrue(g, before) && OnPath(g, before, first, steps)
    requires Stands(g, first, steps, items) && |steps| == depth - 1 && i < |items|
    ensures HeightsAreTrue(g, state)
    ensures reach.Ok? ==> PathRestored(before, state) && ItemFits(g, items[i], reach.value)
    ensures reach.Ok? && reach.value > 0 ==> !ItemFits(g, items[i], reach.value - 1)
    ensures reach.Err? ==> !ItemFits(g, items[i], MAX_COMPONENT_DEPTH - depth) && Justified(g, first, reach.error)
    decreases MAX_COMPONENT_DEPTH + 2 - depth, 0
  {
    match items[i]
    case Field(_, _) => return Ok(0), before;
    case Group(_, _, inner) =>
      StandsNext(g, first, steps, items, i, inner);
      AlongNext(g, first, steps, items, i);
      reach, state := VisitItems(inner, g, before, depth + 1, first, steps + [i]);
      if reach.Ok? {
        reach := Ok(1 + reach.value);
      }
    case Component(name, _) =>
      reach, state := VisitComponent(name, g, before, depth, first, steps, items, i);
  }

  /** What a dictionary may contain: from every component, chains are sound and at most this long. */
  ghost predicate Acceptable(g: Graph, name: Name) {
    name in g && Sound(g, g[name], MAX_COMPONENT_DEPTH - 1)
  }

  /** The error is a fault of the first component in `order` that is not acceptable. */
  ghost predicate FirstFault(g: Graph, order: seq<Name>, error: LoadError) {
    exists i :: 0 <= i < |order| && FaultAt(g, order, i, error)
  }

  ghost predicate FaultAt(g: Graph, order: seq<Name>, i: nat, error: LoadError)
    requires i < |order|
  {
    (forall c :: c in order[..i] ==> Acceptable(g, c)) && !Acceptable(g, order[i]) && Justified(g, order[i], error)
  }

  /** Accepts exactly the graphs without a dangling or over-long chain, in whatever order they are declared. */
  method CheckComponentGraph(g: Graph, order: seq<Name>) returns (error: Option<LoadError>)
    ensures error.None? <==> forall c :: c in order ==> Acceptable(g, c)
    ensures error.Some? ==> FirstFault(g, order, error.value)
  {
    var state: map<Name, VisitState> := map[];
    for i := 0 to |order|
      invariant HeightsAreTrue(g, state) && forall c :: c in state ==> state[c].Measured?
      invariant forall c :: c in order[..i] ==> Acceptable(g, c)
    {
      var height;
      height, state := VisitComponent(order[i], g, state, 0, order[i], [], [], 0);
      if order[i] in g {
        FitsIsSound(g, g[order[i]], MAX_COMPONENT_DEPTH - 1);
      }
      if height.Err? {
        assert order[i] in order && FaultAt(g, order, i, height.error);
        return Some(height.error);
      }
      FitsIsMonotone(g, g[order[i]], height.value - 1, MAX_COMPONENT_DEPTH - 1);
      assert order[..i + 1] == order[..i] + [order[i]];
    }
    assert order[..|order|] == order;
    return None;
  }

  /** An accepted graph has no circle. */
  lemma AcceptedHasNoCircle(g: Graph, name: Name)
    requires Acceptable(g, name)
    ensures !Circular(g, name)
  {
    FitsIsSound(g, g[name], MAX_COMPONENT_DEPTH - 1);
    forall steps: seq<nat> | steps != [] ensures Follow(g, g[name], steps) != Some(g[name]) {
      if Follow(g, g[name], steps) == Some(g[name]) {
        CircleNeverFits(g, g[name], steps, MAX_COMPONENT_DEPTH - 1);
      }
    }
  }

  ghost predicate Accepted(g: Graph) {
    forall c :: c in g ==> Fits(g, g[c], MAX_COMPONENT_DEPTH - 1)
  }

  lemma AcceptedGraph(g: Graph)
    requires forall c :: c in g ==> Acceptable(g, c)
    ensures Accepted(g)
  {
    forall c | c in g ensures Fits(g, g[c], MAX_COMPONENT_DEPTH - 1) {
      FitsIsSound(g, g[c], MAX_COMPONENT_DEPTH - 1);
    }
  }

  // ----- the delimiter of a group: the first tag of its members -----

  /** What an expansion in document order comes to: a field, a group's count field, or a missing component. */
  datatype Leaf = Named(name: Name) | Dangling(name: Name)

  function Flat(g: Graph, items: seq<Node>, n: nat): seq<Leaf>
    decreases n, 1, |items|
  {
    if items == [] then [] else FlatItem(g, items[0], n) + Flat(g, items[1..], n)
  }

  function FlatItem(g: Graph, item: Node, n: nat): seq<Leaf>
    decreases n, 0, 0
  {
    match item
    case Field(name, _) => [Named(name)]
    case Group(name, _, _) => [Named(name)]
    case Component(name, _) => if name !in g then [Dangling(name)] else if n == 0 then [] else Flat(g, g[name], n - 1)
  }

  /** `n` components below `items` are enough to expand them in full. */
  ghost predicate Covers(g: Graph, items: seq<Node>, n: nat) {
    forall i :: 0 <= i < |items| && items[i].Component? && items[i].name in g ==> n > 0 && Fits(g, g[items[i].name], n - 1)
  }

  lemma FitsCovers(g: Graph, items: seq<Node>, n: nat)
    requires Fits(g, items, n)
    ensures Covers(g, items, n)
  {
    forall i | 0 <= i < |items| && items[i].Component? && items[i].name in g
      ensures n > 0 && Fits(g, g[items[i].name], n - 1)
    {
      assert ItemFits(g, items[i], n);
    }
  }

  lemma CoversTail(g: Graph, items: seq<Node>, n: nat)
    requires Covers(g, items, n) && items != []
    ensures Covers(g, items[1..], n)
  {
    assert forall i :: 0 <= i < |items[1..]| ==> items[1..][i] == items[i + 1];
  }

  lemma {:induction false} FlatIsStable(g: Graph, items: seq<Node>, n: nat, m: nat)
    requires Covers(g, items, n) && n <= m
    ensures Flat(g, items, n) == Flat(g, items, m)
    decreases n, 1, |items|
  {
    if items != [] {
      CoversTail(g, items, n);
      FlatIsStable(g, items[1..], n, m);
      FlatItemIsStable(g, items[0], n, m);
    }
  }

  lemma {:induction false} FlatItemIsStable(g: Graph, item: Node, n: nat, m: nat)
    requires n <= m && (item.Component? && item.name in g ==> n > 0 && Fits(g, g[item.name], n - 1))
    ensures FlatItem(g, item, n) == FlatItem(g, item, m)
    decreases n, 0, 0
  {
    if item.Component? && item.name in g {
      FitsCovers(g, g[item.name], n - 1);
      FlatIsStable(g, g[item.name], n - 1, m - 1);
    }
  }

  /** In an accepted graph the bound on the expansion does not show. */
  lemma FlatOfComponent(g: Graph, name: Name)
    requires Accepted(g) && name in g
    ensures Covers(g, g[name], MAX_COMPONENT_DEPTH - 1)
    ensures Flat(g, g[name], MAX_COMPONENT_DEPTH - 1) == Flat(g, g[name], MAX_COMPONENT_DEPTH)
  {
    FitsCovers(g, g[name], MAX_COMPONENT_DEPTH - 1);
    FlatIsStable(g, g[name], MAX_COMPONENT_DEPTH - 1, MAX_COMPONENT_DEPTH);
  }

  lemma AcceptedCovers(g: Graph, items: seq<Node>)
    requires Accepted(g)
    ensures Covers(g, items, MAX_COMPONENT_DEPTH)
  {
  }

  /** The tag of the first leaf, or why it has none. */
  function FirstOf(tags: map<Name, Tag>, leaves: seq<Leaf>): Result<Option<Tag>, LoadError> {
    if leaves == [] then Ok(None)
    else match leaves[0]
      case Named(name) => if name in tags then Ok(Some(tags[name])) else Err(UnknownFieldName(name))
      case Dangling(name) => Err(UnknownComponent(name))
  }

  /** The first leaf of a list is that of its head, or of the rest when the head is an empty component. */
  lemma FirstStep(g: Graph, tags: map<Name, Tag>, items: seq<Node>, i: nat)
    requires Accepted(g) && i < |items|
    ensures FirstOf(tags, Flat(g, items[i..], MAX_COMPONENT_DEPTH))
            == if !items[i].Component? then FirstOf(tags, [Named(items[i].name)])
               else if items[i].name !in g then Err(UnknownComponent(items[i].name))
               else
                 var below := FirstOf(tags, Flat(g, g[items[i].name], MAX_COMPONENT_DEPTH));
                 if below == Ok(None) then FirstOf(tags, Flat(g, items[i + 1..], MAX_COMPONENT_DEPTH)) else below
  {
    assert items[i..][0] == items[i] && items[i..][1..] == items[i + 1..];
    var first, rest := FlatItem(g, items[i], MAX_COMPONENT_DEPTH), Flat(g, items[i + 1..], MAX_COMPONENT_DEPTH);
    if items[i].Component? && items[i].name in g {
      FlatOfComponent(g, items[i].name);
    }
    FirstOfConcat(tags, first, rest);
  }

  lemma FirstOfConcat(tags: map<Name, Tag>, a: seq<Leaf>, b: seq<Leaf>)
    ensures FirstOf(tags, a + b) == if FirstOf(tags, a) == Ok(None) then FirstOf(tags, b) else FirstOf(tags, a)
  {
    if a == [] {
      assert a + b == b;
    } else {
      assert (a + b)[0] == a[0];
    }
  }

  // ----- resolving names -----

  /** The members are the items with every name resolved, each group led by its first tag. */
  ghost predicate Resolves(g: Graph, tags: map<Name, Tag>, items: seq<Node>, ms: seq<Member>)
    decreases items
  {
    |ms| == |items| && forall i :: 0 <= i < |items| ==> ResolvesItem(g, tags, items[i], ms[i])
  }

  ghost predicate ResolvesItem(g: Graph, tags: map<Name, Tag>, item: Node, member: Member)
    decreases item
  {
    match item
    case Field(name, required) => name in tags && member == FieldRef(tags[name], required)
    case Component(name, required) => name in g && member == ComponentRef(name, required)
    case Group(name, required, inner) =>
      && name in tags && member.GroupRef? && member.def.countTag == tags[name] && member.def.required == required
      && FirstOf(tags, Flat(g, inner, MAX_COMPONENT_DEPTH)) == Ok(Some(member.def.delimiter))
      && Resolves(g, tags, inner, member.def.members)
  }

  ghost predicate ItemResolves(g: Graph, tags: map<Name, Tag>, item: Node) {
    exists member :: ResolvesItem(g, tags, item, member)
  }

  /** The error names what is wrong with the first item that does not resolve. */
  ghost predicate ItemsFail(g: Graph, tags: map<Name, Tag>, items: seq<Node>, error: LoadError)
    decreases items, 1
  {
    exists i :: 0 <= i < |items| && (forall j :: 0 <= j < i ==> ItemResolves(g, tags, items[j]))
                && !ItemResolves(g, tags, items[i]) && ItemFails(g, tags, items[i], error)
  }

  /** A name without a field or component; of a group its own name first, then its first leaf, then its items. */
  ghost predicate ItemFails(g: Graph, tags: map<Name, Tag>, item: Node, error: LoadError)
    decreases item, 0
  {
    match item
    case Field(name, _) => name !in tags && error == UnknownFieldName(name)
    case Component(name, _) => name !in g && error == UnknownComponent(name)
    case Group(name, _, inner) =>
      var leaves := Flat(g, inner, MAX_COMPONENT_DEPTH);
      if name !in tags then error == UnknownFieldName(name)
      else if leaves == [] then error == EmptyGroup(name)
      else match leaves[0]
        case Named(leaf) => if leaf in tags then ItemsFail(g, tags, inner, error) else error == UnknownFieldName(leaf)
        case Dangling(leaf) => error == UnknownComponent(leaf)
  }

  class Resolver {
    const tags: map<Name, Tag>
    const components: Graph
    /** The first tag of each component already walked. */
    var firstTags: map<Name, Option<Tag>>

    ghost predicate Valid()
      reads this
    {
      && Accepted(components)
      && forall c :: c in firstTags ==>
           c in components && FirstOf(tags, Flat(components, components[c], MAX_COMPONENT_DEPTH)) == Ok(firstTags[c])
    }

    constructor (fieldsByName: map<Name, Tag>, graph: Graph)
      requires Accepted(graph)
      ensures Valid() && tags == fieldsByName && components == graph
    {
      tags, components, firstTags := fieldsByName, graph, map[];
    }

    /** The first tag reached in document order. */
    method FirstTag(items: seq<Node>, depth: nat) returns (first: Result<Option<Tag>, LoadError>)
      requires Valid() && depth <= MAX_COMPONENT_DEPTH && Covers(components, items, MAX_COMPONENT_DEPTH - depth)
      requires depth > 0 ==> Fits(components, items, MAX_COMPONENT_DEPTH - depth)
      modifies this
      ensures Valid() && first == FirstOf(tags, Flat(components, items, MAX_COMPONENT_DEPTH))
      decreases MAX_COMPONENT_DEPTH - depth, 1
    {
      assert items[0..] == items;
      for i := 0 to |items|
        invariant Valid()
        invariant FirstOf(tags, Flat(components, items, MAX_COMPONENT_DEPTH))
                  == FirstOf(tags, Flat(components, items[i..], MAX_COMPONENT_DEPTH))
      {
        FirstStep(components, tags, items, i);
        match items[i] {
          case Component(name, _) =>
            assert depth > 0 ==> ItemFits(components, items[i], MAX_COMPONENT_DEPTH - depth);
            first := ComponentFirstTag(name, depth);
            if first != Ok(None) {
              return;
            }
          case _ =>
            if items[i].name !in tags {
              return Err(UnknownFieldName(items[i].name));
            }
            return Ok(Some(tags[items[i].name]));
        }
      }
      return Ok(None);
    }

    /** The first tag of a component, computed once; in an accepted graph the depth ceiling is never reached. */
    method ComponentFirstTag(name: Name, depth: nat) returns (first: Result<Option<Tag>, LoadError>)
      requires Valid() && depth <= MAX_COMPONENT_DEPTH
      requires if name in components then
                 depth < MAX_COMPONENT_DEPTH && Fits(components, components[name], MAX_COMPONENT_DEPTH - depth - 1)
               else depth == 0
      modifies this
      ensures Valid()
      ensures name !in components ==> first == Err(UnknownComponent(name))
      ensures name in components ==> first == FirstOf(tags, Flat(components, components[name], MAX_COMPONENT_DEPTH))
      decreases MAX_COMPONENT_DEPTH - depth, 0
    {
      if name in firstTags {
        return Ok(firstTags[name]);
      }
      if depth >= MAX_COMPONENT_DEPTH {
        return Err(NestingTooDeep);
      }
      if name !in components {
        return Err(UnknownComponent(name));
      }
      FitsCovers(components, components[name], MAX_COMPONENT_DEPTH - depth - 1);
      first := FirstTag(components[name], depth + 1);
      if first.Ok? {
        firstTags := firstTags[name := first.value];
      }
    }

    /** Resolves a group: its count tag, the first tag of its members as delimiter, and its members. */
    method ResolveGroup(name: Name, required: bool, items: seq<Node>) returns (def: Result<GroupDef, LoadError>)
      requires Valid()
      modifies this
      ensures Valid()
      ensures def.Ok? ==> ResolvesItem(components, tags, Group(name, required, items), GroupRef(def.value))
      ensures def.Err? ==> forall m :: !ResolvesItem(components, tags, Group(name, required, items), m)
      ensures def.Err? ==> ItemFails(components, tags, Group(name, required, items), def.error)
      decreases items, 1
    {
      if name !in tags {
        return Err(UnknownFieldName(name));
      }
      AcceptedCovers(components, items);
      var first := FirstTag(items, 0);
      if first.Err? {
        return Err(first.error);
      }
      if first.value.None? {
        return Err(EmptyGroup(name));
      }
      var members := ResolveMembers(items);
      if members.Err? {
        return Err(members.error);
      }
      return Ok(GroupDef(tags[name], first.value.value, required, members.value));
    }

    /** Resolves items into members, in document order; it fails only where no resolution exists. */
    method ResolveMembers(items: seq<Node>) returns (ms: Result<seq<Member>, LoadError>)
      requires Valid()
      modifies this
      ensures Valid()
      ensures ms.Ok? ==> Resolves(components, tags, items, ms.value)
      ensures ms.Err? ==> forall other :: !Resolves(components, tags, items, other)
      ensures ms.Err? ==> ItemsFail(components, tags, items, ms.error)
      decreases items, 0
    {
      var members := [];
      for i := 0 to |items|
        invariant Valid() && |members| == i
        invariant forall j :: 0 <= j < i ==> ResolvesItem(components, tags, items[j], members[j])
        invariant forall j :: 0 <= j < i ==> ItemResolves(components, tags, items[j])
      {
        var member;
        match items[i] {
          case Field(name, required) =>
            if name !in tags {
              assert !ItemResolves(components, tags, items[i]) && ItemFails(components, tags, items[i], UnknownFieldName(name));
              return Err(UnknownFieldName(name));
            }
            member := FieldRef(tags[name], required);
          case Group(name, required, inner) =>
            var def := ResolveGroup(name, required, inner);
            if def.Err? {
              assert !ItemResolves(components, tags, items[i]) && ItemFails(components, tags, items[i], def.error);
              return Err(def.error);
            }
            member := GroupRef(def.value);
          case Component(name, required) =>
            if name !in components {
              assert !ItemResolves(components, tags, items[i]) && ItemFails(components, tags, items[i], UnknownComponent(name));
              return Err(UnknownComponent(name));
            }
            member := ComponentRef(name, required);
        }
        assert ResolvesItem(components, tags, items[i], member);
        members := members + [member];
      }
      return Ok(members);
    }
  }
}
