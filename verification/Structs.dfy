/**
 The struct generator: a first pass collects the components the messages reach, so that the second
 pass, which emits the structs, can rely on them.
 */
module Structs {
  import opened Wire
  import opened Schema
  import opened References

  /** Every component listed here, in the groups too, is among `names`. */
  predicate Covers(ms: seq<Member>, names: set<Name>)
    decreases ms
  {
    forall i :: 0 <= i < |ms| ==> CoversMember(ms[i], names)
  }

  predicate CoversMember(member: Member, names: set<Name>)
    decreases member
  {
    match member
    case FieldRef(_, _) => true
    case GroupRef(def) => CoversGroup(def, names)
    case ComponentRef(name, _) => name in names
  }

  predicate CoversGroup(def: GroupDef, names: set<Name>)
    decreases def
  {
    Covers(def.members, names)
  }

  /** Group entries nest at most `n` deep here. */
  predicate Nests(ms: seq<Member>, n: nat)
    decreases n
  {
    forall i :: 0 <= i < |ms| && ms[i].GroupRef? ==> n > 0 && Nests(ms[i].def.members, n - 1)
  }

  lemma {:induction false} NestsIsMonotone(ms: seq<Member>, n: nat, m: nat)
    requires Nests(ms, n) && n <= m
    ensures Nests(ms, m)
    decreases n
  {
    forall i | 0 <= i < |ms| && ms[i].GroupRef? ensures Nests(ms[i].def.members, m - 1) {
      NestsIsMonotone(ms[i].def.members, n - 1, m - 1);
    }
  }

  /** What the second pass relies on: the names are defined, closed under reference, and shallow. */
  ghost predicate Closed(d: Dictionary, names: set<Name>) {
    forall c :: c in names ==> c in d.components && Covers(d.components[c], names) && Nests(d.components[c], MAX_NESTING_DEPTH)
  }

  lemma {:induction false} CoversIsMonotone(ms: seq<Member>, a: set<Name>, b: set<Name>)
    requires Covers(ms, a) && a <= b
    ensures Covers(ms, b)
    decreases ms
  {
    forall i | 0 <= i < |ms| ensures CoversMember(ms[i], b) {
      assert CoversMember(ms[i], a);
      CoversMemberIsMonotone(ms[i], a, b);
    }
  }

  lemma {:induction false} CoversMemberIsMonotone(member: Member, a: set<Name>, b: set<Name>)
    requires CoversMember(member, a) && a <= b
    ensures CoversMember(member, b)
    decreases member
  {
    if member.GroupRef? {
      CoversGroupIsMonotone(member.def, a, b);
    }
  }

  lemma {:induction false} CoversGroupIsMonotone(def: GroupDef, a: set<Name>, b: set<Name>)
    requires CoversGroup(def, a) && a <= b
    ensures CoversGroup(def, b)
    decreases def
  {
    CoversIsMonotone(def.members, a, b);
  }

  /** A closed set that covers `ms` holds everything reachable from it. */
  lemma {:induction false} ClosedHoldsReachable(d: Dictionary, ms: seq<Member>, names: set<Name>, steps: seq<nat>)
    requires Closed(d, names) && Covers(ms, names) && Follow(d, ms, steps).Some?
    ensures Covers(Follow(d, ms, steps).value, names)
    decreases |steps|
  {
    if steps != [] {
      assert CoversMember(ms[steps[0]], names);
      match ms[steps[0]]
      case GroupRef(def) =>
        assert CoversGroup(def, names);
        ClosedHoldsReachable(d, def.members, names, steps[1..]);
      case ComponentRef(name, _) => ClosedHoldsReachable(d, d.components[name], names, steps[1..]);
    }
  }

  // ----- the first pass -----

  function NameSet(list: seq<Name>): set<Name> {
    set i | 0 <= i < |list| :: list[i]
  }

  predicate Distinct(list: seq<Name>) {
    forall i, j :: 0 <= i < j < |list| ==> list[i] != list[j]
  }

  /** `after` adds to `before` components reachable from `ms` only, each once and none of `stack`. */
  ghost predicate Collects(d: Dictionary, ms: seq<Member>, before: seq<Name>, after: seq<Name>, stack: seq<Name>) {
    && before <= after && Distinct(after)
    && forall i :: |before| <= i < |after| ==> Reachable(d, ms, after[i]) && after[i] !in stack
  }

  lemma CollectsFurther(d: Dictionary, ms: seq<Member>, i: nat, inner: seq<Member>, before: seq<Name>, between: seq<Name>,
                        after: seq<Name>, stack: seq<Name>, deeper: seq<Name>)
    requires Collects(d, ms, before, between, stack) && Collects(d, inner, between, after, deeper) && stack <= deeper
    requires i < |ms|
    requires (ms[i].GroupRef? && inner == ms[i].def.members)
             || (ms[i].ComponentRef? && ms[i].name in d.components && inner == d.components[ms[i].name])
    ensures Collects(d, ms, before, after, stack)
    ensures NameSet(between) <= NameSet(after)
  {
    forall k | |before| <= k < |after| ensures Reachable(d, ms, after[k]) && after[k] !in stack {
      if k >= |between| {
        ReachesFurther(d, ms, i, inner, after[k]);
      } else {
        assert after[k] == between[k];
      }
    }
    assert forall k :: 0 <= k < |between| ==> after[k] == between[k];
  }

  /** A component is added once everything below it is covered. */
  lemma CollectsComponent(d: Dictionary, ms: seq<Member>, i: nat, before: seq<Name>, between: seq<Name>, stack: seq<Name>, n: nat)
    requires Collects(d, ms, before, between, stack) && Closed(d, NameSet(between))
    requires i < |ms| && ms[i].ComponentRef? && ms[i].name !in between && ms[i].name !in stack
    requires ms[i].name in d.components && Covers(d.components[ms[i].name], NameSet(between))
    requires n <= MAX_NESTING_DEPTH && Nests(d.components[ms[i].name], n)
    ensures Collects(d, ms, before, between + [ms[i].name], stack) && Closed(d, NameSet(between + [ms[i].name]))
    ensures NameSet(between + [ms[i].name]) == NameSet(between) + {ms[i].name}
  {
    var name, after := ms[i].name, between + [ms[i].name];
    NamesGrow(between, name);
    assert Follow(d, ms, []) == Some(ms) && Lists(ms, name);
    assert Reachable(d, ms, name);
    NestsIsMonotone(d.components[name], n, MAX_NESTING_DEPTH);
    forall c | c in NameSet(after)
      ensures c in d.components && Covers(d.components[c], NameSet(after)) && Nests(d.components[c], MAX_NESTING_DEPTH)
    {
      CoversIsMonotone(d.components[c], NameSet(between), NameSet(after));
    }
  }

  lemma NamesGrow(list: seq<Name>, name: Name)
    ensures NameSet(list + [name]) == NameSet(list) + {name}
  {
    var longer := list + [name];
    assert forall i :: 0 <= i < |list| ==> longer[i] == list[i];
    assert longer[|list|] == name;
    forall c ensures c in NameSet(longer) <==> c in NameSet(list) + {name} {
    }
  }

  /** The first `i` members are covered. */
  ghost predicate FirstCovered(ms: seq<Member>, i: nat, names: set<Name>)
    requires i <= |ms|
  {
    forall j :: 0 <= j < i ==> CoversMember(ms[j], names)
  }

  lemma FirstStayCovered(ms: seq<Member>, i: nat, a: set<Name>, b: set<Name>)
    requires i <= |ms| && FirstCovered(ms, i, a) && a <= b
    ensures FirstCovered(ms, i, b)
  {
    forall j | 0 <= j < i ensures CoversMember(ms[j], b) {
      CoversMemberIsMonotone(ms[j], a, b);
    }
  }

  /** Collects every component `ms` reaches; a component is added once it is fully expanded. */
  method Reach(d: Dictionary, expandComponents: bool, ms: seq<Member>, depth: nat, stack: seq<Name>, before: seq<Name>,
               ghost root: seq<Member>, ghost steps: seq<nat>)
    returns (error: Option<GeneratorError>, reached: seq<Name>)
    requires Distinct(before) && Closed(d, NameSet(before))
    requires OnStack(d, stack, ms) && Follow(d, root, steps) == Some(ms) && |steps| == depth
    ensures error.None? ==> Collects(d, ms, before, reached, stack) && Closed(d, NameSet(reached))
    ensures error.None? ==> depth <= MAX_NESTING_DEPTH && Nests(ms, MAX_NESTING_DEPTH - depth)
    ensures error.None? && expandComponents ==> Covers(ms, NameSet(reached))
    ensures error.None? && !expandComponents ==> reached == before
    ensures error.Some? ==> Justified(d, root, error.value)
    decreases Room(depth), 2
  {
    reached := before;
    if depth > MAX_NESTING_DEPTH {
      return Some(MaxDepthExceeded), reached;
    }
    for i := 0 to |ms|
      invariant Collects(d, ms, before, reached, stack) && Closed(d, NameSet(reached))
      invariant forall j :: 0 <= j < i && ms[j].GroupRef? ==>
                  depth < MAX_NESTING_DEPTH && Nests(ms[j].def.members, MAX_NESTING_DEPTH - depth - 1)
      invariant expandComponents ==> FirstCovered(ms, i, NameSet(reached))
      invariant !expandComponents ==> reached == before
    {
      error, reached := ReachMember(d, expandComponents, ms, i, depth, stack, before, reached, root, steps);
      if error.Some? {
        return;
      }
    }
    error := None;
  }

  method ReachMember(d: Dictionary, expandComponents: bool, ms: seq<Member>, i: nat, depth: nat, stack: seq<Name>,
                     ghost before: seq<Name>, between: seq<Name>, ghost root: seq<Member>, ghost steps: seq<nat>)
    returns (error: Option<GeneratorError>, reached: seq<Name>)
    requires i < |ms| && depth <= MAX_NESTING_DEPTH
    requires OnStack(d, stack, ms) && Follow(d, root, steps) == Some(ms) && |steps| == depth
    requires Collects(d, ms, before, between, stack) && Closed(d, NameSet(between))
    requires expandComponents ==> FirstCovered(ms, i, NameSet(between))
    ensures error.None? ==> Collects(d, ms, before, reached, stack) && Closed(d, NameSet(reached))
    ensures error.None? && ms[i].GroupRef? ==>
              depth < MAX_NESTING_DEPTH && Nests(ms[i].def.members, MAX_NESTING_DEPTH - depth - 1)
    ensures error.None? && expandComponents ==> FirstCovered(ms, i + 1, NameSet(reached))
    ensures error.None? && !expandComponents ==> reached == between
    ensures error.Some? ==> Justified(d, root, error.value)
    decreases Room(depth), 1
  {
    error, reached := None, between;
    match ms[i]
    case FieldRef(_, _) =>
    case GroupRef(def) =>
      StackFollows(d, stack, ms, i, def.members);
      StepFollows(d, root, steps, ms, i, def.members);
      error, reached := Reach(d, expandComponents, def.members, depth + 1, stack, between, root, steps + [i]);
      if error.None? {
        CollectsFurther(d, ms, i, def.members, before, between, reached, stack, stack);
        if expandComponents {
          FirstStayCovered(ms, i, NameSet(between), NameSet(reached));
          assert CoversGroup(def, NameSet(reached));
        }
      }
    case ComponentRef(name, _) =>
      if expandComponents {
        error, reached := ReachComponent(d, ms, i, depth, stack, before, between, root, steps);
      }
  }

  /** Expands a component not yet reached; one inside itself, or undefined, is an error. */
  method ReachComponent(d: Dictionary, ms: seq<Member>, i: nat, depth: nat, stack: seq<Name>, ghost before: seq<Name>,
                        between: seq<Name>, ghost root: seq<Member>, ghost steps: seq<nat>)
    returns (error: Option<GeneratorError>, reached: seq<Name>)
    requires i < |ms| && ms[i].ComponentRef? && depth <= MAX_NESTING_DEPTH
    requires OnStack(d, stack, ms) && Follow(d, root, steps) == Some(ms) && |steps| == depth
    requires Collects(d, ms, before, between, stack) && Closed(d, NameSet(between)) && FirstCovered(ms, i, NameSet(between))
    ensures error.None? ==> Collects(d, ms, before, reached, stack) && Closed(d, NameSet(reached))
    ensures error.None? ==> FirstCovered(ms, i + 1, NameSet(reached))
    ensures error.Some? ==> Justified(d, root, error.value)
    decreases Room(depth), 0
  {
    var name := ms[i].name;
    error, reached := None, between;
    if name in stack {
      CycleIsReal(d, stack, root, steps, ms, i);
      return Some(ComponentCycle(name)), reached;
    }
    if name !in between {
      if name !in d.components {
        ListedIsReached(d, root, steps, ms, i);
        return Some(UnknownComponent(name)), reached;
      }
      StackGrows(d, stack, ms, i);
      StepFollows(d, root, steps, ms, i, d.components[name]);
      error, reached := Reach(d, true, d.components[name], depth + 1, stack + [name], between, root, steps + [i]);
      if error.None? {
        CollectsFurther(d, ms, i, d.components[name], before, between, reached, stack, stack + [name]);
        assert name in stack + [name];
        CollectsComponent(d, ms, i, before, reached, stack, MAX_NESTING_DEPTH - depth - 1);
        FirstStayCovered(ms, i, NameSet(between), NameSet(reached + [name]));
        reached := reached + [name];
      }
    }
  }

  // ----- the structs of a definition -----

  /** A field of a generated struct. */
  datatype StructField = Plain(tag: Tag, required: bool) | Entries(countTag: Tag, required: bool) | Shared(name: Name, required: bool)

  datatype StructModel = StructModel(at: Address, fields: seq<StructField>)

  function FieldOf(member: Member): StructField {
    match member
    case FieldRef(tag, required) => Plain(tag, required)
    case GroupRef(def) => Entries(def.countTag, def.required)
    case ComponentRef(name, required) => Shared(name, required)
  }

  predicate SameSlot(a: Member, b: Member) {
    || (a.FieldRef? && b.FieldRef? && a.tag == b.tag)
    || (a.GroupRef? && b.GroupRef? && a.def.countTag == b.def.countTag)
    || (a.ComponentRef? && b.ComponentRef? && a.name == b.name)
  }

  /** A member listed again in one definition is one field; components count only when expanded. */
  predicate Kept(ms: seq<Member>, i: nat, expandComponents: bool)
    requires i < |ms|
  {
    && (ms[i].ComponentRef? ==> expandComponents)
    && forall j :: 0 <= j < i ==> !SameSlot(ms[j], ms[i])
  }

  function StructFields(ms: seq<Member>, expandComponents: bool, i: nat): seq<StructField>
    requires i <= |ms|
    decreases |ms| - i
  {
    if i == |ms| then []
    else (if Kept(ms, i, expandComponents) then [FieldOf(ms[i])] else []) + StructFields(ms, expandComponents, i + 1)
  }

  /** The field stands for the member: its tag, or its count tag, or its name, and whether it is required. */
  predicate IsFieldOf(field: StructField, member: Member) {
    match field
    case Plain(tag, required) => member == FieldRef(tag, required)
    case Entries(countTag, required) => member.GroupRef? && member.def.countTag == countTag && member.def.required == required
    case Shared(name, required) => member == ComponentRef(name, required)
  }

  /** The member is the first of its kind listed under its tag or name. */
  predicate ListedFirst(ms: seq<Member>, i: nat)
    requires i < |ms|
  {
    match ms[i]
    case FieldRef(tag, _) => forall j :: 0 <= j < i && ms[j].FieldRef? ==> ms[j].tag != tag
    case GroupRef(def) => forall j :: 0 <= j < i && ms[j].GroupRef? ==> ms[j].def.countTag != def.countTag
    case ComponentRef(name, _) => forall j :: 0 <= j < i && ms[j].ComponentRef? ==> ms[j].name != name
  }

  /** The fields stand for these positions from `i` on, in order: every member listed first, components when they are expanded. */
  ghost predicate FieldsStandFor(fields: seq<StructField>, ms: seq<Member>, expandComponents: bool, i: nat, from: seq<nat>) {
    && |fields| == |from|
    && (forall k :: 0 <= k < |from| ==> i <= from[k] < |ms| && IsFieldOf(fields[k], ms[from[k]]))
    && (forall j, k :: 0 <= j < k < |from| ==> from[j] < from[k])
    && forall j :: i <= j < |ms| ==> (j in from <==> ListedFirst(ms, j) && (ms[j].ComponentRef? ==> expandComponents))
  }

  ghost predicate FieldsOf(fields: seq<StructField>, ms: seq<Member>, expandComponents: bool, from: seq<nat>) {
    FieldsStandFor(fields, ms, expandComponents, 0, from)
  }

  lemma KeptIsListedFirst(ms: seq<Member>, i: nat, expandComponents: bool)
    requires i < |ms|
    ensures Kept(ms, i, expandComponents) <==> ListedFirst(ms, i) && (ms[i].ComponentRef? ==> expandComponents)
    ensures Kept(ms, i, expandComponents) ==> IsFieldOf(FieldOf(ms[i]), ms[i])
  {
  }

  lemma OneMoreField(fields: seq<StructField>, field: StructField, ms: seq<Member>, expandComponents: bool, i: nat, from: seq<nat>)
    requires i < |ms| && FieldsStandFor(fields, ms, expandComponents, i + 1, from)
    requires IsFieldOf(field, ms[i]) && ListedFirst(ms, i) && (ms[i].ComponentRef? ==> expandComponents)
    ensures FieldsStandFor([field] + fields, ms, expandComponents, i, [i] + from)
  {
    var all, next := [field] + fields, [i] + from;
    assert next[0] == i && all[0] == field;
    forall k | 0 < k < |next| ensures i < next[k] < |ms| && IsFieldOf(all[k], ms[next[k]]) {
      assert next[k] == from[k - 1] && all[k] == fields[k - 1];
    }
    forall j, k | 0 <= j < k < |next| ensures next[j] < next[k] {
      assert next[k] == from[k - 1];
      assert j > 0 ==> next[j] == from[j - 1];
    }
    forall j | i <= j < |ms| ensures j in next <==> j == i || j in from {
    }
  }

  lemma NoMoreField(fields: seq<StructField>, ms: seq<Member>, expandComponents: bool, i: nat, from: seq<nat>)
    requires i < |ms| && FieldsStandFor(fields, ms, expandComponents, i + 1, from)
    requires !(ListedFirst(ms, i) && (ms[i].ComponentRef? ==> expandComponents))
    ensures FieldsStandFor(fields, ms, expandComponents, i, from)
  {
  }

  lemma FieldsStep(fields: seq<StructField>, ms: seq<Member>, expandComponents: bool, i: nat, rest: seq<nat>) returns (from: seq<nat>)
    requires i < |ms| && FieldsStandFor(fields, ms, expandComponents, i + 1, rest)
    ensures FieldsStandFor((if Kept(ms, i, expandComponents) then [FieldOf(ms[i])] else []) + fields, ms, expandComponents, i, from)
  {
    KeptIsListedFirst(ms, i, expandComponents);
    if Kept(ms, i, expandComponents) {
      OneMoreField(fields, FieldOf(ms[i]), ms, expandComponents, i, rest);
      from := [i] + rest;
    } else {
      NoMoreField(fields, ms, expandComponents, i, rest);
      assert [] + fields == fields;
      from := rest;
    }
  }

  lemma {:induction false} FieldsFrom(ms: seq<Member>, expandComponents: bool, i: nat) returns (from: seq<nat>)
    requires i <= |ms|
    ensures FieldsStandFor(StructFields(ms, expandComponents, i), ms, expandComponents, i, from)
    decreases |ms| - i
  {
    if i == |ms| {
      from := [];
    } else {
      var rest := FieldsFrom(ms, expandComponents, i + 1);
      from := FieldsStep(StructFields(ms, expandComponents, i + 1), ms, expandComponents, i, rest);
    }
  }

  /** The struct of a definition, then those of its group entries, each followed by its own. */
  function StructsOf(part: Part, expandComponents: bool): seq<StructModel>
    decreases Size(part.members), 1, 0
  {
    [StructModel(part.at, StructFields(part.members, expandComponents, 0))] + EntryStructs(part, expandComponents, 0)
  }

  function EntryStructs(part: Part, expandComponents: bool, i: nat): seq<StructModel>
    requires i <= |part.members|
    decreases Size(part.members), 0, |part.members| - i
  {
    if i == |part.members| then []
    else
      (if part.members[i].GroupRef? && Kept(part.members, i, expandComponents) then
         SizeOfMember(part.members, i);
         StructsOf(Part(GroupAddress(part, i), part.members[i].def.members), expandComponents)
       else [])
      + EntryStructs(part, expandComponents, i + 1)
  }

  // ----- every group entry has its struct -----

  /** The members of the entry the steps lead to, each into a group listed first under its count tag. */
  function EntryAt(ms: seq<Member>, steps: seq<nat>): Option<seq<Member>>
    decreases |steps|
  {
    if steps == [] then Some(ms)
    else if steps[0] < |ms| && ms[steps[0]].GroupRef? && ListedFirst(ms, steps[0]) then EntryAt(ms[steps[0]].def.members, steps[1..])
    else None
  }

  /** The struct stands for the entry the steps lead to. */
  ghost predicate StructOf(struct: StructModel, part: Part, expandComponents: bool, steps: seq<nat>) {
    && struct.at == Address(part.at.owner, part.at.path + steps) && EntryAt(part.members, steps).Some?
    && exists from :: FieldsOf(struct.fields, EntryAt(part.members, steps).value, expandComponents, from)
  }

  lemma OwnStruct(part: Part, expandComponents: bool)
    ensures StructOf(StructsOf(part, expandComponents)[0], part, expandComponents, [])
  {
    var from := FieldsFrom(part.members, expandComponents, 0);
    assert FieldsOf(StructFields(part.members, expandComponents, 0), part.members, expandComponents, from);
    assert part.at.path + [] == part.at.path;
  }

  lemma EntryStructOf(struct: StructModel, part: Part, expandComponents: bool, i: nat, steps: seq<nat>)
    requires i < |part.members| && part.members[i].GroupRef? && ListedFirst(part.members, i)
    ensures StructOf(struct, Part(GroupAddress(part, i), part.members[i].def.members), expandComponents, steps)
            <==> StructOf(struct, part, expandComponents, [i] + steps)
  {
    assert ([i] + steps)[1..] == steps;
    assert EntryAt(part.members, [i] + steps) == EntryAt(part.members[i].def.members, steps);
    Regroup(part.at.path, [i], steps);
    var inner := Part(GroupAddress(part, i), part.members[i].def.members);
    assert inner.at.path + steps == part.at.path + ([i] + steps);
  }

  /** Each struct of a definition stands for the definition itself, or for an entry of it. */
  lemma {:induction false} StructStandsFor(part: Part, expandComponents: bool, k: nat) returns (steps: seq<nat>)
    requires k < |StructsOf(part, expandComponents)|
    ensures StructOf(StructsOf(part, expandComponents)[k], part, expandComponents, steps)
    decreases Size(part.members), 1, 0
  {
    if k == 0 {
      steps := [];
      OwnStruct(part, expandComponents);
    } else {
      steps := EntryStructStandsFor(part, expandComponents, 0, k - 1);
      assert StructsOf(part, expandComponents)[k] == EntryStructs(part, expandComponents, 0)[k - 1];
    }
  }

  lemma {:induction false} EntryStructStandsFor(part: Part, expandComponents: bool, i: nat, k: nat) returns (steps: seq<nat>)
    requires i <= |part.members| && k < |EntryStructs(part, expandComponents, i)|
    ensures StructOf(EntryStructs(part, expandComponents, i)[k], part, expandComponents, steps)
    decreases Size(part.members), 0, |part.members| - i
  {
    var all, rest := EntryStructs(part, expandComponents, i), EntryStructs(part, expandComponents, i + 1);
    if part.members[i].GroupRef? && Kept(part.members, i, expandComponents) {
      SizeOfMember(part.members, i);
      var inner := Part(GroupAddress(part, i), part.members[i].def.members);
      var here := StructsOf(inner, expandComponents);
      assert all == here + rest;
      if k < |here| {
        var below := StructStandsFor(inner, expandComponents, k);
        InnerStructOf(here[k], part, expandComponents, i, below);
        assert all[k] == here[k];
        steps := [i] + below;
      } else {
        steps := EntryStructStandsFor(part, expandComponents, i + 1, k - |here|);
        assert all[k] == rest[k - |here|];
      }
    } else {
      assert all == [] + rest && [] + rest == rest;
      steps := EntryStructStandsFor(part, expandComponents, i + 1, k);
    }
  }

  lemma InnerStructOf(struct: StructModel, part: Part, expandComponents: bool, i: nat, steps: seq<nat>)
    requires i < |part.members| && part.members[i].GroupRef? && Kept(part.members, i, expandComponents)
    requires StructOf(struct, Part(GroupAddress(part, i), part.members[i].def.members), expandComponents, steps)
    ensures StructOf(struct, part, expandComponents, [i] + steps)
  {
    KeptIsListedFirst(part.members, i, expandComponents);
    EntryStructOf(struct, part, expandComponents, i, steps);
  }

  /** Each entry of a definition, at any depth, has a struct. */
  lemma {:induction false} EntryHasStruct(part: Part, expandComponents: bool, steps: seq<nat>) returns (k: nat)
    requires EntryAt(part.members, steps).Some?
    ensures k < |StructsOf(part, expandComponents)| && StructOf(StructsOf(part, expandComponents)[k], part, expandComponents, steps)
    decreases |steps|, |part.members| + 1
  {
    if steps == [] {
      k := 0;
      OwnStruct(part, expandComponents);
    } else {
      var below := EntryHasStructFrom(part, expandComponents, steps, 0);
      k := below + 1;
    }
  }

  lemma {:induction false} EntryHasStructFrom(part: Part, expandComponents: bool, steps: seq<nat>, i: nat) returns (k: nat)
    requires EntryAt(part.members, steps).Some? && steps != [] && i <= steps[0]
    ensures k < |EntryStructs(part, expandComponents, i)| && StructOf(EntryStructs(part, expandComponents, i)[k], part, expandComponents, steps)
    decreases |steps|, |part.members| - i
  {
    KeptIsListedFirst(part.members, i, expandComponents);
    if i < steps[0] {
      k := EntryHasStructFrom(part, expandComponents, steps, i + 1);
      if part.members[i].GroupRef? && Kept(part.members, i, expandComponents) {
        SizeOfMember(part.members, i);
        k := |StructsOf(Part(GroupAddress(part, i), part.members[i].def.members), expandComponents)| + k;
      }
    } else {
      SizeOfMember(part.members, i);
      var inner := Part(GroupAddress(part, i), part.members[i].def.members);
      k := EntryHasStruct(inner, expandComponents, steps[1..]);
      EntryStructOf(StructsOf(inner, expandComponents)[k], part, expandComponents, i, steps[1..]);
      assert [i] + steps[1..] == steps;
    }
  }

  /** The owners of the structs that stand for whole definitions, in order. */
  function Roots(structs: seq<StructModel>): seq<Owner> {
    if structs == [] then []
    else (if structs[0].at.path == [] then [structs[0].at.owner] else []) + Roots(structs[1..])
  }

  lemma RootsConcat(a: seq<StructModel>, b: seq<StructModel>)
    ensures Roots(a + b) == Roots(a) + Roots(b)
  {
    if a == [] {
      assert a + b == b;
    } else {
      assert (a + b)[0] == a[0] && (a + b)[1..] == a[1..] + b;
      RootsConcat(a[1..], b);
    }
  }

  lemma {:induction false} EntriesAreNoRoots(part: Part, expandComponents: bool, i: nat)
    requires i <= |part.members|
    ensures Roots(EntryStructs(part, expandComponents, i)) == []
    decreases Size(part.members), 0, |part.members| - i
  {
    if i < |part.members| {
      EntriesAreNoRoots(part, expandComponents, i + 1);
      if part.members[i].GroupRef? && Kept(part.members, i, expandComponents) {
        SizeOfMember(part.members, i);
        var inner := Part(GroupAddress(part, i), part.members[i].def.members);
        OneRoot(inner, expandComponents);
        RootsConcat(StructsOf(inner, expandComponents), EntryStructs(part, expandComponents, i + 1));
      } else {
        assert [] + EntryStructs(part, expandComponents, i + 1) == EntryStructs(part, expandComponents, i + 1);
      }
    }
  }

  /** A definition gives one struct of its own. */
  lemma {:induction false} OneRoot(part: Part, expandComponents: bool)
    ensures Roots(StructsOf(part, expandComponents)) == if part.at.path == [] then [part.at.owner] else []
    decreases Size(part.members), 1, 0
  {
    EntriesAreNoRoots(part, expandComponents, 0);
    var first := StructModel(part.at, StructFields(part.members, expandComponents, 0));
    assert ([first] + EntryStructs(part, expandComponents, 0))[1..] == EntryStructs(part, expandComponents, 0);
  }

  // ----- the second pass -----

  class StructBuilder {
    const dict: Dictionary
    const expandComponents: bool
    /** The components that have a type. */
    const types: set<Name>
    var model: seq<StructModel>

    constructor (d: Dictionary, expand: bool, reached: seq<Name>)
      ensures dict == d && expandComponents == expand && types == NameSet(reached) && model == []
    {
      dict, expandComponents, types, model := d, expand, NameSet(reached), [];
    }

    /** The fields of one struct, each member once. */
    method BuildFields(ms: seq<Member>) returns (error: Option<GeneratorError>, fields: seq<StructField>, kept: seq<nat>)
      requires expandComponents ==> Covers(ms, types)
      ensures error.None? ==> fields == StructFields(ms, expandComponents, 0)
      ensures error.None? ==> exists from :: FieldsOf(fields, ms, expandComponents, from)
      ensures error.None? <==> forall i :: 0 <= i < |ms| && ms[i].FieldRef? ==> ms[i].tag in dict.fields
      ensures error.Some? ==> exists i :: 0 <= i < |ms| && ms[i].FieldRef? && ms[i].tag !in dict.fields && error.value == UnknownField(ms[i].tag)
                                          && forall j :: 0 <= j < i && ms[j].FieldRef? ==> ms[j].tag in dict.fields
      ensures error.None? ==> kept == KeptGroups(ms, expandComponents, 0)
      ensures error.Some? ==> error.value.UnknownField? && error.value.tag !in dict.fields
    {
      var seenTags: set<Tag>, seenGroups: set<Tag>, seenNames: set<Name> := {}, {}, {};
      fields, kept := [], [];
      for i := 0 to |ms|
        invariant Built(ms, i, seenTags, seenGroups, seenNames, expandComponents, fields, kept)
        invariant forall j :: 0 <= j < i && ms[j].FieldRef? ==> ms[j].tag in dict.fields
      {
        BuiltNext(ms, i, seenTags, seenGroups, seenNames, expandComponents, fields, kept);
        match ms[i] {
          case FieldRef(tag, _) =>
            if tag !in seenTags {
              seenTags := seenTags + {tag};
              if tag !in dict.fields {
                return Some(UnknownField(tag)), fields, kept;
              }
              fields := fields + [FieldOf(ms[i])];
            }
          case GroupRef(def) =>
            if def.countTag !in seenGroups {
              seenGroups := seenGroups + {def.countTag};
              fields := fields + [FieldOf(ms[i])];
              kept := kept + [i];
            }
          case ComponentRef(name, _) =>
            assert expandComponents ==> CoversMember(ms[i], types);
            if expandComponents && name !in seenNames {
              seenNames := seenNames + {name};
              if name !in types {
                assert false;
                return Some(UnknownComponent(name)), fields, kept;
              }
              fields := fields + [FieldOf(ms[i])];
            }
        }
      }
      assert fields + [] == fields && kept + [] == kept;
      ghost var from := FieldsFrom(ms, expandComponents, 0);
      assert FieldsOf(fields, ms, expandComponents, from);
      return None, fields, kept;
    }

    /** Emits the structs of the reached components, in order. */
    method BuildComponents(reached: seq<Name>) returns (error: Option<GeneratorError>)
      requires types == NameSet(reached) && Closed(dict, types)
      modifies this`model
      ensures forall c :: c in reached ==> c in dict.components
      ensures error.None? ==> model == old(model) + AllStructs(Definitions(dict, [], reached), expandComponents)
      ensures error.Some? ==> error.value.UnknownField? && error.value.tag !in dict.fields
    {
      ReachedAreDefined(dict, reached);
      ghost var total := model + AllStructs(Definitions(dict, [], reached), expandComponents);
      assert reached[0..] == reached;
      for n := 0 to |reached|
        invariant model + AllStructs(Definitions(dict, [], reached[n..]), expandComponents) == total
      {
        DefinitionsStepComponent(dict, reached, n);
        StructsStep(model, ComponentPart(dict, reached[n]), Definitions(dict, [], reached[n + 1..]), expandComponents);
        assert reached[n] in types;
        error := BuildOwner(ComponentPart(dict, reached[n]), 0);
        if error.Some? {
          return;
        }
      }
      assert reached[|reached|..] == [] && model + [] == model;
      return None;
    }

    /** Emits the struct of a definition, then the entry struct of each group it declares. */
    method BuildOwner(part: Part, depth: nat) returns (error: Option<GeneratorError>)
      requires depth <= MAX_NESTING_DEPTH && Nests(part.members, MAX_NESTING_DEPTH - depth)
      requires expandComponents ==> Covers(part.members, types)
      modifies this`model
      ensures error.None? ==> model == old(model) + StructsOf(part, expandComponents)
      ensures error.Some? ==> error.value.UnknownField? && error.value.tag !in dict.fields
      decreases Room(depth), 1
    {
      if depth > MAX_NESTING_DEPTH {
        assert false;
        return Some(MaxDepthExceeded);
      }
      var fields, kept;
      error, fields, kept := BuildFields(part.members);
      if error.Some? {
        return;
      }
      ghost var first := [StructModel(part.at, fields)];
      model := model + [StructModel(part.at, fields)];
      GroupStructsAre(part, expandComponents, 0);
      error := BuildEntries(part, kept, depth);
      if error.None? {
        Regroup(old(model), first, EntryStructs(part, expandComponents, 0));
      }
    }

    method BuildEntries(part: Part, kept: seq<nat>, depth: nat) returns (error: Option<GeneratorError>)
      requires depth <= MAX_NESTING_DEPTH && Nests(part.members, MAX_NESTING_DEPTH - depth)
      requires expandComponents ==> Covers(part.members, types)
      requires forall k :: 0 <= k < |kept| ==> kept[k] < |part.members| && part.members[kept[k]].GroupRef?
      modifies this`model
      ensures error.None? ==> model == old(model) + GroupStructs(part, expandComponents, kept)
      ensures error.Some? ==> error.value.UnknownField? && error.value.tag !in dict.fields
      decreases Room(depth), 0
    {
      ghost var total := model + GroupStructs(part, expandComponents, kept);
      for k := 0 to |kept|
        invariant model + GroupStructs(part, expandComponents, kept[k..]) == total
      {
        var i := kept[k];
        NextStructs(part, expandComponents, kept, k, model);
        if expandComponents {
          assert CoversMember(part.members[i], types) && CoversGroup(part.members[i].def, types);
        }
        error := BuildOwner(Part(GroupAddress(part, i), part.members[i].def.members), depth + 1);
        if error.Some? {
          return;
        }
      }
      assert model + [] == model;
      error := None;
    }
  }

  lemma NextStructs(part: Part, expandComponents: bool, kept: seq<nat>, k: nat, before: seq<StructModel>)
    requires forall n :: 0 <= n < |kept| ==> kept[n] < |part.members| && part.members[kept[n]].GroupRef?
    requires k < |kept|
    ensures before + GroupStructs(part, expandComponents, kept[k..])
            == before + StructsOf(Part(GroupAddress(part, kept[k]), part.members[kept[k]].def.members), expandComponents)
               + GroupStructs(part, expandComponents, kept[k + 1..])
  {
    assert kept[k..][0] == kept[k] && kept[k..][1..] == kept[k + 1..];
    var first := StructsOf(Part(GroupAddress(part, kept[k]), part.members[kept[k]].def.members), expandComponents);
    var rest := GroupStructs(part, expandComponents, kept[k + 1..]);
    Regroup(before, first, rest);
  }

  /** The positions of the groups kept, from position `i` on. */
  function KeptGroups(ms: seq<Member>, expandComponents: bool, i: nat): (kept: seq<nat>)
    requires i <= |ms|
    decreases |ms| - i
  {
    if i == |ms| then []
    else (if ms[i].GroupRef? && Kept(ms, i, expandComponents) then [i] else []) + KeptGroups(ms, expandComponents, i + 1)
  }

  lemma KeptIn(ms: seq<Member>, expandComponents: bool, i: nat)
    requires i <= |ms|
    ensures forall k :: 0 <= k < |KeptGroups(ms, expandComponents, i)| ==>
              KeptGroups(ms, expandComponents, i)[k] < |ms| && ms[KeptGroups(ms, expandComponents, i)[k]].GroupRef?
    decreases |ms| - i
  {
    if i < |ms| {
      KeptIn(ms, expandComponents, i + 1);
    }
  }

  function GroupStructs(part: Part, expandComponents: bool, kept: seq<nat>): seq<StructModel>
    requires forall k :: 0 <= k < |kept| ==> kept[k] < |part.members| && part.members[kept[k]].GroupRef?
  {
    if kept == [] then []
    else StructsOf(Part(GroupAddress(part, kept[0]), part.members[kept[0]].def.members), expandComponents)
         + GroupStructs(part, expandComponents, kept[1..])
  }

  lemma GroupStructsAre(part: Part, expandComponents: bool, i: nat)
    requires i <= |part.members|
    ensures forall k :: 0 <= k < |KeptGroups(part.members, expandComponents, i)| ==>
              KeptGroups(part.members, expandComponents, i)[k] < |part.members|
              && part.members[KeptGroups(part.members, expandComponents, i)[k]].GroupRef?
    ensures GroupStructs(part, expandComponents, KeptGroups(part.members, expandComponents, i)) == EntryStructs(part, expandComponents, i)
    decreases |part.members| - i
  {
    KeptIn(part.members, expandComponents, i);
    if i < |part.members| {
      GroupStructsAre(part, expandComponents, i + 1);
      var rest := KeptGroups(part.members, expandComponents, i + 1);
      if part.members[i].GroupRef? && Kept(part.members, i, expandComponents) {
        assert ([i] + rest)[1..] == rest;
      } else {
        assert [] + rest == rest;
      }
    }
  }

  /** What has been listed so far. */
  ghost predicate Seen(ms: seq<Member>, i: nat, tags: set<Tag>, groups: set<Tag>, names: set<Name>, expandComponents: bool)
    requires i <= |ms|
  {
    && (forall t :: t in tags <==> exists j :: 0 <= j < i && ms[j].FieldRef? && ms[j].tag == t)
    && (forall t :: t in groups <==> exists j :: 0 <= j < i && ms[j].GroupRef? && ms[j].def.countTag == t)
    && (expandComponents ==> forall c :: c in names <==> exists j :: 0 <= j < i && ms[j].ComponentRef? && ms[j].name == c)
  }

  lemma ReachedAreDefined(d: Dictionary, reached: seq<Name>)
    requires Closed(d, NameSet(reached))
    ensures forall c :: c in reached ==> c in d.components && c in NameSet(reached)
  {
    forall c | c in reached ensures c in NameSet(reached) {
    }
  }

  lemma SeenIsKept(ms: seq<Member>, i: nat, tags: set<Tag>, groups: set<Tag>, names: set<Name>, expandComponents: bool)
    requires i < |ms| && Seen(ms, i, tags, groups, names, expandComponents)
    ensures Kept(ms, i, expandComponents) <==>
              match ms[i]
              case FieldRef(tag, _) => tag !in tags
              case GroupRef(def) => def.countTag !in groups
              case ComponentRef(name, _) => expandComponents && name !in names
  {
  }

  lemma NextField(ms: seq<Member>, i: nat, expandComponents: bool, fields: seq<StructField>, kept: seq<nat>)
    requires i < |ms|
    ensures fields + StructFields(ms, expandComponents, i)
            == (if Kept(ms, i, expandComponents) then fields + [FieldOf(ms[i])] else fields) + StructFields(ms, expandComponents, i + 1)
    ensures kept + KeptGroups(ms, expandComponents, i)
            == (if ms[i].GroupRef? && Kept(ms, i, expandComponents) then kept + [i] else kept) + KeptGroups(ms, expandComponents, i + 1)
  {
    if Kept(ms, i, expandComponents) {
      Regroup(fields, [FieldOf(ms[i])], StructFields(ms, expandComponents, i + 1));
      Regroup(kept, [i], KeptGroups(ms, expandComponents, i + 1));
    } else {
      assert [] + StructFields(ms, expandComponents, i + 1) == StructFields(ms, expandComponents, i + 1);
    }
    assert [] + KeptGroups(ms, expandComponents, i + 1) == KeptGroups(ms, expandComponents, i + 1);
  }

  /** What the struct builder holds after `i` members. */
  ghost predicate Built(ms: seq<Member>, i: nat, tags: set<Tag>, groups: set<Tag>, names: set<Name>, expandComponents: bool,
                        fields: seq<StructField>, kept: seq<nat>)
    requires i <= |ms|
  {
    && Seen(ms, i, tags, groups, names, expandComponents)
    && fields + StructFields(ms, expandComponents, i) == StructFields(ms, expandComponents, 0)
    && kept + KeptGroups(ms, expandComponents, i) == KeptGroups(ms, expandComponents, 0)
  }

  /** One more member is taken unless it has been seen. */
  lemma BuiltNext(ms: seq<Member>, i: nat, tags: set<Tag>, groups: set<Tag>, names: set<Name>, expandComponents: bool,
                  fields: seq<StructField>, kept: seq<nat>)
    requires i < |ms| && Built(ms, i, tags, groups, names, expandComponents, fields, kept)
    ensures match ms[i]
            case FieldRef(tag, _) =>
              if tag in tags then Built(ms, i + 1, tags, groups, names, expandComponents, fields, kept)
              else Built(ms, i + 1, tags + {tag}, groups, names, expandComponents, fields + [FieldOf(ms[i])], kept)
            case GroupRef(def) =>
              if def.countTag in groups then Built(ms, i + 1, tags, groups, names, expandComponents, fields, kept)
              else Built(ms, i + 1, tags, groups + {def.countTag}, names, expandComponents, fields + [FieldOf(ms[i])], kept + [i])
            case ComponentRef(name, _) =>
              if !expandComponents || name in names then Built(ms, i + 1, tags, groups, names, expandComponents, fields, kept)
              else Built(ms, i + 1, tags, groups, names + {name}, expandComponents, fields + [FieldOf(ms[i])], kept)
  {
    SeenIsKept(ms, i, tags, groups, names, expandComponents);
    NextField(ms, i, expandComponents, fields, kept);
    match ms[i]
    case FieldRef(_, _) =>
    case GroupRef(_) =>
    case ComponentRef(_, _) =>
  }

  // ----- the whole build -----

  ghost predicate FromMessages(d: Dictionary, messages: seq<Name>, n: nat, name: Name)
    requires n <= |messages| && forall m :: m in messages ==> m in d.messages
  {
    exists m :: 0 <= m < n && Reachable(d, d.messages[messages[m]], name)
  }

  /** The names the second pass relies on. */
  ghost predicate Prepared(d: Dictionary, messages: seq<Name>, expandComponents: bool, reached: seq<Name>)
    requires forall m :: m in messages ==> m in d.messages
  {
    && Distinct(reached) && Closed(d, NameSet(reached))
    && forall m :: 0 <= m < |messages| ==>
         Nests(d.messages[messages[m]], MAX_NESTING_DEPTH)
         && (expandComponents ==> Covers(d.messages[messages[m]], NameSet(reached)))
  }

  /** What the first pass has established after `n` messages. */
  ghost predicate Passed(d: Dictionary, messages: seq<Name>, expandComponents: bool, n: nat, reached: seq<Name>)
    requires n <= |messages| && forall m :: m in messages ==> m in d.messages
  {
    && (forall m :: 0 <= m < n ==>
          Nests(d.messages[messages[m]], MAX_NESTING_DEPTH)
          && (expandComponents ==> Covers(d.messages[messages[m]], NameSet(reached))))
    && (forall c :: c in reached ==> FromMessages(d, messages, n, c))
    && (!expandComponents ==> reached == [])
  }

  lemma NamesSpread(before: seq<Name>, reached: seq<Name>)
    requires before <= reached
    ensures NameSet(before) <= NameSet(reached)
  {
    assert forall i :: 0 <= i < |before| ==> reached[i] == before[i];
  }

  lemma PassedNext(d: Dictionary, messages: seq<Name>, expandComponents: bool, n: nat, before: seq<Name>, reached: seq<Name>)
    requires forall m :: m in messages ==> m in d.messages
    requires n < |messages| && Passed(d, messages, expandComponents, n, before)
    requires Collects(d, d.messages[messages[n]], before, reached, []) && Nests(d.messages[messages[n]], MAX_NESTING_DEPTH)
    requires if expandComponents then Covers(d.messages[messages[n]], NameSet(reached)) else reached == before
    ensures Passed(d, messages, expandComponents, n + 1, reached)
  {
    if expandComponents {
      NamesSpread(before, reached);
      forall m | 0 <= m < n ensures Covers(d.messages[messages[m]], NameSet(reached)) {
        CoversIsMonotone(d.messages[messages[m]], NameSet(before), NameSet(reached));
      }
    }
    forall c | c in reached ensures FromMessages(d, messages, n + 1, c) {
      CollectedFromMessages(d, messages, n, before, reached, c);
    }
  }

  lemma CollectedFromMessages(d: Dictionary, messages: seq<Name>, n: nat, before: seq<Name>, reached: seq<Name>, c: Name)
    requires forall m :: m in messages ==> m in d.messages
    requires n < |messages| && (forall b :: b in before ==> FromMessages(d, messages, n, b)) && c in reached
    requires Collects(d, d.messages[messages[n]], before, reached, [])
    ensures FromMessages(d, messages, n + 1, c)
  {
    var i :| 0 <= i < |reached| && reached[i] == c;
    if i < |before| {
      assert reached[i] == before[i] && before[i] in before;
      var m :| 0 <= m < n && Reachable(d, d.messages[messages[m]], c);
    } else {
      assert Reachable(d, d.messages[messages[n]], c);
    }
  }

  /** The error is a fault reached from some message. */
  ghost predicate Blamed(d: Dictionary, messages: seq<Name>, error: GeneratorError)
    requires forall m :: m in messages ==> m in d.messages
  {
    exists n :: 0 <= n < |messages| && Justified(d, d.messages[messages[n]], error)
  }

  method ReachMessage(d: Dictionary, expandComponents: bool, messages: seq<Name>, n: nat, before: seq<Name>)
    returns (error: Option<GeneratorError>, reached: seq<Name>)
    requires forall m :: m in messages ==> m in d.messages
    requires n < |messages| && Distinct(before) && Closed(d, NameSet(before)) && Passed(d, messages, expandComponents, n, before)
    ensures error.None? ==>
              Distinct(reached) && Closed(d, NameSet(reached)) && Passed(d, messages, expandComponents, n + 1, reached)
    ensures error.Some? ==> Blamed(d, messages, error.value)
  {
    var ms := d.messages[messages[n]];
    assert Follow(d, ms, []) == Some(ms);
    error, reached := Reach(d, expandComponents, ms, 0, [], before, ms, []);
    if error.None? {
      PassedNext(d, messages, expandComponents, n, before, reached);
    }
  }

  method FirstPass(d: Dictionary, expandComponents: bool, messages: seq<Name>)
    returns (error: Option<GeneratorError>, reached: seq<Name>)
    requires forall m :: m in messages ==> m in d.messages
    ensures error.None? ==> Prepared(d, messages, expandComponents, reached)
    ensures error.None? && expandComponents ==> forall c :: c in reached <==> FromMessages(d, messages, |messages|, c)
    ensures error.None? && !expandComponents ==> reached == []
    ensures error.Some? ==> Blamed(d, messages, error.value)
  {
    reached := [];
    for n := 0 to |messages|
      invariant Distinct(reached) && Closed(d, NameSet(reached)) && Passed(d, messages, expandComponents, n, reached)
    {
      error, reached := ReachMessage(d, expandComponents, messages, n, reached);
      if error.Some? {
        return;
      }
    }
    error := None;
    if expandComponents {
      AllCollected(d, messages, reached);
    }
  }

  lemma AllCollected(d: Dictionary, messages: seq<Name>, reached: seq<Name>)
    requires forall m :: m in messages ==> m in d.messages
    requires Closed(d, NameSet(reached)) && Passed(d, messages, true, |messages|, reached)
    ensures forall c :: c in reached <==> FromMessages(d, messages, |messages|, c)
  {
    forall c | FromMessages(d, messages, |messages|, c) ensures c in reached {
      var m :| 0 <= m < |messages| && Reachable(d, d.messages[messages[m]], c);
      ReachableIsCollected(d, d.messages[messages[m]], NameSet(reached), c);
    }
  }

  lemma ReachableIsCollected(d: Dictionary, ms: seq<Member>, names: set<Name>, c: Name)
    requires Closed(d, names) && Covers(ms, names) && Reachable(d, ms, c)
    ensures c in names
  {
    var steps :| Follow(d, ms, steps).Some? && Lists(Follow(d, ms, steps).value, c);
    ClosedHoldsReachable(d, ms, names, steps);
    var end := Follow(d, ms, steps).value;
    var i :| 0 <= i < |end| && end[i].ComponentRef? && end[i].name == c;
    assert CoversMember(end[i], names);
  }

  function MessagePart(d: Dictionary, name: Name): Part
    requires name in d.messages
  {
    Part(Address(Body(name), []), d.messages[name])
  }

  /** Owners of the definitions: the messages, then the components. */
  function Owners(messages: seq<Name>, components: seq<Name>): seq<Owner> {
    if messages != [] then [Body(messages[0])] + Owners(messages[1..], components)
    else if components != [] then [Component(components[0])] + Owners([], components[1..])
    else []
  }

  /** The parts of the definitions: the messages, then the components. */
  function Definitions(d: Dictionary, messages: seq<Name>, components: seq<Name>): seq<Part>
    requires (forall m :: m in messages ==> m in d.messages) && forall c :: c in components ==> c in d.components
  {
    if messages != [] then [MessagePart(d, messages[0])] + Definitions(d, messages[1..], components)
    else if components != [] then [ComponentPart(d, components[0])] + Definitions(d, [], components[1..])
    else []
  }

  function AllStructs(parts: seq<Part>, expandComponents: bool): seq<StructModel> {
    if parts == [] then [] else StructsOf(parts[0], expandComponents) + AllStructs(parts[1..], expandComponents)
  }

  lemma DefinitionRoots(d: Dictionary, messages: seq<Name>, components: seq<Name>, expandComponents: bool)
    requires (forall m :: m in messages ==> m in d.messages) && forall c :: c in components ==> c in d.components
    ensures Roots(AllStructs(Definitions(d, messages, components), expandComponents)) == Owners(messages, components)
  {
    if messages != [] {
      var part, rest := MessagePart(d, messages[0]), Definitions(d, messages[1..], components);
      DefinitionRoots(d, messages[1..], components, expandComponents);
      assert ([part] + rest)[1..] == rest;
      OneRoot(part, expandComponents);
      RootsConcat(StructsOf(part, expandComponents), AllStructs(rest, expandComponents));
    } else if components != [] {
      var part, rest := ComponentPart(d, components[0]), Definitions(d, [], components[1..]);
      DefinitionRoots(d, [], components[1..], expandComponents);
      assert ([part] + rest)[1..] == rest;
      OneRoot(part, expandComponents);
      RootsConcat(StructsOf(part, expandComponents), AllStructs(rest, expandComponents));
    }
  }

  lemma DefinitionsStepMessage(d: Dictionary, messages: seq<Name>, components: seq<Name>, n: nat)
    requires (forall m :: m in messages ==> m in d.messages) && (forall c :: c in components ==> c in d.components) && n < |messages|
    ensures Definitions(d, messages[n..], components) == [MessagePart(d, messages[n])] + Definitions(d, messages[n + 1..], components)
  {
    assert messages[n..][0] == messages[n] && messages[n..][1..] == messages[n + 1..];
  }

  lemma DefinitionsStepComponent(d: Dictionary, components: seq<Name>, n: nat)
    requires (forall c :: c in components ==> c in d.components) && n < |components|
    ensures Definitions(d, [], components[n..]) == [ComponentPart(d, components[n])] + Definitions(d, [], components[n + 1..])
  {
    assert components[n..][0] == components[n] && components[n..][1..] == components[n + 1..];
  }

  lemma StructsStep(before: seq<StructModel>, part: Part, rest: seq<Part>, expandComponents: bool)
    ensures before + AllStructs([part] + rest, expandComponents)
            == before + StructsOf(part, expandComponents) + AllStructs(rest, expandComponents)
  {
    assert ([part] + rest)[1..] == rest;
    Regroup(before, StructsOf(part, expandComponents), AllStructs(rest, expandComponents));
  }

  /** Emits every message and every reached component; the names the first pass collected are all it needs. */
  method SecondPass(d: Dictionary, expandComponents: bool, messages: seq<Name>, reached: seq<Name>)
    returns (error: Option<GeneratorError>, structs: seq<StructModel>)
    requires forall m :: m in messages ==> m in d.messages
    requires Prepared(d, messages, expandComponents, reached)
    ensures forall c :: c in reached ==> c in d.components
    ensures error.Some? ==> error.value.UnknownField? && error.value.tag !in d.fields
    ensures error.None? ==> structs == AllStructs(Definitions(d, messages, reached), expandComponents)
    ensures error.None? ==> Roots(structs) == Owners(messages, reached)
  {
    assert forall c :: c in reached ==> c in NameSet(reached);
    var builder := new StructBuilder(d, expandComponents, reached);
    structs := [];
    ghost var total := AllStructs(Definitions(d, messages, reached), expandComponents);
    assert messages[0..] == messages && reached[0..] == reached && [] + total == total;
    for n := 0 to |messages|
      invariant builder.types == NameSet(reached) && builder.dict == d && builder.expandComponents == expandComponents
      invariant builder.model + AllStructs(Definitions(d, messages[n..], reached), expandComponents) == total
    {
      DefinitionsStepMessage(d, messages, reached, n);
      StructsStep(builder.model, MessagePart(d, messages[n]), Definitions(d, messages[n + 1..], reached), expandComponents);
      error := builder.BuildOwner(MessagePart(d, messages[n]), 0);
      if error.Some? {
        return;
      }
    }
    assert messages[|messages|..] == [];
    error := builder.BuildComponents(reached);
    if error.Some? {
      return;
    }
    DefinitionRoots(d, messages, reached, expandComponents);
    return None, builder.model;
  }

  /**
   Builds every struct: with components expanded, one for each message, and one for each component
   some message reaches, no more.
   */
  method Build(d: Dictionary, expandComponents: bool, messages: seq<Name>)
    returns (error: Option<GeneratorError>, structs: seq<StructModel>, ghost reached: seq<Name>)
    requires forall m :: m in messages ==> m in d.messages
    ensures error.None? ==> Distinct(reached) && Roots(structs) == Owners(messages, reached)
    ensures error.None? ==> (forall c :: c in reached ==> c in d.components)
                            && structs == AllStructs(Definitions(d, messages, reached), expandComponents)
    ensures error.None? && expandComponents ==> forall c :: c in reached <==> FromMessages(d, messages, |messages|, c)
    ensures error.None? && !expandComponents ==> reached == []
    ensures error.Some? ==> error.value.UnknownField? || Blamed(d, messages, error.value)
  {
    var components;
    error, components := FirstPass(d, expandComponents, messages);
    reached, structs := components, [];
    if error.None? {
      error, structs := SecondPass(d, expandComponents, messages, components);
    }
  }
}
