/**
 What the generators' errors are about: the dictionary as a graph of references through groups and
 components, and faults met on a chain of them.
 */
module References {
  import opened Wire
  import opened Schema
  import Levels

  const MAX_NESTING_DEPTH: nat := 32

  datatype GeneratorError =
    | MaxDepthExceeded
    | UnknownField(tag: Tag)
    | UnpairedDataField(tag: Tag)
    | ComponentCycle(name: Name)
    | UnknownComponent(name: Name)

  /** How far below the depth limit an expansion is. */
  function Room(depth: nat): nat {
    if depth <= MAX_NESTING_DEPTH then MAX_NESTING_DEPTH + 1 - depth else 0
  }

  /** Where a chain of steps leads, each entering the group or component listed at that position. */
  function Follow(d: Dictionary, ms: seq<Member>, steps: seq<nat>): Option<seq<Member>>
    decreases |steps|
  {
    if steps == [] then Some(ms)
    else if steps[0] >= |ms| then None
    else match ms[steps[0]]
      case FieldRef(_, _) => None
      case GroupRef(def) => Follow(d, def.members, steps[1..])
      case ComponentRef(name, _) => if name in d.components then Follow(d, d.components[name], steps[1..]) else None
  }

  ghost predicate Lists(ms: seq<Member>, name: Name) {
    exists i :: 0 <= i < |ms| && ms[i].ComponentRef? && ms[i].name == name
  }

  /** Some chain of groups and components from `ms` ends where the component is listed. */
  ghost predicate Reachable(d: Dictionary, ms: seq<Member>, name: Name) {
    exists steps :: Follow(d, ms, steps).Some? && Lists(Follow(d, ms, steps).value, name)
  }

  lemma {:induction false} FollowJoins(d: Dictionary, ms: seq<Member>, a: seq<nat>, b: seq<nat>)
    requires Follow(d, ms, a).Some?
    ensures Follow(d, ms, a + b) == Follow(d, Follow(d, ms, a).value, b)
    decreases |a|
  {
    if a == [] {
      assert a + b == b;
    } else {
      assert (a + b)[0] == a[0] && (a + b)[1..] == a[1..] + b;
      match ms[a[0]]
      case GroupRef(def) => FollowJoins(d, def.members, a[1..], b);
      case ComponentRef(name, _) => FollowJoins(d, d.components[name], a[1..], b);
    }
  }

  /** What is reached from a group or component listed here is reached from here. */
  lemma ReachesFurther(d: Dictionary, ms: seq<Member>, i: nat, inner: seq<Member>, name: Name)
    requires i < |ms| && Reachable(d, inner, name)
    requires (ms[i].GroupRef? && inner == ms[i].def.members)
             || (ms[i].ComponentRef? && ms[i].name in d.components && inner == d.components[ms[i].name])
    ensures Reachable(d, ms, name)
  {
    var steps :| Follow(d, inner, steps).Some? && Lists(Follow(d, inner, steps).value, name);
    assert ([i] + steps)[1..] == steps;
    assert Follow(d, ms, [i] + steps) == Follow(d, inner, steps);
  }

  predicate Enters(d: Dictionary, member: Member, inner: seq<Member>) {
    match member
    case FieldRef(_, _) => false
    case GroupRef(def) => inner == def.members
    case ComponentRef(name, _) => name in d.components && inner == d.components[name]
  }

  lemma StepFollows(d: Dictionary, root: seq<Member>, steps: seq<nat>, ms: seq<Member>, i: nat, inner: seq<Member>)
    requires Follow(d, root, steps) == Some(ms) && i < |ms| && Enters(d, ms[i], inner)
    ensures Follow(d, root, steps + [i]) == Some(inner)
  {
    FollowJoins(d, root, steps, [i]);
    assert [i][1..] == [];
  }

  lemma StackFollows(d: Dictionary, stack: seq<Name>, ms: seq<Member>, i: nat, inner: seq<Member>)
    requires OnStack(d, stack, ms) && i < |ms| && Enters(d, ms[i], inner)
    ensures OnStack(d, stack, inner)
  {
    forall c | c in stack ensures c in d.components && exists steps :: Follow(d, d.components[c], steps) == Some(inner) {
      var steps :| Follow(d, d.components[c], steps) == Some(ms);
      StepFollows(d, d.components[c], steps, ms, i, inner);
    }
  }

  /** Every component on the stack leads to `ms`. */
  ghost predicate OnStack(d: Dictionary, stack: seq<Name>, ms: seq<Member>) {
    forall c :: c in stack ==> c in d.components && exists steps :: Follow(d, d.components[c], steps) == Some(ms)
  }

  lemma ListedIsReached(d: Dictionary, root: seq<Member>, steps: seq<nat>, ms: seq<Member>, i: nat)
    requires Follow(d, root, steps) == Some(ms) && i < |ms| && ms[i].ComponentRef?
    ensures Reachable(d, root, ms[i].name)
  {
    assert Lists(Follow(d, root, steps).value, ms[i].name);
  }

  /** A component listed inside itself is reached from itself, and from wherever the stack was reached. */
  lemma CycleIsReal(d: Dictionary, stack: seq<Name>, root: seq<Member>, steps: seq<nat>, ms: seq<Member>, i: nat)
    requires OnStack(d, stack, ms) && Follow(d, root, steps) == Some(ms)
    requires i < |ms| && ms[i].ComponentRef? && ms[i].name in stack
    ensures Justified(d, root, ComponentCycle(ms[i].name))
  {
    var name := ms[i].name;
    var inner :| Follow(d, d.components[name], inner) == Some(ms);
    ListedIsReached(d, d.components[name], inner, ms, i);
    ListedIsReached(d, root, steps, ms, i);
  }

  lemma StackGrows(d: Dictionary, stack: seq<Name>, ms: seq<Member>, i: nat)
    requires OnStack(d, stack, ms) && i < |ms| && ms[i].ComponentRef? && ms[i].name in d.components
    ensures OnStack(d, stack + [ms[i].name], d.components[ms[i].name])
  {
    StackFollows(d, stack, ms, i, d.components[ms[i].name]);
    assert Follow(d, d.components[ms[i].name], []) == Some(d.components[ms[i].name]);
  }

  // ----- faults -----

  /** Some chain from `root` ends where the tag is a field's, or a group's delimiter. */
  ghost predicate Mentions(d: Dictionary, root: seq<Member>, tag: Tag) {
    exists steps :: Follow(d, root, steps).Some? && MentionedIn(Follow(d, root, steps).value, tag)
  }

  predicate MentionedIn(ms: seq<Member>, tag: Tag) {
    exists i :: 0 <= i < |ms| && ((ms[i].FieldRef? && ms[i].tag == tag) || (ms[i].GroupRef? && ms[i].def.delimiter == tag))
  }

  /** The error names a fault reached from `root`. */
  ghost predicate Justified(d: Dictionary, root: seq<Member>, error: GeneratorError) {
    match error
    case ComponentCycle(name) => name in d.components && Reachable(d, root, name) && Reachable(d, d.components[name], name)
    case UnknownComponent(name) => name !in d.components && Reachable(d, root, name)
    case MaxDepthExceeded => exists steps :: |steps| > MAX_NESTING_DEPTH && Follow(d, root, steps).Some?
    case UnknownField(tag) => tag !in d.fields && Mentions(d, root, tag)
    case UnpairedDataField(tag) => tag in d.fields && d.fields[tag].kind.Bytes? && Mentions(d, root, tag)
  }

  lemma MentionIsReached(d: Dictionary, root: seq<Member>, steps: seq<nat>, ms: seq<Member>, i: nat)
    requires Follow(d, root, steps) == Some(ms) && i < |ms|
    ensures ms[i].FieldRef? ==> Mentions(d, root, ms[i].tag)
    ensures ms[i].GroupRef? ==> Mentions(d, root, ms[i].def.delimiter)
  {
    assert ms[i].FieldRef? ==> MentionedIn(Follow(d, root, steps).value, ms[i].tag);
    assert ms[i].GroupRef? ==> MentionedIn(Follow(d, root, steps).value, ms[i].def.delimiter);
  }
}
