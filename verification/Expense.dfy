/** What expanding a definition for a layout takes: the nodes it visits, and the schema errors it meets on the way. */
module Expense {
  import opened Wire
  import opened Schema
  import GroupTree

  const MAX_SCOPE_DEPTH: nat := GroupTree.MAX_SCOPE_DEPTH
  /** Groups and components one expansion may visit. */
  const MAX_SCOPE_NODES: nat := 4096

  datatype SchemaError = SchemaTooDeep | SchemaTooLarge | UnknownComponent(name: Name)

  /** How far below the depth limit an expansion is: what makes it terminate on any dictionary. */
  function Room(depth: nat): nat {
    if depth <= MAX_SCOPE_DEPTH then MAX_SCOPE_DEPTH + 1 - depth else 0
  }

  /** Nodes visited, were there no limit on them, and the errors met. */
  datatype Cost = Cost(nodes: nat, faults: set<SchemaError>)

  const FREE: Cost := Cost(0, {})
  const ONE: Cost := Cost(1, {})

  function Sum(a: Cost, b: Cost): Cost {
    Cost(a.nodes + b.nodes, a.faults + b.faults)
  }

  lemma SumIsAssociative(a: Cost, b: Cost, c: Cost)
    ensures Sum(Sum(a, b), c) == Sum(a, Sum(b, c))
  {
  }

  function PartCost(d: Dictionary, ms: seq<Member>, path: set<Name>, depth: nat): Cost
    decreases Room(depth), 3
  {
    Sum(GroupsCost(d, ms, path, depth, 0), ComponentsCost(d, ms, path, depth, 0))
  }

  function GroupsCost(d: Dictionary, ms: seq<Member>, path: set<Name>, depth: nat, i: nat): Cost
    requires i <= |ms|
    decreases Room(depth), 2, |ms| - i
  {
    if i == |ms| then FREE else Sum(GroupCostAt(d, ms, path, depth, i), GroupsCost(d, ms, path, depth, i + 1))
  }

  function GroupCostAt(d: Dictionary, ms: seq<Member>, path: set<Name>, depth: nat, i: nat): Cost
    requires i < |ms|
    decreases Room(depth), 2, 0
  {
    if ms[i].GroupRef? then GroupCost(d, ms[i].def, path, depth) else FREE
  }

  function GroupCost(d: Dictionary, def: GroupDef, path: set<Name>, depth: nat): Cost
    decreases Room(depth), 1
  {
    if depth > MAX_SCOPE_DEPTH then Cost(0, {SchemaTooDeep}) else Sum(ONE, PartCost(d, def.members, path, depth + 1))
  }

  function ComponentsCost(d: Dictionary, ms: seq<Member>, path: set<Name>, depth: nat, i: nat): Cost
    requires i <= |ms|
    decreases Room(depth), 2, |ms| - i
  {
    if i == |ms| then FREE else Sum(ComponentCostAt(d, ms, path, depth, i), ComponentsCost(d, ms, path, depth, i + 1))
  }

  function ComponentCostAt(d: Dictionary, ms: seq<Member>, path: set<Name>, depth: nat, i: nat): Cost
    requires i < |ms|
    decreases Room(depth), 2, 0
  {
    if ms[i].ComponentRef? then ComponentCost(d, ms[i].name, path, depth) else FREE
  }

  /** An undefined component, or one already being expanded, takes one node, and no more. */
  function ComponentCost(d: Dictionary, name: Name, path: set<Name>, depth: nat): Cost
    decreases Room(depth), 1
  {
    if depth > MAX_SCOPE_DEPTH then Cost(0, {SchemaTooDeep})
    else if name !in d.components then Cost(1, {UnknownComponent(name)})
    else if name in path then ONE
    else Sum(ONE, PartCost(d, d.components[name], path + {name}, depth + 1))
  }

  /** What a message takes, its header and trailer included. */
  function MessageCost(transport: Dictionary, body: Dictionary, ms: seq<Member>): Cost {
    Sum(Sum(GroupsCost(transport, transport.header, {}, 0, 0), GroupsCost(transport, transport.trailer, {}, 0, 0)),
        PartCost(body, ms, {}, 0))
  }

  lemma GroupLeaves(d: Dictionary, ms: seq<Member>, path: set<Name>, depth: nat, i: nat, spent: Cost)
    requires i < |ms|
    ensures Sum(Sum(spent, GroupCostAt(d, ms, path, depth, i)), GroupsCost(d, ms, path, depth, i + 1))
            == Sum(spent, GroupsCost(d, ms, path, depth, i))
  {
    SumIsAssociative(spent, GroupCostAt(d, ms, path, depth, i), GroupsCost(d, ms, path, depth, i + 1));
  }

  lemma ComponentLeaves(d: Dictionary, ms: seq<Member>, path: set<Name>, depth: nat, i: nat, spent: Cost)
    requires i < |ms|
    ensures Sum(Sum(spent, ComponentCostAt(d, ms, path, depth, i)), ComponentsCost(d, ms, path, depth, i + 1))
            == Sum(spent, ComponentsCost(d, ms, path, depth, i))
  {
    SumIsAssociative(spent, ComponentCostAt(d, ms, path, depth, i), ComponentsCost(d, ms, path, depth, i + 1));
  }

  // ----- the same by chains of references -----

  /** The group or component reference the steps lead to, through groups and components within the depth limit, none entered twice. */
  function Led(d: Dictionary, ms: seq<Member>, path: set<Name>, depth: nat, steps: seq<nat>): Option<Member>
    decreases |steps|
  {
    if steps == [] || steps[0] >= |ms| || ms[steps[0]].FieldRef? then None
    else if |steps| == 1 then Some(ms[steps[0]])
    else if depth > MAX_SCOPE_DEPTH then None
    else match ms[steps[0]]
         case GroupRef(def) => Led(d, def.members, path, depth + 1, steps[1..])
         case ComponentRef(name, _) =>
           if name in d.components && name !in path then Led(d, d.components[name], path + {name}, depth + 1, steps[1..]) else None
  }

  /** A node: a reference met within the depth limit. */
  predicate IsVisit(d: Dictionary, ms: seq<Member>, path: set<Name>, depth: nat, steps: seq<nat>) {
    Led(d, ms, path, depth, steps).Some? && depth + |steps| - 1 <= MAX_SCOPE_DEPTH
  }

  /** An error: a reference met past the depth limit, or one within it to a component that is not defined. */
  predicate IsMet(d: Dictionary, ms: seq<Member>, path: set<Name>, depth: nat, steps: seq<nat>, error: SchemaError) {
    match error
    case SchemaTooDeep => Led(d, ms, path, depth, steps).Some? && depth + |steps| - 1 > MAX_SCOPE_DEPTH
    case UnknownComponent(name) =>
      IsVisit(d, ms, path, depth, steps) && name !in d.components && IsReference(Led(d, ms, path, depth, steps).value, name)
    case SchemaTooLarge => false
  }

  predicate IsReference(member: Member, name: Name) {
    member.ComponentRef? && member.name == name
  }

  lemma {:induction false} AmongGroups(d: Dictionary, ms: seq<Member>, path: set<Name>, depth: nat, i: nat, error: SchemaError) returns (j: nat)
    requires i <= |ms| && error in GroupsCost(d, ms, path, depth, i).faults
    ensures i <= j < |ms| && error in GroupCostAt(d, ms, path, depth, j).faults
    decreases |ms| - i
  {
    j := i;
    if error !in GroupCostAt(d, ms, path, depth, i).faults {
      j := AmongGroups(d, ms, path, depth, i + 1, error);
    }
  }

  lemma {:induction false} AmongComponents(d: Dictionary, ms: seq<Member>, path: set<Name>, depth: nat, i: nat, error: SchemaError)
    returns (j: nat)
    requires i <= |ms| && error in ComponentsCost(d, ms, path, depth, i).faults
    ensures i <= j < |ms| && error in ComponentCostAt(d, ms, path, depth, j).faults
    decreases |ms| - i
  {
    j := i;
    if error !in ComponentCostAt(d, ms, path, depth, i).faults {
      j := AmongComponents(d, ms, path, depth, i + 1, error);
    }
  }

  lemma {:induction false} GroupCounts(d: Dictionary, ms: seq<Member>, path: set<Name>, depth: nat, i: nat, j: nat)
    requires i <= j < |ms|
    ensures GroupCostAt(d, ms, path, depth, j).faults <= GroupsCost(d, ms, path, depth, i).faults
    decreases j - i
  {
    if i < j {
      GroupCounts(d, ms, path, depth, i + 1, j);
    }
  }

  lemma {:induction false} ComponentCounts(d: Dictionary, ms: seq<Member>, path: set<Name>, depth: nat, i: nat, j: nat)
    requires i <= j < |ms|
    ensures ComponentCostAt(d, ms, path, depth, j).faults <= ComponentsCost(d, ms, path, depth, i).faults
    decreases j - i
  {
    if i < j {
      ComponentCounts(d, ms, path, depth, i + 1, j);
    }
  }

  lemma {:induction false} FaultIsMet(d: Dictionary, ms: seq<Member>, path: set<Name>, depth: nat, error: SchemaError) returns (steps: seq<nat>)
    requires error in PartCost(d, ms, path, depth).faults
    ensures IsMet(d, ms, path, depth, steps, error)
    decreases Room(depth)
  {
    var j: nat;
    var inner: seq<nat> := [];
    if error in GroupsCost(d, ms, path, depth, 0).faults {
      j := AmongGroups(d, ms, path, depth, 0, error);
      if depth <= MAX_SCOPE_DEPTH {
        inner := FaultIsMet(d, ms[j].def.members, path, depth + 1, error);
      }
    } else {
      j := AmongComponents(d, ms, path, depth, 0, error);
      var name := ms[j].name;
      if depth <= MAX_SCOPE_DEPTH && name in d.components {
        inner := FaultIsMet(d, d.components[name], path + {name}, depth + 1, error);
      }
    }
    steps := [j] + inner;
    assert steps[1..] == inner;
  }

  lemma {:induction false} MetIsFault(d: Dictionary, ms: seq<Member>, path: set<Name>, depth: nat, error: SchemaError, steps: seq<nat>)
    requires IsMet(d, ms, path, depth, steps, error)
    ensures error in PartCost(d, ms, path, depth).faults
    decreases |steps|
  {
    var j := steps[0];
    match ms[j]
    case GroupRef(def) =>
      if |steps| > 1 {
        MetIsFault(d, def.members, path, depth + 1, error, steps[1..]);
      }
      GroupCounts(d, ms, path, depth, 0, j);
    case ComponentRef(name, _) =>
      if |steps| > 1 {
        MetIsFault(d, d.components[name], path + {name}, depth + 1, error, steps[1..]);
      }
      ComponentCounts(d, ms, path, depth, 0, j);
  }

  /** The errors of a definition are exactly those its chains of references meet. */
  lemma FaultsAreMet(d: Dictionary, ms: seq<Member>, path: set<Name>, depth: nat, error: SchemaError)
    ensures error in PartCost(d, ms, path, depth).faults <==> exists steps :: IsMet(d, ms, path, depth, steps, error)
  {
    if error in PartCost(d, ms, path, depth).faults {
      var steps := FaultIsMet(d, ms, path, depth, error);
    }
    if exists steps :: IsMet(d, ms, path, depth, steps, error) {
      var steps :| IsMet(d, ms, path, depth, steps, error);
      MetIsFault(d, ms, path, depth, error, steps);
    }
  }

  /** The same for the groups alone of a list: a header or trailer, whose own components are not expanded. */
  lemma GroupFaultsAreMet(d: Dictionary, ms: seq<Member>, error: SchemaError)
    ensures error in GroupsCost(d, ms, {}, 0, 0).faults <==> exists steps :: IsMet(d, ms, {}, 0, steps, error) && ms[steps[0]].GroupRef?
  {
    if error in GroupsCost(d, ms, {}, 0, 0).faults {
      var j := AmongGroups(d, ms, {}, 0, 0, error);
      var inner := FaultIsMet(d, ms[j].def.members, {}, 1, error);
      assert ([j] + inner)[1..] == inner;
      assert IsMet(d, ms, {}, 0, [j] + inner, error) && ms[([j] + inner)[0]].GroupRef?;
    }
    if exists steps :: IsMet(d, ms, {}, 0, steps, error) && ms[steps[0]].GroupRef? {
      var steps :| IsMet(d, ms, {}, 0, steps, error) && ms[steps[0]].GroupRef?;
      if |steps| > 1 {
        MetIsFault(d, ms[steps[0]].def.members, {}, 1, error, steps[1..]);
      }
      GroupCounts(d, ms, {}, 0, 0, steps[0]);
    }
  }

  /** The errors of a message are those met in its header's and trailer's groups and in its body. */
  lemma MessageFaultsAreMet(transport: Dictionary, body: Dictionary, ms: seq<Member>, error: SchemaError)
    ensures error in MessageCost(transport, body, ms).faults
            <==> || (exists steps :: IsMet(transport, transport.header, {}, 0, steps, error) && transport.header[steps[0]].GroupRef?)
                 || (exists steps :: IsMet(transport, transport.trailer, {}, 0, steps, error) && transport.trailer[steps[0]].GroupRef?)
                 || exists steps :: IsMet(body, ms, {}, 0, steps, error)
  {
    GroupFaultsAreMet(transport, transport.header, error);
    GroupFaultsAreMet(transport, transport.trailer, error);
    FaultsAreMet(body, ms, {}, 0, error);
  }

  // ----- the visits one by one -----

  function Prefixed(i: nat, list: seq<seq<nat>>): (longer: seq<seq<nat>>)
    ensures |longer| == |list| && forall k :: 0 <= k < |list| ==> longer[k] == [i] + list[k]
  {
    if list == [] then [] else [[i] + list[0]] + Prefixed(i, list[1..])
  }

  /** The visits below the members from `i` on. */
  function Visits(d: Dictionary, ms: seq<Member>, path: set<Name>, depth: nat, i: nat): seq<seq<nat>>
    requires i <= |ms|
    decreases Room(depth), 1, |ms| - i
  {
    if i == |ms| then [] else VisitsAt(d, ms, path, depth, i) + Visits(d, ms, path, depth, i + 1)
  }

  function VisitsAt(d: Dictionary, ms: seq<Member>, path: set<Name>, depth: nat, i: nat): seq<seq<nat>>
    requires i < |ms|
    decreases Room(depth), 0, 0
  {
    if ms[i].FieldRef? || depth > MAX_SCOPE_DEPTH then []
    else [[i]] + Prefixed(i, match ms[i]
                            case GroupRef(def) => Visits(d, def.members, path, depth + 1, 0)
                            case ComponentRef(name, _) =>
                              if name in d.components && name !in path then Visits(d, d.components[name], path + {name}, depth + 1, 0) else []
                            case FieldRef(_, _) => [])
  }

  lemma {:induction false} NodesCounted(d: Dictionary, ms: seq<Member>, path: set<Name>, depth: nat, i: nat)
    requires i <= |ms|
    ensures |Visits(d, ms, path, depth, i)| == GroupsCost(d, ms, path, depth, i).nodes + ComponentsCost(d, ms, path, depth, i).nodes
    decreases Room(depth), 1, |ms| - i
  {
    if i < |ms| {
      NodesCountedAt(d, ms, path, depth, i);
      NodesCounted(d, ms, path, depth, i + 1);
    }
  }

  lemma {:induction false} NodesCountedAt(d: Dictionary, ms: seq<Member>, path: set<Name>, depth: nat, i: nat)
    requires i < |ms|
    ensures |VisitsAt(d, ms, path, depth, i)| == GroupCostAt(d, ms, path, depth, i).nodes + ComponentCostAt(d, ms, path, depth, i).nodes
    decreases Room(depth), 0, 0
  {
    if depth <= MAX_SCOPE_DEPTH {
      match ms[i]
      case FieldRef(_, _) =>
      case GroupRef(def) =>
        NodesCounted(d, def.members, path, depth + 1, 0);
        assert GroupCost(d, def, path, depth) == Sum(ONE, PartCost(d, def.members, path, depth + 1));
      case ComponentRef(name, _) =>
        if name in d.components && name !in path {
          NodesCounted(d, d.components[name], path + {name}, depth + 1, 0);
          assert ComponentCost(d, name, path, depth) == Sum(ONE, PartCost(d, d.components[name], path + {name}, depth + 1));
        }
    }
  }

  predicate NoneTwice(list: seq<seq<nat>>) {
    forall j, k :: 0 <= j < k < |list| ==> list[j] != list[k]
  }

  /** What the list holds: every visit whose first step is at `i` or behind, once. */
  ghost predicate Holds(d: Dictionary, ms: seq<Member>, path: set<Name>, depth: nat, i: nat, list: seq<seq<nat>>) {
    NoneTwice(list) && forall steps :: steps in list <==> IsVisit(d, ms, path, depth, steps) && i <= steps[0]
  }

  lemma {:induction false} VisitsHold(d: Dictionary, ms: seq<Member>, path: set<Name>, depth: nat, i: nat)
    requires i <= |ms|
    ensures Holds(d, ms, path, depth, i, Visits(d, ms, path, depth, i))
    decreases Room(depth), 1, |ms| - i
  {
    if i < |ms| {
      var here, rest := VisitsAt(d, ms, path, depth, i), Visits(d, ms, path, depth, i + 1);
      VisitsHoldAt(d, ms, path, depth, i);
      VisitsHold(d, ms, path, depth, i + 1);
      JoinedHold(d, ms, path, depth, i, here, rest);
    }
  }

  lemma JoinedHold(d: Dictionary, ms: seq<Member>, path: set<Name>, depth: nat, i: nat, here: seq<seq<nat>>, rest: seq<seq<nat>>)
    requires i < |ms| && Holds(d, ms, path, depth, i + 1, rest) && NoneTwice(here)
    requires forall steps :: steps in here <==> IsVisit(d, ms, path, depth, steps) && steps[0] == i
    ensures Holds(d, ms, path, depth, i, here + rest)
  {
    var all := here + rest;
    forall j, k | 0 <= j < k < |all| ensures all[j] != all[k] {
      assert all[j] == if j < |here| then here[j] else rest[j - |here|];
      assert all[k] == if k < |here| then here[k] else rest[k - |here|];
      assert j < |here| ==> here[j] in here;
      assert k >= |here| ==> rest[k - |here|] in rest;
    }
  }

  lemma {:induction false} VisitsHoldAt(d: Dictionary, ms: seq<Member>, path: set<Name>, depth: nat, i: nat)
    requires i < |ms|
    ensures NoneTwice(VisitsAt(d, ms, path, depth, i))
    ensures forall steps :: steps in VisitsAt(d, ms, path, depth, i) <==> IsVisit(d, ms, path, depth, steps) && steps[0] == i
    decreases Room(depth), 0, 0
  {
    if ms[i].FieldRef? || depth > MAX_SCOPE_DEPTH {
      assert VisitsAt(d, ms, path, depth, i) == [];
    } else {
      match ms[i]
      case GroupRef(def) =>
        VisitsHold(d, def.members, path, depth + 1, 0);
        OneLonger(d, ms, path, depth, i, def.members, path, Visits(d, def.members, path, depth + 1, 0));
      case ComponentRef(name, _) =>
        if name in d.components && name !in path {
          VisitsHold(d, d.components[name], path + {name}, depth + 1, 0);
          OneLonger(d, ms, path, depth, i, d.components[name], path + {name}, Visits(d, d.components[name], path + {name}, depth + 1, 0));
        } else {
          assert VisitsAt(d, ms, path, depth, i) == [[i]];
          forall steps | IsVisit(d, ms, path, depth, steps) && steps[0] == i ensures steps == [i] {
            assert |steps| == 1;
          }
        }
    }
  }

  /** The reference itself, and every visit below it. */
  lemma OneLonger(d: Dictionary, ms: seq<Member>, path: set<Name>, depth: nat, i: nat, below: seq<Member>, entered: set<Name>,
                  list: seq<seq<nat>>)
    requires i < |ms| && !ms[i].FieldRef? && depth <= MAX_SCOPE_DEPTH && Holds(d, below, entered, depth + 1, 0, list)
    requires forall steps :: |steps| > 1 && steps[0] == i ==> Led(d, ms, path, depth, steps) == Led(d, below, entered, depth + 1, steps[1..])
    ensures NoneTwice([[i]] + Prefixed(i, list))
    ensures forall steps :: steps in [[i]] + Prefixed(i, list) <==> IsVisit(d, ms, path, depth, steps) && steps[0] == i
  {
    forall k | 0 <= k < |list| ensures list[k] != [] {
      assert list[k] in list;
    }
    PrefixedOnce(i, list);
    forall steps ensures steps in [[i]] + Prefixed(i, list) <==> IsVisit(d, ms, path, depth, steps) && steps[0] == i {
      if IsVisit(d, ms, path, depth, steps) && steps[0] == i {
        VisitIsListed(d, ms, path, depth, i, below, entered, list, steps);
      } else if steps in [[i]] + Prefixed(i, list) {
        ListedIsVisit(d, ms, path, depth, i, below, entered, list, steps);
      }
    }
  }

  lemma ListedIsVisit(d: Dictionary, ms: seq<Member>, path: set<Name>, depth: nat, i: nat, below: seq<Member>, entered: set<Name>,
                      list: seq<seq<nat>>, steps: seq<nat>)
    requires i < |ms| && !ms[i].FieldRef? && depth <= MAX_SCOPE_DEPTH && Holds(d, below, entered, depth + 1, 0, list)
    requires |steps| > 1 && steps[0] == i ==> Led(d, ms, path, depth, steps) == Led(d, below, entered, depth + 1, steps[1..])
    requires steps in [[i]] + Prefixed(i, list)
    ensures IsVisit(d, ms, path, depth, steps) && steps[0] == i
  {
    if steps != [i] {
      var k :| 0 <= k < |Prefixed(i, list)| && Prefixed(i, list)[k] == steps;
      assert list[k] in list && steps[1..] == list[k];
    }
  }

  lemma PrefixedOnce(i: nat, list: seq<seq<nat>>)
    requires NoneTwice(list) && forall k :: 0 <= k < |list| ==> list[k] != []
    ensures NoneTwice([[i]] + Prefixed(i, list))
  {
    var longer := Prefixed(i, list);
    var all := [[i]] + longer;
    forall j, k | 0 <= j < k < |all| ensures all[j] != all[k] {
      assert all[k] == [i] + list[k - 1] && |all[k]| > 1;
      if j > 0 {
        assert all[j] == [i] + list[j - 1] && all[j][1..] == list[j - 1] && all[k][1..] == list[k - 1];
      }
    }
  }

  lemma VisitIsListed(d: Dictionary, ms: seq<Member>, path: set<Name>, depth: nat, i: nat, below: seq<Member>, entered: set<Name>,
                      list: seq<seq<nat>>, steps: seq<nat>)
    requires i < |ms| && Holds(d, below, entered, depth + 1, 0, list) && IsVisit(d, ms, path, depth, steps) && steps[0] == i
    requires |steps| > 1 ==> Led(d, ms, path, depth, steps) == Led(d, below, entered, depth + 1, steps[1..])
    ensures steps in [[i]] + Prefixed(i, list)
  {
    if |steps| == 1 {
      assert steps == [i];
    } else {
      assert steps[1..] in list;
      var k :| 0 <= k < |list| && list[k] == steps[1..];
      assert Prefixed(i, list)[k] == [i] + steps[1..] == steps;
    }
  }

  /** A definition takes as many nodes as there are chains of references to a group or component within the depth limit. */
  lemma NodesAreVisits(d: Dictionary, ms: seq<Member>, path: set<Name>, depth: nat) returns (visits: seq<seq<nat>>)
    ensures |visits| == PartCost(d, ms, path, depth).nodes && NoneTwice(visits)
    ensures forall steps :: steps in visits <==> IsVisit(d, ms, path, depth, steps)
  {
    visits := Visits(d, ms, path, depth, 0);
    NodesCounted(d, ms, path, depth, 0);
    VisitsHold(d, ms, path, depth, 0);
  }
}
