/**
 Expansions the path guard does not touch: every reference met is to a defined component that is not being
 expanded already. Such an expansion does not depend on where it starts.
 */
module Paths {
  import opened Wire
  import opened Schema
  import opened Layout

  /** Every component reference met in expanding `ms`, groups left aside, is entered. */
  predicate Unguarded(d: Dictionary, ms: seq<Member>, path: set<Name>)
    decreases Unvisited(d, path), 1, 0
  {
    forall i :: 0 <= i < |ms| && ms[i].ComponentRef? ==> Entered(d, ms[i].name, path)
  }

  predicate Entered(d: Dictionary, name: Name, path: set<Name>)
    decreases Unvisited(d, path), 0, 0
  {
    Enterable(d, name, path) && (EnteringShrinks(d, name, path); Unguarded(d, d.components[name], path + {name}))
  }

  /** An entry and every entry a layout keeps below it expand without meeting the guard. */
  ghost predicate EntryUnguarded(d: Dictionary, item: Item)
    requires item.GroupItem?
    decreases Unvisited(d, item.path), Size(item.def.members), 1
  {
    Unguarded(d, item.def.members, item.path) && KeptBelow(d, item, EntryItems(d, item))
  }

  function EntryItems(d: Dictionary, item: Item): seq<Item>
    requires item.GroupItem?
  {
    LayoutItems(d, Part(item.at, item.def.members), true, item.path)
  }

  ghost predicate KeptBelow(d: Dictionary, item: Item, items: seq<Item>)
    requires item.GroupItem? && items == EntryItems(d, item)
    decreases Unvisited(d, item.path), Size(item.def.members), 0
  {
    ItemsAreBelow(d, Part(item.at, item.def.members), true, item.path);
    forall ct: Tag :: FirstGroup(items, ct).Some? ==> EntryUnguarded(d, FirstGroup(items, ct).value)
  }

  /** The groups a level keeps of these items expand without meeting the guard, all the way down. */
  ghost predicate KeptUnguarded(d: Dictionary, items: seq<Item>) {
    forall ct: Tag :: FirstGroup(items, ct).Some? ==> EntryUnguarded(d, FirstGroup(items, ct).value)
  }

  // ----- where an expansion starts does not matter -----

  /** The same contribution, met on the way from different places. */
  predicate Alike(a: Item, b: Item) {
    match a
    case FieldItem(_, _) => a == b
    case GroupItem(at, def, required, _) => b.GroupItem? && b.at == at && b.def == def && b.required == required
  }

  predicate AllAlike(a: seq<Item>, b: seq<Item>) {
    |a| == |b| && forall k :: 0 <= k < |a| ==> Alike(a[k], b[k])
  }

  lemma AlikeConcat(a: seq<Item>, b: seq<Item>, x: seq<Item>, y: seq<Item>)
    requires AllAlike(a, b) && AllAlike(x, y)
    ensures AllAlike(a + x, b + y)
  {
  }

  lemma OwnAlike(part: Part, required: bool, p: set<Name>, q: set<Name>, i: nat)
    requires i <= |part.members|
    ensures AllAlike(GroupItems(part, required, p, i), GroupItems(part, required, q, i))
    decreases |part.members| - i
  {
    if i < |part.members| {
      OwnAlike(part, required, p, q, i + 1);
      if part.members[i].GroupRef? {
        AlikeConcat([OwnItem(part, i, required, p)], [OwnItem(part, i, required, q)],
                    GroupItems(part, required, p, i + 1), GroupItems(part, required, q, i + 1));
      }
    }
  }

  /** Two expansions that do not meet the guard contribute the same. */
  lemma {:induction false} LayoutAlike(d: Dictionary, part: Part, required: bool, p: set<Name>, q: set<Name>)
    requires Unguarded(d, part.members, p) && Unguarded(d, part.members, q)
    ensures AllAlike(LayoutItems(d, part, required, p), LayoutItems(d, part, required, q))
    decreases Unvisited(d, p), 2, 0
  {
    var fields := FieldItems(part, required, 0);
    assert AllAlike(fields, fields);
    OwnAlike(part, required, p, q, 0);
    ComponentsAlike(d, part, required, p, q, 0);
    AlikeConcat(fields, fields, GroupItems(part, required, p, 0), GroupItems(part, required, q, 0));
    AlikeConcat(fields + GroupItems(part, required, p, 0), fields + GroupItems(part, required, q, 0),
                ComponentItems(d, part, required, p, 0), ComponentItems(d, part, required, q, 0));
  }

  lemma {:induction false} ComponentsAlike(d: Dictionary, part: Part, required: bool, p: set<Name>, q: set<Name>, i: nat)
    requires Unguarded(d, part.members, p) && Unguarded(d, part.members, q) && i <= |part.members|
    ensures AllAlike(ComponentItems(d, part, required, p, i), ComponentItems(d, part, required, q, i))
    decreases Unvisited(d, p), 1, |part.members| - i
  {
    if i < |part.members| {
      ComponentsAlike(d, part, required, p, q, i + 1);
      if part.members[i].ComponentRef? {
        var name, req := part.members[i].name, required && part.members[i].required;
        assert Entered(d, name, p) && Entered(d, name, q);
        EnteringShrinks(d, name, p);
        LayoutAlike(d, ComponentPart(d, name), req, p + {name}, q + {name});
        AlikeConcat(ReferenceItems(d, name, req, p), ReferenceItems(d, name, req, q),
                    ComponentItems(d, part, required, p, i + 1), ComponentItems(d, part, required, q, i + 1));
      }
    }
  }

  lemma AlikeLists(a: seq<Item>, b: seq<Item>)
    requires AllAlike(a, b)
    ensures TagsOf(a) == TagsOf(b) && RequiredOf(a) == RequiredOf(b)
  {
    if a != [] {
      assert forall k :: 0 <= k < |a[1..]| ==> a[1..][k] == a[k + 1] && b[1..][k] == b[k + 1];
      AlikeLists(a[1..], b[1..]);
      assert Alike(a[0], b[0]);
    }
  }

  lemma AlikeFirst(a: seq<Item>, b: seq<Item>, ct: Tag)
    requires AllAlike(a, b)
    ensures FirstGroup(a, ct).Some? == FirstGroup(b, ct).Some?
    ensures FirstGroup(a, ct).Some? ==> Alike(FirstGroup(a, ct).value, FirstGroup(b, ct).value)
  {
    if a != [] {
      assert forall k :: 0 <= k < |a[1..]| ==> a[1..][k] == a[k + 1] && b[1..][k] == b[k + 1];
      assert Alike(a[0], b[0]);
      AlikeFirst(a[1..], b[1..], ct);
    }
  }

  // ----- grounded definitions: no cycle, no dangling reference -----

  /** Every chain of references from `ms`, through groups too, resolves within `n` components. */
  ghost predicate Done(d: Dictionary, ms: seq<Member>, n: nat)
    decreases n, ms
  {
    forall i :: 0 <= i < |ms| ==> DoneMember(d, ms[i], n)
  }

  ghost predicate DoneMember(d: Dictionary, member: Member, n: nat)
    decreases n, member
  {
    match member
    case FieldRef(_, _) => true
    case GroupRef(def) => DoneGroup(d, def, n)
    case ComponentRef(name, _) => n > 0 && name in d.components && Done(d, d.components[name], n - 1)
  }

  ghost predicate DoneGroup(d: Dictionary, def: GroupDef, n: nat)
    decreases n, def
  {
    Done(d, def.members, n)
  }

  ghost predicate Grounded(d: Dictionary, ms: seq<Member>) {
    exists n: nat :: Done(d, ms, n)
  }

  lemma {:induction false} DoneIsMonotone(d: Dictionary, ms: seq<Member>, n: nat, m: nat)
    requires Done(d, ms, n) && n <= m
    ensures Done(d, ms, m)
    decreases n, ms
  {
    forall i | 0 <= i < |ms| ensures DoneMember(d, ms[i], m) {
      DoneMemberIsMonotone(d, ms[i], n, m);
    }
  }

  lemma {:induction false} DoneMemberIsMonotone(d: Dictionary, member: Member, n: nat, m: nat)
    requires DoneMember(d, member, n) && n <= m
    ensures DoneMember(d, member, m)
    decreases n, member
  {
    match member
    case FieldRef(_, _) =>
    case GroupRef(def) => DoneGroupIsMonotone(d, def, n, m);
    case ComponentRef(name, _) => DoneIsMonotone(d, d.components[name], n - 1, m - 1);
  }

  lemma {:induction false} DoneGroupIsMonotone(d: Dictionary, def: GroupDef, n: nat, m: nat)
    requires DoneGroup(d, def, n) && n <= m
    ensures DoneGroup(d, def, m)
    decreases n, def
  {
    DoneIsMonotone(d, def.members, n, m);
  }

  /** `ms` resolves within `n` components, and nothing being expanded does within fewer. */
  ghost predicate Lower(d: Dictionary, ms: seq<Member>, path: set<Name>, n: nat) {
    Done(d, ms, n) && forall c, m: nat :: c in path && c in d.components && m < n ==> !Done(d, d.components[c], m)
  }

  ghost predicate Free(d: Dictionary, ms: seq<Member>, path: set<Name>) {
    exists n: nat :: Lower(d, ms, path, n)
  }

  lemma {:induction false} LeastDone(d: Dictionary, ms: seq<Member>, n: nat) returns (k: nat)
    requires Done(d, ms, n)
    ensures k <= n && Done(d, ms, k) && forall m: nat :: m < k ==> !Done(d, ms, m)
  {
    if m: nat :| m < n && Done(d, ms, m) {
      k := LeastDone(d, ms, m);
    } else {
      k := n;
    }
  }

  /** A component referenced from `ms` is none being expanded, and lower than all of them. */
  lemma EnteringStaysLower(d: Dictionary, ms: seq<Member>, path: set<Name>, n: nat, i: nat) returns (k: nat)
    requires Lower(d, ms, path, n) && i < |ms| && ms[i].ComponentRef?
    ensures Enterable(d, ms[i].name, path) && k < n && Lower(d, d.components[ms[i].name], path + {ms[i].name}, k)
  {
    assert DoneMember(d, ms[i], n);
    k := LeastDone(d, d.components[ms[i].name], n - 1);
  }

  lemma {:induction false} LowerIsUnguarded(d: Dictionary, ms: seq<Member>, path: set<Name>, n: nat)
    requires Lower(d, ms, path, n)
    ensures Unguarded(d, ms, path)
    decreases n
  {
    forall i | 0 <= i < |ms| && ms[i].ComponentRef? ensures Entered(d, ms[i].name, path) {
      var k := EnteringStaysLower(d, ms, path, n, i);
      LowerIsUnguarded(d, d.components[ms[i].name], path + {ms[i].name}, k);
    }
  }

  ghost predicate AllFree(d: Dictionary, items: seq<Item>) {
    forall k :: 0 <= k < |items| && items[k].GroupItem? ==> Free(d, items[k].def.members, items[k].path)
  }

  lemma AllFreeConcat(d: Dictionary, a: seq<Item>, b: seq<Item>)
    requires AllFree(d, a) && AllFree(d, b)
    ensures AllFree(d, a + b)
  {
    assert forall k :: 0 <= k < |a + b| ==> (a + b)[k] == if k < |a| then a[k] else b[k - |a|];
  }

  lemma OwnGroupsAreFree(d: Dictionary, part: Part, required: bool, path: set<Name>, n: nat, i: nat)
    requires Lower(d, part.members, path, n) && i <= |part.members|
    ensures AllFree(d, GroupItems(part, required, path, i))
    decreases |part.members| - i
  {
    if i < |part.members| {
      OwnGroupsAreFree(d, part, required, path, n, i + 1);
      if part.members[i].GroupRef? {
        assert DoneMember(d, part.members[i], n) && DoneGroup(d, part.members[i].def, n);
        assert Lower(d, part.members[i].def.members, path, n);
        AllFreeConcat(d, [OwnItem(part, i, required, path)], GroupItems(part, required, path, i + 1));
      }
    }
  }

  /** The groups met in a grounded expansion are free to be expanded where they are met. */
  lemma {:induction false} ItemsAreFree(d: Dictionary, part: Part, required: bool, path: set<Name>, n: nat)
    requires Lower(d, part.members, path, n)
    ensures AllFree(d, LayoutItems(d, part, required, path))
    decreases n, 1, 0
  {
    FieldsAreNoGroups(part, required, 0);
    OwnGroupsAreFree(d, part, required, path, n, 0);
    ComponentGroupsAreFree(d, part, required, path, n, 0);
    var fields, groups := FieldItems(part, required, 0), GroupItems(part, required, path, 0);
    AllFreeConcat(d, fields, groups);
    AllFreeConcat(d, fields + groups, ComponentItems(d, part, required, path, 0));
  }

  lemma {:induction false} ComponentGroupsAreFree(d: Dictionary, part: Part, required: bool, path: set<Name>, n: nat, i: nat)
    requires Lower(d, part.members, path, n) && i <= |part.members|
    ensures AllFree(d, ComponentItems(d, part, required, path, i))
    decreases n, 0, |part.members| - i
  {
    if i < |part.members| {
      ComponentGroupsAreFree(d, part, required, path, n, i + 1);
      if part.members[i].ComponentRef? {
        var name, req := part.members[i].name, required && part.members[i].required;
        var k := EnteringStaysLower(d, part.members, path, n, i);
        ItemsAreFree(d, ComponentPart(d, name), req, path + {name}, k);
        AllFreeConcat(d, ReferenceItems(d, name, req, path), ComponentItems(d, part, required, path, i + 1));
      }
    }
  }

  /** A group free to be expanded meets the guard nowhere. */
  lemma {:induction false} FreeIsUnguarded(d: Dictionary, item: Item)
    requires item.GroupItem? && Free(d, item.def.members, item.path)
    ensures EntryUnguarded(d, item)
    decreases Unvisited(d, item.path), Size(item.def.members)
  {
    var part, items := Part(item.at, item.def.members), EntryItems(d, item);
    var n: nat :| Lower(d, item.def.members, item.path, n);
    LowerIsUnguarded(d, item.def.members, item.path, n);
    ItemsAreFree(d, part, true, item.path, n);
    ItemsAreBelow(d, part, true, item.path);
    forall ct: Tag | FirstGroup(items, ct).Some? ensures EntryUnguarded(d, FirstGroup(items, ct).value) {
      FreeIsUnguarded(d, FirstGroup(items, ct).value);
    }
    assert KeptBelow(d, item, items);
  }

  lemma FreeItemsAreUnguarded(d: Dictionary, items: seq<Item>)
    requires AllFree(d, items)
    ensures KeptUnguarded(d, items)
  {
    forall ct: Tag | FirstGroup(items, ct).Some? ensures EntryUnguarded(d, FirstGroup(items, ct).value) {
      FreeIsUnguarded(d, FirstGroup(items, ct).value);
    }
  }
}
