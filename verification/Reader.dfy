/** Reading groups: the checked read of a whole instance, and the unchecked iteration and nested reads after it. */
module Reader {
  import opened Wire
  import opened GroupSpecs
  import opened GroupTree
  import opened Grammar
  import opened GroupCheck
  import W = Walk

  // ----- a well-formed tree stays readable when the message is cut right after it -----

  lemma {:induction false} RunFitsWhenCut(run: Run, g: Spec, enclosing: seq<Tag>, follow: Option<Tag>)
    requires Fits(run, g, enclosing, follow)
    ensures Fits(run, g, enclosing, None)
    decreases run, 3
  {
    EntriesFitWhenCut(run.entries, g, follow);
  }

  lemma {:induction false} EntriesFitWhenCut(entries: seq<Entry>, g: Spec, follow: Option<Tag>)
    requires FitEntries(entries, g, follow)
    ensures FitEntries(entries, g, None)
    decreases entries, 2
  {
    if entries != [] {
      var rest := FlatEntries(entries[1..]);
      if rest == [] {
        ItemsFitInEntry(entries[0], g, follow);
      }
      EntriesFitWhenCut(entries[1..], g, follow);
    }
  }

  lemma {:induction false} ItemsFitInEntry(entry: Entry, g: Spec, follow: Option<Tag>)
    requires FitItems(entry.items, g, follow)
    ensures FitItems(entry.items, g, None)
    decreases entry, 1
  {
    ItemsFitWhenCut(entry.items, g, follow);
  }

  lemma {:induction false} ItemsFitWhenCut(items: seq<Item>, g: Spec, follow: Option<Tag>)
    requires FitItems(items, g, follow)
    ensures FitItems(items, g, None)
    decreases items, 1
  {
    if items != [] {
      if FlatItems(items[1..]) == [] {
        ItemFitsWhenCut(items[0], g, follow);
      }
      ItemsFitWhenCut(items[1..], g, follow);
    }
  }

  lemma {:induction false} ItemFitsWhenCut(item: Item, g: Spec, follow: Option<Tag>)
    requires FitItem(item, g, follow)
    ensures FitItem(item, g, None)
    decreases item, 1
  {
    if item.Nested? && Lookup(g.nested, item.Tag()).Some? {
      RunFitsWhenCut(item.run, Lookup(g.nested, item.Tag()).value, g.members, follow);
    }
  }

  // ----- entries -----

  /** One entry: its fields, nested runs included, its group, its index and the depth of its group. */
  datatype GroupEntry = GroupEntry(fields: seq<Field>, spec: Spec, index: nat, depth: nat)

  /** `entry` stands for the tree `tree`, checked as part of the instance it came from. */
  ghost predicate Shows(entry: GroupEntry, tree: Entry) {
    && ValidSpec(entry.spec)
    && |entry.fields| <= U64_MAX
    && entry.fields == FlatItems(tree.items)
    && WellFormedEntry(tree, entry.spec, entry.depth)
    && FitItems(tree.items, entry.spec, None)
  }

  /** Where item `k` starts among the fields of its entry. */
  ghost function Position(items: seq<Item>, k: nat): nat
    requires k <= |items|
  {
    |FlatItems(items[..k])|
  }

  /** The iterator over the entries of one instance. */
  class GroupEntries {
    const fields: seq<Field>
    const spec: Spec
    /** Nesting depth of the group. */
    const depth: nat
    /** Index just past the fields the run may stand in. */
    const end: nat
    /** Index of the next entry's delimiter. */
    var cursor: nat
    /** Index of the next entry within the group. */
    var nextIndex: nat
    /** Entries not yet yielded. */
    var remaining: nat
    /** What is still to be yielded, and where it ends. */
    ghost var todo: seq<Entry>
    ghost const runEnd: nat

    ghost predicate Valid()
      reads this
    {
      && EntriesStand(fields, cursor, runEnd, todo, spec, depth)
      && runEnd <= end <= |fields|
      && remaining == |todo|
      && (todo != [] ==> Halts(0, 1, spec, TagAt(fields, runEnd)))
    }

    /** The entries of the run at `index`, whose extent and count are known. */
    constructor (fields: seq<Field>, index: nat, spec: Spec, depth: nat, end: nat, remaining: nat,
                 ghost run: Run, ghost enclosing: seq<Tag>)
      requires ValidSpec(spec) && |fields| <= U64_MAX && Derives(fields, index, run, spec, depth, enclosing)
      requires index + |FlatRun(run)| <= end <= |fields| && remaining == |run.entries|
      ensures Valid() && todo == run.entries && cursor == index + 1 && nextIndex == 0 && runEnd == index + |FlatRun(run)|
      ensures this.fields == fields && this.spec == spec && this.depth == depth
    {
      this.fields, this.spec, this.depth, this.end := fields, spec, depth, end;
      this.cursor, this.nextIndex, this.remaining := index + 1, 0, remaining;
      this.todo, this.runEnd := run.entries, index + |FlatRun(run)|;
      HoldsConcat(fields, index, [run.count], FlatEntries(run.entries));
    }

    /** Yields the next entry; each step scans one entry again, without checking it. */
    method Next() returns (entry: Option<GroupEntry>)
      requires Valid()
      modifies this`cursor, this`nextIndex, this`remaining, this`todo
      ensures Valid()
      ensures entry.None? <==> old(todo) == []
      ensures entry.None? ==> todo == [] && cursor == old(cursor) && nextIndex == old(nextIndex)
      ensures entry.Some? ==>
                && todo == old(todo)[1..]
                && Shows(entry.value, old(todo)[0])
                && entry.value.fields == fields[old(cursor)..cursor]
                && entry.value.spec == spec && entry.value.depth == depth
                && entry.value.index == old(nextIndex) && nextIndex == old(nextIndex) + 1
    {
      if todo != [] {
        ghost var at := EntriesStep(fields, cursor, runEnd, todo, spec, depth);
        EntryFound(fields, cursor, at, todo[0], spec, depth);
        ItemsFitWhenCut(todo[0].items, spec, TagAt(fields, at));
      }
      if cursor >= end {
        return None;
      }
      if remaining == 0 {
        return None;
      }
      var start := cursor;
      var stop := W.EntryEnd(fields, start, spec, depth);
      entry := Some(GroupEntry(fields[start..stop], spec, nextIndex, depth));
      cursor, nextIndex, remaining := stop, nextIndex + 1, remaining - 1;
      todo := todo[1..];
    }
  }

  /** The entries of a group nested in a checked entry: its own declared count bounds the iteration. */
  method Trusted(fields: seq<Field>, index: nat, spec: Spec, depth: nat, ghost run: Run, ghost enclosing: seq<Tag>)
    returns (entries: GroupEntries)
    requires ValidSpec(spec) && |fields| <= U64_MAX && Derives(fields, index, run, spec, depth, enclosing)
    ensures fresh(entries) && entries.Valid() && entries.todo == run.entries && entries.nextIndex == 0
    ensures entries.spec == spec && entries.depth == depth
  {
    HoldsHead(fields, index, FlatRun(run));
    var declared := ParseCount(fields[index].value);
    entries := new GroupEntries(fields, index, spec, depth, |fields|, if declared.Some? then declared.value else 0, run, enclosing);
  }

  lemma PositionStep(items: seq<Item>, k: nat)
    requires k < |items|
    ensures Position(items, k + 1) == Position(items, k) + |FlatItem(items[k])|
  {
    assert items[..k + 1] == items[..k] + [items[k]];
    FlatItemsConcat(items[..k], [items[k]]);
    FlatItemsCons(items[k], []);
    assert [items[k]] + [] == [items[k]];
  }

  /** The items of a checked entry from `k` on stand in its fields from `at` on. */
  ghost predicate StandFrom(entry: GroupEntry, tree: Entry, k: nat, at: nat, todo: seq<Item>) {
    && k <= |tree.items| && todo == tree.items[k..] && at == Position(tree.items, k) <= |entry.fields|
    && ItemsStand(entry.fields, 0, at, |entry.fields|, todo, entry.spec, entry.depth)
  }

  lemma EntryStands(entry: GroupEntry, tree: Entry)
    requires Shows(entry, tree)
    ensures StandFrom(entry, tree, 0, 0, tree.items)
  {
    assert tree.items[..0] == [] && tree.items[0..] == tree.items;
    assert entry.fields[0..|entry.fields|] == entry.fields;
  }

  /** The next item, and where it ends; the items run out exactly when the fields do. */
  lemma NextItem(entry: GroupEntry, tree: Entry, k: nat, at: nat, todo: seq<Item>) returns (stop: nat)
    requires StandFrom(entry, tree, k, at, todo)
    ensures k < |tree.items| <==> at < |entry.fields|
    ensures k < |tree.items| ==>
              && Holds(entry.fields, at, FlatItem(tree.items[k])) && stop == at + |FlatItem(tree.items[k])|
              && WellFormedItem(tree.items[k], entry.spec, entry.depth)
              && FitItem(tree.items[k], entry.spec, TagAt(entry.fields, stop))
              && entry.fields[at].tag == tree.items[k].Tag()
              && StandFrom(entry, tree, k + 1, stop, todo[1..])
  {
    stop := at;
    if k < |tree.items| {
      PositionStep(tree.items, k);
      stop := ItemsStep(entry.fields, 0, at, |entry.fields|, todo, entry.spec, entry.depth);
    }
  }

  /** With no nested group, every field of the entry stands at its own level. */
  method FindPlain(entry: GroupEntry, tag: Tag, ghost tree: Entry) returns (index: Option<nat>, ghost k: nat)
    requires Shows(entry, tree) && entry.spec.nested == []
    ensures index.None? ==> forall i :: 0 <= i < |tree.items| ==> tree.items[i].Tag() != tag
    ensures index.Some? ==> k < |tree.items| && tree.items[k].Tag() == tag
    ensures index.Some? ==> StandFrom(entry, tree, k, index.value, tree.items[k..])
  {
    k := 0;
    ghost var todo := tree.items;
    EntryStands(entry, tree);
    for at := 0 to |entry.fields|
      invariant StandFrom(entry, tree, k, at, todo)
      invariant forall i :: 0 <= i < k ==> tree.items[i].Tag() != tag
    {
      ghost var stop := NextItem(entry, tree, k, at, todo);
      if entry.fields[at].tag == tag {
        return Some(at), k;
      }
      k, todo := k + 1, todo[1..];
    }
    ghost var stop := NextItem(entry, tree, k, |entry.fields|, todo);
    return None, k;
  }

  /** Looks `tag` up at the entry's own level: nested runs are stepped over, unchecked. */
  method Find(entry: GroupEntry, tag: Tag, ghost tree: Entry) returns (index: Option<nat>, ghost k: nat)
    requires Shows(entry, tree)
    ensures index.None? ==> forall i :: 0 <= i < |tree.items| ==> tree.items[i].Tag() != tag
    ensures index.Some? ==> k < |tree.items| && tree.items[k].Tag() == tag
    ensures index.Some? ==> StandFrom(entry, tree, k, index.value, tree.items[k..])
  {
    if entry.spec.nested == [] {
      index, k := FindPlain(entry, tag, tree);
      return;
    }
    k := 0;
    ghost var todo := tree.items;
    EntryStands(entry, tree);
    var at := 0;
    while at < |entry.fields|
      invariant StandFrom(entry, tree, k, at, todo)
      invariant forall i :: 0 <= i < k ==> tree.items[i].Tag() != tag
      decreases |entry.fields| - at
    {
      ghost var stop := NextItem(entry, tree, k, at, todo);
      if entry.fields[at].tag == tag {
        return Some(at), k;
      }
      at := StepOver(entry, at, stop, tree.items[k]);
      k, todo := k + 1, todo[1..];
    }
    ghost var stop := NextItem(entry, tree, k, at, todo);
    return None, k;
  }

  /** Steps over one item of a checked entry; a nested run is walked with nobody listening. */
  method StepOver(entry: GroupEntry, at: nat, ghost stop: nat, ghost item: Item) returns (next: nat)
    requires ValidSpec(entry.spec) && |entry.fields| <= U64_MAX && at < |entry.fields|
    requires WellFormedItem(item, entry.spec, entry.depth) && FitItem(item, entry.spec, TagAt(entry.fields, stop))
    requires Holds(entry.fields, at, FlatItem(item)) && stop == at + |FlatItem(item)|
    ensures next == stop
  {
    ItemFound(entry.fields, at, stop, item, entry.spec, entry.depth);
    LookupIsValid(entry.spec.nested, entry.fields[at].tag);
    match Lookup(entry.spec.nested, entry.fields[at].tag) {
      case Some(nested) =>
        var visitor := new W.Visitor(W.Skip);
        next := W.WalkGroup(entry.fields, at, nested, entry.depth + 1, entry.spec.members, visitor);
      case None =>
        next := at + 1;
    }
  }

  /** The field `tag` at the entry's own level, never one of a nested group. */
  method Get(entry: GroupEntry, tag: Tag, ghost tree: Entry) returns (field: Option<Field>)
    requires Shows(entry, tree)
    ensures field.None? <==> forall i :: 0 <= i < |tree.items| ==> tree.items[i].Tag() != tag
    ensures field.Some? ==> exists i :: 0 <= i < |tree.items| && tree.items[i].Tag() == tag
                                        && FlatItem(tree.items[i])[0] == field.value
  {
    var index, k := Find(entry, tag, tree);
    if index.None? {
      return None;
    }
    ghost var stop := NextItem(entry, tree, k, index.value, tree.items[k..]);
    HoldsHead(entry.fields, index.value, FlatItem(tree.items[k]));
    return Some(entry.fields[index.value]);
  }

  /** The nested instance among an entry's items is derived where it stands. */
  lemma NestedDerives(entry: GroupEntry, tree: Entry, k: nat, at: nat, nested: Spec)
    requires k < |tree.items| && StandFrom(entry, tree, k, at, tree.items[k..])
    requires Lookup(entry.spec.nested, tree.items[k].Tag()) == Some(nested)
    ensures ValidSpec(nested) && tree.items[k].Nested?
    ensures Derives(entry.fields, at, tree.items[k].run, nested, entry.depth + 1, entry.spec.members)
  {
    var stop := NextItem(entry, tree, k, at, tree.items[k..]);
    LookupIsValid(entry.spec.nested, tree.items[k].Tag());
    ItemDerives(entry.fields, at, tree.items[k], entry.spec, nested, entry.depth);
  }

  lemma ItemDerives(fields: seq<Field>, at: nat, item: Item, g: Spec, nested: Spec, depth: nat)
    requires Holds(fields, at, FlatItem(item)) && WellFormedItem(item, g, depth)
    requires FitItem(item, g, TagAt(fields, at + |FlatItem(item)|)) && Lookup(g.nested, item.Tag()) == Some(nested)
    ensures item.Nested? && Derives(fields, at, item.run, nested, depth + 1, g.members)
  {
  }

  /**
   The group nested in a checked entry: recomputed on the entry's own fields, with no checking, it
   is the nested instance the checked walk found.
   */
  method ReadNested(entry: GroupEntry, countTag: Tag, ghost tree: Entry)
    returns (result: Result<Option<GroupEntries>, W.GroupError>)
    requires Shows(entry, tree)
    ensures Lookup(entry.spec.nested, countTag).None? ==> result == Err(W.NotInLayout(countTag))
    ensures Lookup(entry.spec.nested, countTag).Some? ==> result.Ok?
    ensures result.Ok? ==>
              (result.value.None? <==> forall i :: 0 <= i < |tree.items| ==> tree.items[i].Tag() != countTag)
    ensures result.Ok? && result.value.Some? ==>
              && fresh(result.value.value) && result.value.value.Valid()
              && result.value.value.nextIndex == 0 && result.value.value.depth == entry.depth + 1
              && Lookup(entry.spec.nested, countTag) == Some(result.value.value.spec)
              && exists i :: 0 <= i < |tree.items| && tree.items[i].Nested? && tree.items[i].Tag() == countTag
                             && result.value.value.todo == tree.items[i].run.entries
  {
    var nested := Lookup(entry.spec.nested, countTag);
    if nested.None? {
      return Err(W.NotInLayout(countTag));
    }
    var index, k := Find(entry, countTag, tree);
    if index.None? {
      return Ok(None);
    }
    NestedDerives(entry, tree, k, index.value, nested.value);
    var entries := Trusted(entry.fields, index.value, nested.value, entry.depth + 1, tree.items[k].run, entry.spec.members);
    return Ok(Some(entries));
  }

  /** The entries handed out so far, numbered on from `first`, show the first of `todo`. */
  ghost predicate HandedOut(all: seq<GroupEntry>, first: nat, todo: seq<Entry>) {
    |all| <= |todo| && forall i :: 0 <= i < |all| ==> all[i].index == first + i && Shows(all[i], todo[i])
  }

  lemma HandedOutNext(all: seq<GroupEntry>, last: GroupEntry, first: nat, todo: seq<Entry>)
    requires HandedOut(all, first, todo) && |all| < |todo| && last.index == first + |all| && Shows(last, todo[|all|..][0])
    ensures HandedOut(all + [last], first, todo) && todo[|all|..][1..] == todo[|all| + 1..]
  {
  }

  /** Drains an iterator: as many entries as were left, numbered on, contiguous and covering the run to its end. */
  method Collect(entries: GroupEntries) returns (all: seq<GroupEntry>)
    requires entries.Valid()
    modifies entries
    ensures entries.Valid() && entries.todo == [] && |all| == old(|entries.todo|)
    ensures HandedOut(all, old(entries.nextIndex), old(entries.todo))
    ensures Covered(all) == entries.fields[old(entries.cursor)..entries.runEnd]
  {
    all := [];
    ghost var todo, start, first := entries.todo, entries.cursor, entries.nextIndex;
    while true
      invariant entries.Valid() && |all| <= |todo| && entries.todo == todo[|all|..]
      invariant start <= entries.cursor && entries.nextIndex == first + |all|
      invariant HandedOut(all, first, todo)
      invariant Covered(all) == entries.fields[start..entries.cursor]
      decreases |entries.todo|
    {
      ghost var before := entries.cursor;
      var entry := entries.Next();
      if entry.None? {
        return;
      }
      SlicesJoin(entries.fields, start, before, entries.cursor);
      CoveredAppend(all, entry.value);
      HandedOutNext(all, entry.value, first, todo);
      all := all + [entry.value];
    }
  }

  ghost function Covered(all: seq<GroupEntry>): seq<Field> {
    if all == [] then [] else all[0].fields + Covered(all[1..])
  }

  lemma CoveredAppend(all: seq<GroupEntry>, last: GroupEntry)
    ensures Covered(all + [last]) == Covered(all) + last.fields
  {
    if all != [] {
      assert (all + [last])[1..] == all[1..] + [last];
      CoveredAppend(all[1..], last);
    } else {
      assert (all + [last])[1..] == [];
    }
  }
}
