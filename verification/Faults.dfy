/**
 The first fault of a run by position: which entry, which item, and what the error then says. Stated on
 trees through the grammar, without the order events are reported in.
 */
module Faults {
  import opened Wire
  import opened GroupSpecs
  import opened GroupTree
  import opened Grammar
  import opened GroupCheck
  import opened Verdict
  import opened Walk

  /** Every item before the `k`th is in order, and the `k`th is not. */
  ghost predicate IsFirstBad(items: seq<Item>, k: nat, g: Spec, depth: nat) {
    && k < |items| && !ItemInOrder(items, k, g, depth)
    && forall j :: 0 <= j < k ==> ItemInOrder(items, j, g, depth)
  }

  /** No earlier item of the entry stands under its tag, and what is nested in it is well-formed. */
  ghost predicate ItemInOrder(items: seq<Item>, k: nat, g: Spec, depth: nat)
    requires k < |items|
  {
    !Repeats(items, k) && WellFormedItem(items[k], g, depth)
  }

  predicate Repeats(items: seq<Item>, k: nat)
    requires k < |items|
  {
    exists j :: 0 <= j < k && items[j].Tag() == items[k].Tag()
  }

  /** The error names the first fault of the run. */
  ghost predicate FirstFault(run: Run, g: Spec, depth: nat, error: GroupError)
    decreases run, 2
  {
    var declared := CountValue(run.count.value);
    if depth > MAX_SCOPE_DEPTH then error == NestsTooDeep(g.countTag, MAX_SCOPE_DEPTH)
    else if declared.None? then error == BadCount(g.countTag)
    else if forall k :: 0 <= k < |run.entries| ==> WellFormedEntry(run.entries[k], g, depth) then
      declared.value != |run.entries| && error == WrongCount(g.countTag, declared.value, |run.entries|)
    else
      exists k :: 0 <= k < |run.entries| && !WellFormedEntry(run.entries[k], g, depth)
                  && (forall j :: 0 <= j < k ==> WellFormedEntry(run.entries[j], g, depth))
                  && EntryFault(run.entries[k], g, depth, error)
  }

  /** The error names the first fault of an entry. */
  ghost predicate EntryFault(entry: Entry, g: Spec, depth: nat, error: GroupError)
    decreases entry, 1
  {
    if entry.items != [] && entry.items[0].Tag() != g.delimiter then
      error == WrongDelimiter(g.countTag, g.delimiter, entry.items[0].Tag())
    else
      exists i :: IsFirstBad(entry.items, i, g, depth) && ItemFault(entry.items, i, g, depth, error)
  }

  ghost predicate ItemFault(items: seq<Item>, i: nat, g: Spec, depth: nat, error: GroupError)
    requires i < |items|
    decreases items, 0
  {
    if Repeats(items, i) then error == TagRepeated(g.countTag, items[i].Tag())
    else NestedFault(items[i], g, depth, error)
  }

  ghost predicate NestedFault(item: Item, g: Spec, depth: nat, error: GroupError)
    decreases item, 0
  {
    && item.Nested? && Lookup(g.nested, item.Tag()).Some?
    && FirstFault(item.run, Lookup(g.nested, item.Tag()).value, depth + 1, error)
  }

  // ----- the error a run reports is its first fault -----

  lemma {:induction false} RunErrorIsFirstFault(run: Run, g: Spec, depth: nat)
    requires Shaped(run, g, depth)
    ensures RunError(run, g, depth).None? <==> WellFormed(run, g, depth)
    ensures RunError(run, g, depth).Some? ==> FirstFault(run, g, depth, RunError(run, g, depth).value)
    decreases run, 3
  {
    if depth <= MAX_SCOPE_DEPTH {
      var k := EntriesFault(run.entries, g, depth);
      EntriesInOrder(run.entries, g, depth);
      if k == |run.entries| {
        WellFormedHasNoClash(run.entries, g, depth);
      }
    }
  }

  lemma EntriesInOrder(entries: seq<Entry>, g: Spec, depth: nat)
    ensures WellFormedEntries(entries, g, depth) <==> forall k :: 0 <= k < |entries| ==> WellFormedEntry(entries[k], g, depth)
  {
    if entries != [] {
      EntriesInOrder(entries[1..], g, depth);
      assert forall k :: 0 < k < |entries| ==> entries[k] == entries[1..][k - 1];
      assert forall k :: 0 <= k < |entries[1..]| ==> entries[1..][k] == entries[k + 1];
    }
  }

  /** The first entry out of order, or none, and the error it gives. */
  lemma {:induction false} EntriesFault(entries: seq<Entry>, g: Spec, depth: nat) returns (k: nat)
    requires ShapedEntries(entries, g, depth)
    ensures k <= |entries| && forall j :: 0 <= j < k ==> WellFormedEntry(entries[j], g, depth)
    ensures k < |entries| ==>
              && !WellFormedEntry(entries[k], g, depth)
              && EntriesError(entries, g, depth).Some? && EntryFault(entries[k], g, depth, EntriesError(entries, g, depth).value)
    ensures k == |entries| ==> EntriesError(entries, g, depth).None?
    decreases entries, 2
  {
    k := 0;
    if entries != [] {
      EntryErrorIsFault(entries[0], g, depth);
      if WellFormedEntry(entries[0], g, depth) {
        var rest := EntriesFault(entries[1..], g, depth);
        k := rest + 1;
        assert forall j :: 0 < j < k ==> entries[j] == entries[1..][j - 1];
      }
    }
  }

  lemma {:induction false} EntryErrorIsFault(entry: Entry, g: Spec, depth: nat)
    requires entry.items != [] && ShapedItems(entry.items, g, depth)
    ensures EntryError(entry, g, depth).None? <==> WellFormedEntry(entry, g, depth)
    ensures EntryError(entry, g, depth).Some? ==> EntryFault(entry, g, depth, EntryError(entry, g, depth).value)
    decreases entry, 1
  {
    if LedByDelimiter(entry, g) {
      var i := ItemsFault(entry.items, 0, {}, g, depth);
      assert entry.items[0..] == entry.items;
      ItemsInOrder(entry.items, g, depth);
    }
  }

  lemma ItemsInOrder(items: seq<Item>, g: Spec, depth: nat)
    ensures Distinct(items) && WellFormedItems(items, g, depth) <==> forall k :: 0 <= k < |items| ==> ItemInOrder(items, k, g, depth)
  {
    EachWellFormed(items, g, depth);
    if forall k :: 0 <= k < |items| ==> ItemInOrder(items, k, g, depth) {
      forall i, j | 0 <= i < j < |items| ensures items[i].Tag() != items[j].Tag() {
        assert ItemInOrder(items, j, g, depth) && !Repeats(items, j);
      }
      forall k | 0 <= k < |items| ensures WellFormedItem(items[k], g, depth) {
        assert ItemInOrder(items, k, g, depth);
      }
    } else if Distinct(items) {
      var k :| 0 <= k < |items| && !ItemInOrder(items, k, g, depth);
      assert !Repeats(items, k);
    }
  }

  lemma EachWellFormed(items: seq<Item>, g: Spec, depth: nat)
    ensures WellFormedItems(items, g, depth) <==> forall k :: 0 <= k < |items| ==> WellFormedItem(items[k], g, depth)
  {
    if items != [] {
      EachWellFormed(items[1..], g, depth);
      assert forall k :: 0 < k < |items| ==> items[k] == items[1..][k - 1];
      assert forall k :: 0 <= k < |items[1..]| ==> items[1..][k] == items[k + 1];
    }
  }

  /** The tags of the first `at` items. */
  ghost predicate SeenBefore(items: seq<Item>, at: nat, seen: set<Tag>)
    requires at <= |items|
  {
    forall t :: t in seen <==> exists j :: 0 <= j < at && items[j].Tag() == t
  }

  /** From item `at` on, the first item out of order, or none, and the error it gives. */
  lemma {:induction false} ItemsFault(items: seq<Item>, at: nat, seen: set<Tag>, g: Spec, depth: nat) returns (i: nat)
    requires at <= |items| && ShapedItems(items[at..], g, depth) && SeenBefore(items, at, seen)
    ensures at <= i <= |items| && forall j :: at <= j < i ==> ItemInOrder(items, j, g, depth)
    ensures i < |items| ==>
              && !ItemInOrder(items, i, g, depth)
              && ItemsError(items[at..], seen, g, depth).Some?
              && ItemFault(items, i, g, depth, ItemsError(items[at..], seen, g, depth).value)
    ensures i == |items| ==> ItemsError(items[at..], seen, g, depth).None?
    decreases items[at..], 0
  {
    i := at;
    if at < |items| {
      assert items[at..][0] == items[at] && items[at..][1..] == items[at + 1..];
      ItemErrorIsFault(items[at], g, depth);
      if ItemInOrder(items, at, g, depth) {
        i := ItemsFault(items, at + 1, seen + {items[at].Tag()}, g, depth);
      }
    }
  }

  lemma {:induction false} ItemErrorIsFault(item: Item, g: Spec, depth: nat)
    requires ShapedItem(item, g, depth)
    ensures ItemError(item, g, depth).None? <==> WellFormedItem(item, g, depth)
    ensures ItemError(item, g, depth).Some? ==> NestedFault(item, g, depth, ItemError(item, g, depth).value)
    decreases item, 0
  {
    if item.Nested? {
      RunErrorIsFirstFault(item.run, Lookup(g.nested, item.Tag()).value, depth + 1);
    }
  }

  // ----- the first group past the depth limit, by position -----

  ghost predicate HasDeep(run: Run, g: Spec, depth: nat)
    decreases run, 1
  {
    depth > MAX_SCOPE_DEPTH
    || exists k :: 0 <= k < |run.entries| && EntryHasDeep(run.entries[k], g, depth)
  }

  ghost predicate EntryHasDeep(entry: Entry, g: Spec, depth: nat)
    decreases entry, 1
  {
    exists i :: 0 <= i < |entry.items| && ItemHasDeep(entry.items[i], g.nested, depth)
  }

  ghost predicate ItemHasDeep(item: Item, groups: seq<Spec>, depth: nat)
    decreases item, 0
  {
    item.Nested? && Lookup(groups, item.Tag()).Some? && HasDeep(item.run, Lookup(groups, item.Tag()).value, depth + 1)
  }

  /** `tag` is the count tag of the first group past the depth limit. */
  ghost predicate FirstDeep(run: Run, g: Spec, depth: nat, tag: Tag)
    decreases run, 2
  {
    if depth > MAX_SCOPE_DEPTH then tag == g.countTag
    else
      exists k :: 0 <= k < |run.entries| && (forall j :: 0 <= j < k ==> !EntryHasDeep(run.entries[j], g, depth))
                  && EntryFirstDeep(run.entries[k], g, depth, tag)
  }

  ghost predicate EntryFirstDeep(entry: Entry, g: Spec, depth: nat, tag: Tag)
    decreases entry, 1
  {
    exists i :: 0 <= i < |entry.items| && (forall j :: 0 <= j < i ==> !ItemHasDeep(entry.items[j], g.nested, depth))
                && ItemFirstDeep(entry.items[i], g.nested, depth, tag)
  }

  ghost predicate ItemFirstDeep(item: Item, groups: seq<Spec>, depth: nat, tag: Tag)
    decreases item, 0
  {
    item.Nested? && Lookup(groups, item.Tag()).Some? && FirstDeep(item.run, Lookup(groups, item.Tag()).value, depth + 1, tag)
  }

  lemma {:induction false} DeepRunIsFirstDeep(run: Run, g: Spec, depth: nat)
    ensures DeepRun(run, g, depth).Some? <==> HasDeep(run, g, depth)
    ensures DeepRun(run, g, depth).Some? ==> FirstDeep(run, g, depth, DeepRun(run, g, depth).value)
    decreases run, 3
  {
    if depth <= MAX_SCOPE_DEPTH {
      var k := DeepEntriesByPosition(run.entries, g, depth);
      assert k < |run.entries| ==> EntryHasDeep(run.entries[k], g, depth);
    }
  }

  lemma {:induction false} DeepEntriesByPosition(entries: seq<Entry>, g: Spec, depth: nat) returns (k: nat)
    ensures k <= |entries| && forall j :: 0 <= j < k ==> !EntryHasDeep(entries[j], g, depth)
    ensures k < |entries| ==>
              && EntryHasDeep(entries[k], g, depth)
              && DeepEntries(entries, g, depth).Some? && EntryFirstDeep(entries[k], g, depth, DeepEntries(entries, g, depth).value)
    ensures k == |entries| ==> DeepEntries(entries, g, depth).None?
    decreases entries, 2
  {
    k := 0;
    if entries != [] {
      DeepEntryByPosition(entries[0], g, depth);
      if !EntryHasDeep(entries[0], g, depth) {
        var rest := DeepEntriesByPosition(entries[1..], g, depth);
        k := rest + 1;
        assert forall j :: 0 < j < k ==> entries[j] == entries[1..][j - 1];
      }
    }
  }

  lemma {:induction false} DeepEntryByPosition(entry: Entry, g: Spec, depth: nat)
    ensures DeepEntry(entry, g, depth).Some? <==> EntryHasDeep(entry, g, depth)
    ensures DeepEntry(entry, g, depth).Some? ==> EntryFirstDeep(entry, g, depth, DeepEntry(entry, g, depth).value)
    decreases entry, 1
  {
    var i := DeepItemsByPosition(entry.items, g, depth);
    assert i < |entry.items| ==> ItemHasDeep(entry.items[i], g.nested, depth);
  }

  lemma {:induction false} DeepItemsByPosition(items: seq<Item>, g: Spec, depth: nat) returns (i: nat)
    ensures i <= |items| && forall j :: 0 <= j < i ==> !ItemHasDeep(items[j], g.nested, depth)
    ensures i < |items| ==>
              && ItemHasDeep(items[i], g.nested, depth)
              && DeepItems(items, g, depth).Some? && ItemFirstDeep(items[i], g.nested, depth, DeepItems(items, g, depth).value)
    ensures i == |items| ==> DeepItems(items, g, depth).None?
    decreases items, 1
  {
    i := 0;
    if items != [] {
      if items[0].Nested? && Lookup(g.nested, items[0].Tag()).Some? {
        DeepItemByPosition(items[0], Lookup(g.nested, items[0].Tag()).value, depth);
      }
      if !ItemHasDeep(items[0], g.nested, depth) {
        var rest := DeepItemsByPosition(items[1..], g, depth);
        i := rest + 1;
        assert forall j :: 0 < j < i ==> items[j] == items[1..][j - 1];
      }
    }
  }

  lemma {:induction false} DeepItemByPosition(item: Item, nested: Spec, depth: nat)
    requires item.Nested?
    ensures DeepRun(item.run, nested, depth + 1).Some? <==> HasDeep(item.run, nested, depth + 1)
    ensures DeepRun(item.run, nested, depth + 1).Some? ==>
              FirstDeep(item.run, nested, depth + 1, DeepRun(item.run, nested, depth + 1).value)
    decreases item, 0
  {
    DeepRunIsFirstDeep(item.run, nested, depth + 1);
  }
}
