/**
 Where a run and its entries begin and end, malformed ones included, stated on the tree and on the tag
 that follows it. The walk finds exactly the tree so described.
 */
module Boundaries {
  import opened Wire
  import opened GroupSpecs
  import opened GroupTree
  import opened Grammar
  import GroupCheck

  /**
   A group past the depth limit is its count field alone. Otherwise its entries follow the count, and what
   follows them is no member of the group, unless the enclosing scope takes it back.
   */
  ghost predicate Bounded(run: Run, g: Spec, depth: nat, enclosing: seq<Tag>, follow: Option<Tag>)
    decreases run, 3
  {
    if depth > MAX_SCOPE_DEPTH then run.entries == []
    else BoundedEntries(run.entries, 0, CountValue(run.count.value), g, depth, enclosing, follow)
  }

  /** `k` entries stand ahead of these. */
  ghost predicate BoundedEntries(entries: seq<Entry>, k: nat, declared: Option<nat>, g: Spec, depth: nat, enclosing: seq<Tag>,
                                 follow: Option<Tag>)
    decreases entries, 2
  {
    if entries == [] then
      follow.Some? && follow.value in g.members ==>
        declared == Some(k) && follow.value in enclosing && (k == 0 || follow.value == g.delimiter)
    else
      && Begins(entries[0], k, declared, g, enclosing)
      && BoundedEntry(entries[0], g, depth, LeadingTag(FlatEntries(entries[1..]), follow))
      && BoundedEntries(entries[1..], k + 1, declared, g, depth, enclosing, follow)
  }

  /**
   An entry begins at the delimiter, the first one perhaps at another member; never at a tag of the enclosing
   scope once the group holds the entries it declares.
   */
  ghost predicate Begins(entry: Entry, k: nat, declared: Option<nat>, g: Spec, enclosing: seq<Tag>) {
    && entry.items != []
    && (k == 0 || entry.items[0].Tag() == g.delimiter)
    && (declared == Some(k) ==> entry.items[0].Tag() !in enclosing)
  }

  /** Only the first item of an entry stands under the delimiter. */
  ghost predicate BoundedEntry(entry: Entry, g: Spec, depth: nat, follow: Option<Tag>)
    decreases entry, 1
  {
    && (forall i :: 0 < i < |entry.items| ==> entry.items[i].Tag() != g.delimiter)
    && BoundedItems(entry.items, g, depth, follow)
  }

  ghost predicate BoundedItems(items: seq<Item>, g: Spec, depth: nat, follow: Option<Tag>)
    decreases items, 1
  {
    items != [] ==>
      && BoundedItem(items[0], g, depth, LeadingTag(FlatItems(items[1..]), follow))
      && BoundedItems(items[1..], g, depth, follow)
  }

  /** A member: a field or, under the count tag of a nested group, a run whose enclosing scope is this entry. */
  ghost predicate BoundedItem(item: Item, g: Spec, depth: nat, follow: Option<Tag>)
    decreases item, 1
  {
    && item.Tag() in g.members
    && match Lookup(g.nested, item.Tag())
       case None => item.Plain?
       case Some(nested) => item.Nested? && Bounded(item.run, nested, depth + 1, g.members, follow)
  }

  // ----- every walk is bounded so -----

  lemma {:induction false} WalkIsBounded(fields: seq<Field>, index: nat, g: Spec, depth: nat, enclosing: seq<Tag>)
    requires index < |fields| <= U64_MAX && ValidSpec(g)
    ensures var w := WalkGroup(fields, index, g, depth, enclosing);
            Bounded(Run(fields[index], w.tree), g, depth, enclosing, TagAt(fields, w.end))
    decreases |fields| - index, 0
  {
    if depth <= MAX_SCOPE_DEPTH {
      var declared := CountValue(fields[index].value);
      if LeadsWithoutDelimiter(fields, index + 1, g, declared, enclosing) {
        GroupCheck.ScanStartsAt(fields, index + 1, g, depth);
        var first, rest, all := EntryJoins(fields, index + 1, g, depth, declared, enclosing, 0);
      } else {
        EntriesAreBounded(fields, index + 1, g, depth, declared, enclosing, 0);
      }
    }
  }

  lemma {:induction false} ScannedIsBounded(fields: seq<Field>, cursor: nat, first: Walked<seq<Item>>, g: Spec, depth: nat)
    requires cursor < |fields| <= U64_MAX && ValidSpec(g) && fields[cursor].tag in g.members
    requires first == ScanEntry(fields, cursor, cursor, g, depth)
    ensures cursor < first.end && BoundedEntry(Entry(first.tree), g, depth, TagAt(fields, first.end))
    ensures Halts(cursor, first.end, g, TagAt(fields, first.end))
    decreases |fields| - cursor, 4
  {
    ScanIsBounded(fields, cursor, cursor, g, depth);
  }

  /** The entry scanned here, put ahead of the entries walked behind it. */
  lemma {:induction false} EntryJoins(fields: seq<Field>, cursor: nat, g: Spec, depth: nat, declared: Option<nat>,
                                      enclosing: seq<Tag>, count: nat)
    returns (first: Walked<seq<Item>>, rest: Walked<seq<Entry>>, all: seq<Entry>)
    requires count < cursor < |fields| <= U64_MAX && ValidSpec(g) && fields[cursor].tag in g.members
    requires Begins(Entry(ScanEntry(fields, cursor, cursor, g, depth).tree), count, declared, g, enclosing)
    ensures first == ScanEntry(fields, cursor, cursor, g, depth)
    ensures rest == WalkEntries(fields, first.end, g, depth, declared, enclosing, count + 1)
    ensures all == [Entry(first.tree)] + rest.tree
    ensures BoundedEntries(all, count, declared, g, depth, enclosing, TagAt(fields, rest.end))
    decreases |fields| - cursor, 5
  {
    first := ScanEntry(fields, cursor, cursor, g, depth);
    rest := WalkEntries(fields, first.end, g, depth, declared, enclosing, count + 1);
    ScannedIsBounded(fields, cursor, first, g, depth);
    EntriesBehindAreBounded(fields, first.end, rest, g, depth, declared, enclosing, count + 1);
    all := BoundedCons(Entry(first.tree), rest.tree, count, declared, g, depth, enclosing, TagAt(fields, rest.end));
  }

  lemma {:induction false} EntriesBehindAreBounded(fields: seq<Field>, cursor: nat, rest: Walked<seq<Entry>>, g: Spec, depth: nat,
                                            declared: Option<nat>, enclosing: seq<Tag>, count: nat)
    requires 0 < count < cursor <= |fields| <= U64_MAX && ValidSpec(g)
    requires cursor < |fields| && fields[cursor].tag in g.members ==> fields[cursor].tag == g.delimiter
    requires rest == WalkEntries(fields, cursor, g, depth, declared, enclosing, count)
    ensures BoundedEntries(rest.tree, count, declared, g, depth, enclosing, TagAt(fields, rest.end))
    ensures LeadingTag(FlatEntries(rest.tree), TagAt(fields, rest.end)) == TagAt(fields, cursor)
    decreases |fields| - cursor, 7
  {
    EntriesAreBounded(fields, cursor, g, depth, declared, enclosing, count);
    FlatRestFollows(fields, cursor, g, depth, declared, enclosing, count);
  }

  /** What follows an entry is the first field of the entries behind it, or what follows those. */
  lemma FlatRestFollows(fields: seq<Field>, cursor: nat, g: Spec, depth: nat, declared: Option<nat>, enclosing: seq<Tag>, count: nat)
    requires cursor <= |fields| && ValidSpec(g)
    ensures var w := WalkEntries(fields, cursor, g, depth, declared, enclosing, count);
            LeadingTag(FlatEntries(w.tree), TagAt(fields, w.end)) == TagAt(fields, cursor)
  {
    var w := WalkEntries(fields, cursor, g, depth, declared, enclosing, count);
    EntriesPartition(fields, cursor, g, depth, declared, enclosing, count);
    LeadingTagAt(fields, cursor, FlatEntries(w.tree));
  }

  lemma BoundedCons(first: Entry, rest: seq<Entry>, k: nat, declared: Option<nat>, g: Spec, depth: nat, enclosing: seq<Tag>,
                    follow: Option<Tag>) returns (all: seq<Entry>)
    requires Begins(first, k, declared, g, enclosing) && BoundedEntry(first, g, depth, LeadingTag(FlatEntries(rest), follow))
    requires BoundedEntries(rest, k + 1, declared, g, depth, enclosing, follow)
    ensures all == [first] + rest && BoundedEntries(all, k, declared, g, depth, enclosing, follow)
  {
    all := [first] + rest;
    assert all[1..] == rest;
  }

  lemma {:induction false} EntriesAreBounded(fields: seq<Field>, cursor: nat, g: Spec, depth: nat, declared: Option<nat>,
                                             enclosing: seq<Tag>, count: nat)
    requires count < cursor <= |fields| <= U64_MAX && ValidSpec(g)
    requires count == 0 ==> !LeadsWithoutDelimiter(fields, cursor, g, declared, enclosing)
    requires 0 < count && cursor < |fields| && fields[cursor].tag in g.members ==> fields[cursor].tag == g.delimiter
    ensures var w := WalkEntries(fields, cursor, g, depth, declared, enclosing, count);
            BoundedEntries(w.tree, count, declared, g, depth, enclosing, TagAt(fields, w.end))
    decreases |fields| - cursor, 6
  {
    if OpensEntry(fields, cursor, g, declared, enclosing, count) {
      GroupCheck.ScanStartsAt(fields, cursor, g, depth);
      var first, rest, all := EntryJoins(fields, cursor, g, depth, declared, enclosing, count);
    }
  }

  lemma {:induction false} ScanIsBounded(fields: seq<Field>, start: nat, cursor: nat, g: Spec, depth: nat)
    requires start <= cursor <= |fields| <= U64_MAX && ValidSpec(g)
    ensures var w := ScanEntry(fields, start, cursor, g, depth);
            && BoundedItems(w.tree, g, depth, TagAt(fields, w.end))
            && Halts(start, w.end, g, TagAt(fields, w.end))
            && forall i :: 0 <= i < |w.tree| && (start < cursor || 0 < i) ==> w.tree[i].Tag() != g.delimiter
    decreases |fields| - cursor, 3
  {
    if ContinuesEntry(fields, start, cursor, g) {
      LookupIsValid(g.nested, fields[cursor].tag);
      match Lookup(g.nested, fields[cursor].tag)
      case Some(nested) =>
        var inner := WalkGroup(fields, cursor, nested, depth + 1, g.members);
        WalkIsBounded(fields, cursor, nested, depth + 1, g.members);
        RestIsBounded(fields, start, inner.end, Nested(Run(fields[cursor], inner.tree)), g, depth);
      case None =>
        RestIsBounded(fields, start, cursor + 1, Plain(fields[cursor]), g, depth);
    }
  }

  lemma {:induction false} RestIsBounded(fields: seq<Field>, start: nat, next: nat, item: Item, g: Spec, depth: nat)
    requires start < next <= |fields| <= U64_MAX && ValidSpec(g) && BoundedItem(item, g, depth, TagAt(fields, next))
    ensures var w := ScanEntry(fields, start, next, g, depth);
            && BoundedItems([item] + w.tree, g, depth, TagAt(fields, w.end))
            && Halts(start, w.end, g, TagAt(fields, w.end))
            && forall i :: 0 < i < |w.tree| + 1 ==> ([item] + w.tree)[i].Tag() != g.delimiter
    decreases |fields| - next, 4
  {
    var rest := ScanEntry(fields, start, next, g, depth);
    ScanIsBounded(fields, start, next, g, depth);
    ScanPartitions(fields, start, next, g, depth);
    LeadingTagAt(fields, next, FlatItems(rest.tree));
    assert ([item] + rest.tree)[1..] == rest.tree;
  }

  // ----- and only the walk's tree is -----

  lemma {:induction false} BoundedIsWalked(fields: seq<Field>, index: nat, run: Run, g: Spec, depth: nat, enclosing: seq<Tag>)
    requires ValidSpec(g) && |fields| <= U64_MAX && Holds(fields, index, FlatRun(run))
    requires Bounded(run, g, depth, enclosing, TagAt(fields, index + |FlatRun(run)|))
    ensures WalkGroup(fields, index, g, depth, enclosing) == Walked(index + |FlatRun(run)|, run.entries)
    decreases run, 3
  {
    HoldsConcat(fields, index, [run.count], FlatEntries(run.entries));
    HoldsHead(fields, index, FlatRun(run));
    if depth <= MAX_SCOPE_DEPTH {
      var declared := CountValue(run.count.value);
      if run.entries != [] && !LedByDelimiter(run.entries[0], g) {
        LeadIsWalked(fields, index + 1, run.entries, declared, g, depth, enclosing);
      } else {
        EntriesAreWalked(fields, index + 1, run.entries, 0, declared, g, depth, enclosing);
        StartsWithItems(fields, index + 1, run.entries);
      }
    }
  }

  /** The first field of the entries is their first item's, if they have one. */
  lemma StartsWithItems(fields: seq<Field>, cursor: nat, entries: seq<Entry>)
    requires Holds(fields, cursor, FlatEntries(entries))
    ensures entries != [] && entries[0].items != [] ==>
              cursor < |fields| && fields[cursor].tag == entries[0].items[0].Tag()
  {
    if entries != [] && entries[0].items != [] {
      HoldsHead(fields, cursor, FlatEntries(entries));
    }
  }

  lemma LeadIsMember(entries: seq<Entry>, k: nat, declared: Option<nat>, g: Spec, depth: nat, enclosing: seq<Tag>, follow: Option<Tag>)
    requires entries != [] && BoundedEntries(entries, k, declared, g, depth, enclosing, follow)
    ensures entries[0].items != [] && entries[0].items[0].Tag() in g.members
  {
    FirstIsMember(entries[0].items, g, depth, LeadingTag(FlatEntries(entries[1..]), follow));
  }

  lemma FirstIsMember(items: seq<Item>, g: Spec, depth: nat, follow: Option<Tag>)
    requires items != [] && BoundedItems(items, g, depth, follow)
    ensures items[0].Tag() in g.members
  {
    assert BoundedItem(items[0], g, depth, LeadingTag(FlatItems(items[1..]), follow));
  }

  lemma {:induction false} LeadIsWalked(fields: seq<Field>, cursor: nat, entries: seq<Entry>, declared: Option<nat>, g: Spec,
                                        depth: nat, enclosing: seq<Tag>)
    requires ValidSpec(g) && 0 < cursor && |fields| <= U64_MAX && Holds(fields, cursor, FlatEntries(entries))
    requires entries != [] && !LedByDelimiter(entries[0], g)
    requires BoundedEntries(entries, 0, declared, g, depth, enclosing, TagAt(fields, cursor + |FlatEntries(entries)|))
    ensures LeadsWithoutDelimiter(fields, cursor, g, declared, enclosing)
    ensures var first := ScanEntry(fields, cursor, cursor, g, depth);
            var rest := WalkEntries(fields, first.end, g, depth, declared, enclosing, 1);
            rest.end == cursor + |FlatEntries(entries)| && [Entry(first.tree)] + rest.tree == entries
    decreases entries, 3
  {
    StartsWithItems(fields, cursor, entries);
    LeadIsMember(entries, 0, declared, g, depth, enclosing, TagAt(fields, cursor + |FlatEntries(entries)|));
    var at := FirstIsWalked(fields, cursor, entries, 0, declared, g, depth, enclosing);
    EntriesAreWalked(fields, at, entries[1..], 1, declared, g, depth, enclosing);
    assert [Entry(entries[0].items)] + entries[1..] == entries;
  }

  /** The first entry is the one scanned, and the rest stand behind it. */
  lemma {:induction false} FirstIsWalked(fields: seq<Field>, cursor: nat, entries: seq<Entry>, k: nat, declared: Option<nat>, g: Spec,
                                         depth: nat, enclosing: seq<Tag>) returns (at: nat)
    requires ValidSpec(g) && |fields| <= U64_MAX && Holds(fields, cursor, FlatEntries(entries)) && entries != []
    requires BoundedEntries(entries, k, declared, g, depth, enclosing, TagAt(fields, cursor + |FlatEntries(entries)|))
    ensures cursor < at <= |fields| && ScanEntry(fields, cursor, cursor, g, depth) == Walked(at, entries[0].items)
    ensures Holds(fields, at, FlatEntries(entries[1..])) && at + |FlatEntries(entries[1..])| == cursor + |FlatEntries(entries)|
    decreases entries, 2
  {
    at := EntrySplit(fields, cursor, entries, k, declared, g, depth, enclosing);
    ItemsAreWalked(fields, cursor, cursor, entries[0].items, g, depth);
  }

  lemma EntrySplit(fields: seq<Field>, cursor: nat, entries: seq<Entry>, k: nat, declared: Option<nat>, g: Spec,
                   depth: nat, enclosing: seq<Tag>) returns (at: nat)
    requires ValidSpec(g) && |fields| <= U64_MAX && Holds(fields, cursor, FlatEntries(entries)) && entries != []
    requires BoundedEntries(entries, k, declared, g, depth, enclosing, TagAt(fields, cursor + |FlatEntries(entries)|))
    ensures cursor < at <= |fields| && at == cursor + |FlatItems(entries[0].items)|
    ensures ItemsStandBounded(fields, cursor, cursor, entries[0].items, g, depth)
    ensures Holds(fields, at, FlatEntries(entries[1..])) && at + |FlatEntries(entries[1..])| == cursor + |FlatEntries(entries)|
  {
    var head, tail := FlatItems(entries[0].items), FlatEntries(entries[1..]);
    at := cursor + |head|;
    HoldsConcat(fields, cursor, head, tail);
    LeadingTagAt(fields, at, tail);
    StartsWithItems(fields, at, entries[1..]);
    assert BoundedEntry(entries[0], g, depth, TagAt(fields, at));
    RestBegins(entries, k, declared, g, depth, enclosing, TagAt(fields, at + |tail|));
    assert Halts(cursor, at, g, TagAt(fields, at));
  }

  /** Behind an entry stands another's delimiter, or the end of the run. */
  lemma RestBegins(entries: seq<Entry>, k: nat, declared: Option<nat>, g: Spec, depth: nat, enclosing: seq<Tag>, follow: Option<Tag>)
    requires entries != [] && BoundedEntries(entries, k, declared, g, depth, enclosing, follow)
    ensures |entries| > 1 ==> entries[1].items != [] && entries[1].items[0].Tag() == g.delimiter
    ensures |entries| == 1 ==> (follow.Some? && follow.value in g.members ==> follow.value == g.delimiter)
  {
    var rest := entries[1..];
    assert BoundedEntries(rest, k + 1, declared, g, depth, enclosing, follow);
    if rest != [] {
      assert Begins(rest[0], k + 1, declared, g, enclosing);
    }
  }

  lemma {:induction false} EntriesAreWalked(fields: seq<Field>, cursor: nat, entries: seq<Entry>, k: nat, declared: Option<nat>, g: Spec,
                                            depth: nat, enclosing: seq<Tag>)
    requires ValidSpec(g) && k < cursor && |fields| <= U64_MAX && Holds(fields, cursor, FlatEntries(entries))
    requires BoundedEntries(entries, k, declared, g, depth, enclosing, TagAt(fields, cursor + |FlatEntries(entries)|))
    requires entries != [] ==> LedByDelimiter(entries[0], g) || k > 0
    ensures WalkEntries(fields, cursor, g, depth, declared, enclosing, k) == Walked(cursor + |FlatEntries(entries)|, entries)
    decreases entries, 3
  {
    if entries != [] {
      StartsWithItems(fields, cursor, entries);
      var at := FirstIsWalked(fields, cursor, entries, k, declared, g, depth, enclosing);
      EntriesAreWalked(fields, at, entries[1..], k + 1, declared, g, depth, enclosing);
      LeadIsMember(entries, k, declared, g, depth, enclosing, TagAt(fields, cursor + |FlatEntries(entries)|));
      EntriesJoin(fields, cursor, at, cursor + |FlatEntries(entries)|, entries, g, depth, declared, enclosing, k);
    }
  }

  /** Bounded items standing from `cursor` on, of the entry that began at `start`. */
  ghost predicate ItemsStandBounded(fields: seq<Field>, start: nat, cursor: nat, items: seq<Item>, g: Spec, depth: nat) {
    var end := cursor + |FlatItems(items)|;
    && ValidSpec(g) && start <= cursor && |fields| <= U64_MAX && Holds(fields, cursor, FlatItems(items))
    && (forall i :: 0 <= i < |items| && (start < cursor || 0 < i) ==> items[i].Tag() != g.delimiter)
    && BoundedItems(items, g, depth, TagAt(fields, end)) && Halts(start, end, g, TagAt(fields, end))
  }

  lemma ItemsSplit(fields: seq<Field>, start: nat, cursor: nat, items: seq<Item>, g: Spec, depth: nat) returns (at: nat)
    requires ItemsStandBounded(fields, start, cursor, items, g, depth) && items != []
    ensures cursor < at == cursor + |FlatItem(items[0])| && at + |FlatItems(items[1..])| == cursor + |FlatItems(items)|
    ensures Holds(fields, cursor, FlatItem(items[0])) && BoundedItem(items[0], g, depth, TagAt(fields, at))
    ensures ItemsStandBounded(fields, start, at, items[1..], g, depth)
    ensures fields[cursor].tag == items[0].Tag() && ContinuesEntry(fields, start, cursor, g)
  {
    var head, tail := FlatItem(items[0]), FlatItems(items[1..]);
    at := cursor + |head|;
    HoldsConcat(fields, cursor, head, tail);
    HoldsHead(fields, cursor, head);
    LeadingTagAt(fields, at, tail);
  }

  lemma {:induction false} ItemsAreWalked(fields: seq<Field>, start: nat, cursor: nat, items: seq<Item>, g: Spec, depth: nat)
    requires ItemsStandBounded(fields, start, cursor, items, g, depth)
    ensures ScanEntry(fields, start, cursor, g, depth) == Walked(cursor + |FlatItems(items)|, items)
    decreases items, 1
  {
    if items != [] {
      var at := ItemsSplit(fields, start, cursor, items, g, depth);
      ItemIsWalked(fields, cursor, items[0], g, depth);
      ItemsAreWalked(fields, start, at, items[1..], g, depth);
      ItemsJoin(fields, start, cursor, at, at + |FlatItems(items[1..])|, items, g, depth);
    }
  }

  lemma {:induction false} ItemIsWalked(fields: seq<Field>, cursor: nat, item: Item, g: Spec, depth: nat)
    requires ValidSpec(g) && |fields| <= U64_MAX && Holds(fields, cursor, FlatItem(item))
    requires BoundedItem(item, g, depth, TagAt(fields, cursor + |FlatItem(item)|))
    ensures cursor < |fields| && ReadsItem(fields, cursor, cursor + |FlatItem(item)|, item, g, depth)
    decreases item, 4
  {
    HoldsHead(fields, cursor, FlatItem(item));
    LookupIsValid(g.nested, item.Tag());
    if item.Nested? {
      BoundedIsWalked(fields, cursor, item.run, Lookup(g.nested, item.Tag()).value, depth + 1, g.members);
    }
  }

  // ----- main results -----

  /** The run a walk finds, and where it ends, are exactly those that are bounded by what follows. */
  lemma WalkedExactly(fields: seq<Field>, index: nat, g: Spec, depth: nat, enclosing: seq<Tag>, entries: seq<Entry>, end: nat)
    requires index < |fields| <= U64_MAX && ValidSpec(g)
    ensures WalkGroup(fields, index, g, depth, enclosing) == Walked(end, entries) <==>
              var run := Run(fields[index], entries);
              && Holds(fields, index, FlatRun(run)) && end == index + |FlatRun(run)|
              && Bounded(run, g, depth, enclosing, TagAt(fields, end))
  {
    var w, run := WalkGroup(fields, index, g, depth, enclosing), Run(fields[index], entries);
    if w == Walked(end, entries) {
      WalkPartitions(fields, index, g, depth, enclosing);
      WalkIsBounded(fields, index, g, depth, enclosing);
    } else if Holds(fields, index, FlatRun(run)) && end == index + |FlatRun(run)| && Bounded(run, g, depth, enclosing, TagAt(fields, end)) {
      BoundedIsWalked(fields, index, run, g, depth, enclosing);
    }
  }

  /**
   Behind a run within the depth limit, well-formed or not, a member of the group stands only where the
   enclosing scope takes it back: the group holds the entries it declares, and the member is its delimiter or
   the group is empty. Every entry after the first begins at the delimiter.
   */
  lemma RunEnds(fields: seq<Field>, index: nat, g: Spec, depth: nat, enclosing: seq<Tag>)
    requires index < |fields| <= U64_MAX && ValidSpec(g) && depth <= MAX_SCOPE_DEPTH
    ensures var w := WalkGroup(fields, index, g, depth, enclosing);
            && (w.end < |fields| && fields[w.end].tag in g.members ==>
                  && fields[w.end].tag in enclosing
                  && CountValue(fields[index].value) == Some(|w.tree|)
                  && (w.tree == [] || fields[w.end].tag == g.delimiter))
            && forall k :: 0 < k < |w.tree| ==> w.tree[k].items != [] && w.tree[k].items[0].Tag() == g.delimiter
  {
    var w := WalkGroup(fields, index, g, depth, enclosing);
    WalkIsBounded(fields, index, g, depth, enclosing);
    BoundedEnd(w.tree, 0, CountValue(fields[index].value), g, depth, enclosing, TagAt(fields, w.end));
  }

  lemma {:induction false} BoundedEnd(entries: seq<Entry>, k: nat, declared: Option<nat>, g: Spec, depth: nat, enclosing: seq<Tag>,
                                      follow: Option<Tag>)
    requires BoundedEntries(entries, k, declared, g, depth, enclosing, follow)
    ensures follow.Some? && follow.value in g.members ==>
              && follow.value in enclosing && declared == Some(k + |entries|)
              && (k + |entries| == 0 || follow.value == g.delimiter)
    ensures forall i :: 0 <= i < |entries| && 0 < k + i ==> entries[i].items != [] && entries[i].items[0].Tag() == g.delimiter
  {
    if entries != [] {
      BoundedEnd(entries[1..], k + 1, declared, g, depth, enclosing, follow);
      forall i | 0 <= i < |entries| && 0 < k + i ensures entries[i].items != [] && entries[i].items[0].Tag() == g.delimiter {
        assert i > 0 ==> entries[i] == entries[1..][i - 1];
      }
    }
  }
}
