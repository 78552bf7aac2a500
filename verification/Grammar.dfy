/**
 What a well-formed group instance is, stated on trees alone, and the agreement of that grammar
 with the walk: the check passes on exactly the runs the grammar derives, and the tree of a
 derived run is the one the walk finds.
 */
module Grammar {
  import opened Wire
  import opened GroupSpecs
  import opened GroupTree

  // ----- the grammar -----

  /** The structural rules of an instance: count, delimiters, members, no repeated tag, nested instances, depth. */
  ghost predicate WellFormed(run: Run, g: Spec, depth: nat) {
    && depth <= MAX_SCOPE_DEPTH
    && CountValue(run.count.value) == Some(|run.entries|)
    && WellFormedEntries(run.entries, g, depth)
  }

  ghost predicate WellFormedEntries(entries: seq<Entry>, g: Spec, depth: nat) {
    entries != [] ==> WellFormedEntry(entries[0], g, depth) && WellFormedEntries(entries[1..], g, depth)
  }

  ghost predicate WellFormedEntry(entry: Entry, g: Spec, depth: nat) {
    && LedByDelimiter(entry, g)
    && Distinct(entry.items)
    && WellFormedItems(entry.items, g, depth)
  }

  ghost predicate WellFormedItems(items: seq<Item>, g: Spec, depth: nat) {
    items != [] ==> WellFormedItem(items[0], g, depth) && WellFormedItems(items[1..], g, depth)
  }

  ghost predicate WellFormedItem(item: Item, g: Spec, depth: nat) {
    && item.Tag() in g.members
    && match Lookup(g.nested, item.Tag())
       case None => item.Plain?
       case Some(nested) => item.Nested? && WellFormed(item.run, nested, depth + 1)
  }

  predicate Distinct(items: seq<Item>) {
    forall i, j :: 0 <= i < j < |items| ==> items[i].Tag() != items[j].Tag()
  }

  /**
   The follow rule: no instance may be followed by a tag it would take for its own. A tag the
   enclosing scope accepts ends a group that holds every entry it declares.
   */
  ghost predicate Fits(run: Run, g: Spec, enclosing: seq<Tag>, follow: Option<Tag>) {
    && Stops(g, enclosing, |run.entries|, follow)
    && FitEntries(run.entries, g, follow)
  }

  predicate Stops(g: Spec, enclosing: seq<Tag>, count: nat, follow: Option<Tag>) {
    && (follow.Some? && follow.value in g.members ==>
          follow.value in enclosing && (count == 0 || follow.value == g.delimiter))
  }

  ghost predicate FitEntries(entries: seq<Entry>, g: Spec, follow: Option<Tag>) {
    entries != [] ==>
      && FitItems(entries[0].items, g, LeadingTag(FlatEntries(entries[1..]), follow))
      && FitEntries(entries[1..], g, follow)
  }

  ghost predicate FitItems(items: seq<Item>, g: Spec, follow: Option<Tag>) {
    items != [] ==>
      && FitItem(items[0], g, LeadingTag(FlatItems(items[1..]), follow))
      && FitItems(items[1..], g, follow)
  }

  ghost predicate FitItem(item: Item, g: Spec, follow: Option<Tag>) {
    item.Nested? && Lookup(g.nested, item.Tag()).Some? ==>
      Fits(item.run, Lookup(g.nested, item.Tag()).value, g.members, follow)
  }

  /** The grammar: the rules of an instance standing at `index`, and of what follows it. */
  ghost predicate Derives(fields: seq<Field>, index: nat, run: Run, g: Spec, depth: nat, enclosing: seq<Tag>) {
    && Holds(fields, index, FlatRun(run))
    && WellFormed(run, g, depth)
    && Fits(run, g, enclosing, TagAt(fields, index + |FlatRun(run)|))
  }

  // ----- every walk partitions the run it consumes, well-formed or not -----

  lemma {:induction false} WalkPartitions(fields: seq<Field>, index: nat, g: Spec, depth: nat, enclosing: seq<Tag>)
    requires index < |fields| && ValidSpec(g)
    ensures var w := WalkGroup(fields, index, g, depth, enclosing);
            FlatRun(Run(fields[index], w.tree)) == fields[index..w.end]
    decreases |fields| - index, 0
  {
    if depth <= MAX_SCOPE_DEPTH {
      var declared := CountValue(fields[index].value);
      if LeadsWithoutDelimiter(fields, index + 1, g, declared, enclosing) {
        LeadPartitions(fields, index + 1, g, depth, declared, enclosing);
      } else {
        EntriesPartition(fields, index + 1, g, depth, declared, enclosing, 0);
      }
      var w := WalkGroup(fields, index, g, depth, enclosing);
      RunIsSlice(fields, index, w.tree, w.end);
    }
  }

  lemma RunIsSlice(fields: seq<Field>, index: nat, entries: seq<Entry>, end: nat)
    requires index < end <= |fields| && FlatEntries(entries) == fields[index + 1..end]
    ensures FlatRun(Run(fields[index], entries)) == fields[index..end]
  {
    SlicesJoin(fields, index, index + 1, end);
  }

  lemma {:induction false} LeadPartitions(fields: seq<Field>, cursor: nat, g: Spec, depth: nat,
                                          declared: Option<nat>, enclosing: seq<Tag>)
    requires cursor <= |fields| && ValidSpec(g)
    ensures var first := ScanEntry(fields, cursor, cursor, g, depth);
            var rest := WalkEntries(fields, first.end, g, depth, declared, enclosing, 1);
            FlatEntries([Entry(first.tree)] + rest.tree) == fields[cursor..rest.end]
    decreases |fields| - cursor, 5
  {
    var first := ScanEntry(fields, cursor, cursor, g, depth);
    ScanPartitions(fields, cursor, cursor, g, depth);
    var rest := WalkEntries(fields, first.end, g, depth, declared, enclosing, 1);
    EntriesPartition(fields, first.end, g, depth, declared, enclosing, 1);
    FlatEntriesCons(Entry(first.tree), rest.tree);
    SlicesJoin(fields, cursor, first.end, rest.end);
  }

  lemma {:induction false} EntriesPartition(fields: seq<Field>, cursor: nat, g: Spec, depth: nat,
                                            declared: Option<nat>, enclosing: seq<Tag>, count: nat)
    requires cursor <= |fields| && ValidSpec(g)
    ensures var w := WalkEntries(fields, cursor, g, depth, declared, enclosing, count);
            FlatEntries(w.tree) == fields[cursor..w.end]
    decreases |fields| - cursor, 4
  {
    if OpensEntry(fields, cursor, g, declared, enclosing, count) {
      var first := ScanEntry(fields, cursor, cursor, g, depth);
      ScanPartitions(fields, cursor, cursor, g, depth);
      var rest := WalkEntries(fields, first.end, g, depth, declared, enclosing, count + 1);
      EntriesPartition(fields, first.end, g, depth, declared, enclosing, count + 1);
      FlatEntriesCons(Entry(first.tree), rest.tree);
      SlicesJoin(fields, cursor, first.end, rest.end);
    }
  }

  lemma {:induction false} ScanPartitions(fields: seq<Field>, start: nat, cursor: nat, g: Spec, depth: nat)
    requires start <= cursor <= |fields| && ValidSpec(g)
    ensures var w := ScanEntry(fields, start, cursor, g, depth);
            FlatItems(w.tree) == fields[cursor..w.end]
    decreases |fields| - cursor, 3
  {
    if ContinuesEntry(fields, start, cursor, g) {
      LookupIsValid(g.nested, fields[cursor].tag);
      match Lookup(g.nested, fields[cursor].tag)
      case Some(nested) => NestedPartitions(fields, start, cursor, g, nested, depth);
      case None => PlainPartitions(fields, start, cursor, g, depth);
    }
  }

  lemma {:induction false} NestedPartitions(fields: seq<Field>, start: nat, cursor: nat, g: Spec, nested: Spec, depth: nat)
    requires start <= cursor && ValidSpec(g) && ContinuesEntry(fields, start, cursor, g)
    requires Lookup(g.nested, fields[cursor].tag) == Some(nested) && ValidSpec(nested)
    ensures var w := ScanEntry(fields, start, cursor, g, depth);
            FlatItems(w.tree) == fields[cursor..w.end]
    decreases |fields| - cursor, 2
  {
    var inner := WalkGroup(fields, cursor, nested, depth + 1, g.members);
    WalkPartitions(fields, cursor, nested, depth + 1, g.members);
    ScanPartitions(fields, start, inner.end, g, depth);
    var rest := ScanEntry(fields, start, inner.end, g, depth);
    FlatItemsCons(Nested(Run(fields[cursor], inner.tree)), rest.tree);
    SlicesJoin(fields, cursor, inner.end, rest.end);
  }

  lemma {:induction false} PlainPartitions(fields: seq<Field>, start: nat, cursor: nat, g: Spec, depth: nat)
    requires start <= cursor && ValidSpec(g) && ContinuesEntry(fields, start, cursor, g)
    requires Lookup(g.nested, fields[cursor].tag) == None
    ensures var w := ScanEntry(fields, start, cursor, g, depth);
            FlatItems(w.tree) == fields[cursor..w.end]
    decreases |fields| - cursor, 2
  {
    ScanPartitions(fields, start, cursor + 1, g, depth);
    var rest := ScanEntry(fields, start, cursor + 1, g, depth);
    FlatItemsCons(Plain(fields[cursor]), rest.tree);
    SlicesJoin(fields, cursor, cursor + 1, rest.end);
  }

  // ----- a derived run is the one the walk finds -----

  /** The derived entries, or items, standing between `cursor` and `end`. */
  ghost predicate EntriesStand(fields: seq<Field>, cursor: nat, end: nat, entries: seq<Entry>, g: Spec, depth: nat) {
    && ValidSpec(g) && |fields| <= U64_MAX
    && Holds(fields, cursor, FlatEntries(entries)) && end == cursor + |FlatEntries(entries)|
    && WellFormedEntries(entries, g, depth)
    && FitEntries(entries, g, TagAt(fields, end))
  }

  ghost predicate ItemsStand(fields: seq<Field>, start: nat, cursor: nat, end: nat, items: seq<Item>, g: Spec, depth: nat) {
    && ValidSpec(g) && |fields| <= U64_MAX && start <= cursor
    && Holds(fields, cursor, FlatItems(items)) && end == cursor + |FlatItems(items)|
    && WellFormedItems(items, g, depth)
    && FitItems(items, g, TagAt(fields, end))
    && Halts(start, end, g, TagAt(fields, end))
    && forall i :: 0 <= i < |items| && (start < cursor || 0 < i) ==> items[i].Tag() != g.delimiter
  }

  /** Where the tag after a scan stops it. */
  predicate Halts(start: nat, cursor: nat, g: Spec, follow: Option<Tag>) {
    follow.Some? && follow.value in g.members ==> follow.value == g.delimiter && start < cursor
  }

  /** Completeness and uniqueness: the walk finds exactly the derived tree, whatever follows that fits. */
  lemma {:induction false} WalkFindsDerived(fields: seq<Field>, index: nat, run: Run, g: Spec, depth: nat, enclosing: seq<Tag>)
    requires ValidSpec(g) && Derives(fields, index, run, g, depth, enclosing) && |fields| <= U64_MAX
    ensures WalkGroup(fields, index, g, depth, enclosing) == Walked(index + |FlatRun(run)|, run.entries)
    decreases run, 0
  {
    DerivedEntriesStand(fields, index, run, g, depth, enclosing);
    var declared := CountValue(run.count.value);
    EntriesFound(fields, index + 1, index + |FlatRun(run)|, run.entries, g, depth, declared, enclosing, 0);
    assert !LeadsWithoutDelimiter(fields, index + 1, g, declared, enclosing);
  }

  /** The entries of a derived run stand behind its count field. */
  lemma DerivedEntriesStand(fields: seq<Field>, index: nat, run: Run, g: Spec, depth: nat, enclosing: seq<Tag>)
    requires ValidSpec(g) && Derives(fields, index, run, g, depth, enclosing) && |fields| <= U64_MAX
    ensures index < |fields| && fields[index] == run.count && depth <= MAX_SCOPE_DEPTH
    ensures CountValue(run.count.value) == Some(|run.entries|)
    ensures EntriesStand(fields, index + 1, index + |FlatRun(run)|, run.entries, g, depth)
    ensures Stops(g, enclosing, |run.entries|, TagAt(fields, index + |FlatRun(run)|))
    ensures !LeadsWithoutDelimiter(fields, index + 1, g, Some(|run.entries|), enclosing)
  {
    HoldsConcat(fields, index, [run.count], FlatEntries(run.entries));
    HoldsHead(fields, index, FlatRun(run));
    if run.entries != [] {
      EntryIsLed(run.entries, g, depth);
      HoldsHead(fields, index + 1, FlatEntries(run.entries));
    }
  }

  lemma EntryIsLed(entries: seq<Entry>, g: Spec, depth: nat)
    requires entries != [] && WellFormedEntries(entries, g, depth)
    ensures FlatEntries(entries) != [] && FlatEntries(entries)[0].tag == g.delimiter
  {
  }

  lemma {:induction false} EntriesFound(fields: seq<Field>, cursor: nat, end: nat, entries: seq<Entry>, g: Spec, depth: nat,
                                        declared: Option<nat>, enclosing: seq<Tag>, count: nat)
    requires EntriesStand(fields, cursor, end, entries, g, depth) && count < cursor
    requires declared == Some(count + |entries|) && Stops(g, enclosing, count + |entries|, TagAt(fields, end))
    ensures WalkEntries(fields, cursor, g, depth, declared, enclosing, count) == Walked(end, entries)
    decreases entries, 2
  {
    if entries == [] {
      NoEntryFound(fields, cursor, g, depth, declared, enclosing, count);
    } else {
      var at := FirstFound(fields, cursor, end, entries, g, depth, enclosing, count);
      EntriesFound(fields, at, end, entries[1..], g, depth, declared, enclosing, count + 1);
      EntriesJoin(fields, cursor, at, end, entries, g, depth, declared, enclosing, count);
    }
  }

  /** The first of the entries is the one scanned, and the rest still stand. */
  lemma {:induction false} FirstFound(fields: seq<Field>, cursor: nat, end: nat, entries: seq<Entry>, g: Spec, depth: nat,
                                      enclosing: seq<Tag>, count: nat)
    returns (at: nat)
    requires EntriesStand(fields, cursor, end, entries, g, depth) && entries != []
    requires Stops(g, enclosing, count + |entries|, TagAt(fields, end))
    ensures cursor < at <= end && EntriesStand(fields, at, end, entries[1..], g, depth)
    ensures cursor < |fields| && fields[cursor].tag == g.delimiter
    ensures ScanEntry(fields, cursor, cursor, g, depth) == Walked(at, entries[0].items)
    decreases entries, 1
  {
    at := EntriesStep(fields, cursor, end, entries, g, depth);
    LastEntryHalts(fields, cursor, at, end, entries, g, enclosing, count);
    EntryFound(fields, cursor, at, entries[0], g, depth);
  }

  lemma NoEntryFound(fields: seq<Field>, cursor: nat, g: Spec, depth: nat,
                     declared: Option<nat>, enclosing: seq<Tag>, count: nat)
    requires ValidSpec(g) && cursor <= |fields| && declared == Some(count)
    requires Stops(g, enclosing, count, TagAt(fields, cursor))
    ensures WalkEntries(fields, cursor, g, depth, declared, enclosing, count) == Walked(cursor, [])
  {
  }

  lemma LastEntryHalts(fields: seq<Field>, cursor: nat, at: nat, end: nat, entries: seq<Entry>, g: Spec,
                       enclosing: seq<Tag>, count: nat)
    requires entries != [] && cursor < at && Stops(g, enclosing, count + |entries|, TagAt(fields, end))
    requires |entries| == 1 ==> at == end
    requires |entries| > 1 ==> TagAt(fields, at) == Some(g.delimiter)
    ensures Halts(cursor, at, g, TagAt(fields, at))
  {
  }

  /** The first entry, and the rest of them, of entries that stand. */
  lemma EntriesStep(fields: seq<Field>, cursor: nat, end: nat, entries: seq<Entry>, g: Spec, depth: nat) returns (at: nat)
    requires EntriesStand(fields, cursor, end, entries, g, depth) && entries != []
    ensures cursor < at <= end && fields[cursor].tag == g.delimiter
    ensures EntriesStand(fields, at, end, entries[1..], g, depth)
    ensures WellFormedEntry(entries[0], g, depth)
    ensures Holds(fields, cursor, FlatItems(entries[0].items)) && at == cursor + |FlatItems(entries[0].items)|
    ensures FitItems(entries[0].items, g, TagAt(fields, at))
    ensures |entries| == 1 ==> at == end
    ensures |entries| > 1 ==> TagAt(fields, at) == Some(g.delimiter)
  {
    var head, tail := FlatItems(entries[0].items), FlatEntries(entries[1..]);
    at := cursor + |head|;
    HoldsConcat(fields, cursor, head, tail);
    EntryIsLed(entries, g, depth);
    HoldsHead(fields, cursor, head + tail);
    LeadingTagAt(fields, at, tail);
    if entries[1..] != [] {
      EntryIsLed(entries[1..], g, depth);
    }
    assert WellFormedEntry(entries[0], g, depth);
  }

  lemma EntriesJoin(fields: seq<Field>, cursor: nat, at: nat, end: nat, entries: seq<Entry>, g: Spec, depth: nat,
                    declared: Option<nat>, enclosing: seq<Tag>, count: nat)
    requires ValidSpec(g) && OpensEntry(fields, cursor, g, declared, enclosing, count) && at <= |fields| && entries != []
    requires ScanEntry(fields, cursor, cursor, g, depth) == Walked(at, entries[0].items)
    requires WalkEntries(fields, at, g, depth, declared, enclosing, count + 1) == Walked(end, entries[1..])
    ensures WalkEntries(fields, cursor, g, depth, declared, enclosing, count) == Walked(end, entries)
  {
    assert entries == [Entry(entries[0].items)] + entries[1..];
  }

  lemma {:induction false} EntryFound(fields: seq<Field>, cursor: nat, at: nat, entry: Entry, g: Spec, depth: nat)
    requires ValidSpec(g) && WellFormedEntry(entry, g, depth) && |fields| <= U64_MAX
    requires Holds(fields, cursor, FlatItems(entry.items)) && at == cursor + |FlatItems(entry.items)|
    requires FitItems(entry.items, g, TagAt(fields, at)) && Halts(cursor, at, g, TagAt(fields, at))
    ensures ScanEntry(fields, cursor, cursor, g, depth) == Walked(at, entry.items)
    decreases entry, 1
  {
    ItemsFound(fields, cursor, cursor, at, entry.items, g, depth);
  }

  lemma {:induction false} ItemsFound(fields: seq<Field>, start: nat, cursor: nat, end: nat, items: seq<Item>, g: Spec, depth: nat)
    requires ItemsStand(fields, start, cursor, end, items, g, depth)
    ensures ScanEntry(fields, start, cursor, g, depth) == Walked(end, items)
    decreases items, 1
  {
    if items != [] {
      var at := ItemsStep(fields, start, cursor, end, items, g, depth);
      ItemFound(fields, cursor, at, items[0], g, depth);
      ItemsFound(fields, start, at, end, items[1..], g, depth);
      ItemsJoin(fields, start, cursor, at, end, items, g, depth);
    }
  }

  lemma ItemsStep(fields: seq<Field>, start: nat, cursor: nat, end: nat, items: seq<Item>, g: Spec, depth: nat) returns (at: nat)
    requires ItemsStand(fields, start, cursor, end, items, g, depth) && items != []
    ensures cursor < at <= end && ItemsStand(fields, start, at, end, items[1..], g, depth)
    ensures Holds(fields, cursor, FlatItem(items[0])) && at == cursor + |FlatItem(items[0])|
    ensures WellFormedItem(items[0], g, depth) && FitItem(items[0], g, TagAt(fields, at))
    ensures ContinuesEntry(fields, start, cursor, g) && fields[cursor].tag == items[0].Tag()
  {
    var head, tail := FlatItem(items[0]), FlatItems(items[1..]);
    at := cursor + |head|;
    HoldsConcat(fields, cursor, head, tail);
    LeadingTagAt(fields, at, tail);
    HoldsHead(fields, cursor, head);
    assert WellFormedItem(items[0], g, depth);
  }

  lemma ItemsJoin(fields: seq<Field>, start: nat, cursor: nat, at: nat, end: nat, items: seq<Item>, g: Spec, depth: nat)
    requires ValidSpec(g) && start <= cursor && ContinuesEntry(fields, start, cursor, g)
    requires items != [] && cursor <= at <= |fields| && ReadsItem(fields, cursor, at, items[0], g, depth)
    requires ScanEntry(fields, start, at, g, depth) == Walked(end, items[1..])
    ensures ScanEntry(fields, start, cursor, g, depth) == Walked(end, items)
  {
    assert items == [items[0]] + items[1..];
  }

  /** The walk reads one item, a field or a nested instance, between `cursor` and `at`. */
  ghost predicate ReadsItem(fields: seq<Field>, cursor: nat, at: nat, item: Item, g: Spec, depth: nat)
    requires cursor < |fields|
  {
    match Lookup(g.nested, fields[cursor].tag)
    case None => item == Plain(fields[cursor]) && at == cursor + 1
    case Some(nested) =>
      && ValidSpec(nested) && item.Nested? && item.run.count == fields[cursor]
      && WalkGroup(fields, cursor, nested, depth + 1, g.members) == Walked(at, item.run.entries)
  }

  lemma {:induction false} ItemFound(fields: seq<Field>, cursor: nat, at: nat, item: Item, g: Spec, depth: nat)
    requires ValidSpec(g) && WellFormedItem(item, g, depth) && |fields| <= U64_MAX
    requires Holds(fields, cursor, FlatItem(item)) && at == cursor + |FlatItem(item)|
    requires FitItem(item, g, TagAt(fields, at))
    ensures cursor < |fields| && ReadsItem(fields, cursor, at, item, g, depth)
    decreases item, 0
  {
    HoldsHead(fields, cursor, FlatItem(item));
    LookupIsValid(g.nested, item.Tag());
    if item.Nested? {
      WalkFindsDerived(fields, cursor, item.run, Lookup(g.nested, item.Tag()).value, depth + 1, g.members);
    }
  }
}
