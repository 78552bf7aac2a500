/** The check a walk performs while it reports: it passes on exactly the runs the grammar derives. */
module GroupCheck {
  import opened Wire
  import opened GroupSpecs
  import opened GroupTree
  import opened Grammar

  predicate IsError(event: Event) {
    event.InvalidCount? || event.DelimiterMismatch? || event.RepeatedTag? || event.CountMismatch? || event.TooDeep?
  }

  /** No event of the log is an error. */
  predicate Clean(log: seq<Event>) {
    forall i :: 0 <= i < |log| ==> !IsError(log[i])
  }

  lemma CleanAppend(log: seq<Event>, event: Event)
    ensures Clean(log + [event]) <==> Clean(log) && !IsError(event)
  {
    if Clean(log + [event]) {
      assert forall i :: 0 <= i < |log| ==> log[i] == (log + [event])[i];
      assert (log + [event])[|log|] == event;
    }
  }

  // ----- the shape every walked tree has -----

  ghost predicate Shaped(run: Run, g: Spec, depth: nat) {
    if depth > MAX_SCOPE_DEPTH then run.entries == [] else ShapedEntries(run.entries, g, depth)
  }

  ghost predicate ShapedEntries(entries: seq<Entry>, g: Spec, depth: nat) {
    entries != [] ==>
      entries[0].items != [] && ShapedItems(entries[0].items, g, depth) && ShapedEntries(entries[1..], g, depth)
  }

  ghost predicate ShapedItems(items: seq<Item>, g: Spec, depth: nat) {
    items != [] ==> ShapedItem(items[0], g, depth) && ShapedItems(items[1..], g, depth)
  }

  ghost predicate ShapedItem(item: Item, g: Spec, depth: nat) {
    && item.Tag() in g.members
    && match Lookup(g.nested, item.Tag())
       case None => item.Plain?
       case Some(nested) => item.Nested? && Shaped(item.run, nested, depth + 1)
  }

  lemma {:induction false} WalkIsShaped(fields: seq<Field>, index: nat, g: Spec, depth: nat, enclosing: seq<Tag>)
    requires index < |fields| && ValidSpec(g)
    ensures Shaped(Run(fields[index], WalkGroup(fields, index, g, depth, enclosing).tree), g, depth)
    decreases |fields| - index, 0
  {
    if depth <= MAX_SCOPE_DEPTH {
      var declared := CountValue(fields[index].value);
      if LeadsWithoutDelimiter(fields, index + 1, g, declared, enclosing) {
        var first := ScanEntry(fields, index + 1, index + 1, g, depth);
        ScanIsShaped(fields, index + 1, index + 1, g, depth);
        ScanMakesProgress(fields, index + 1, g, depth);
        var rest := WalkEntries(fields, first.end, g, depth, declared, enclosing, 1);
        EntriesAreShaped(fields, first.end, g, depth, declared, enclosing, 1);
        ShapedEntriesCons(Entry(first.tree), rest.tree, g, depth);
      } else {
        EntriesAreShaped(fields, index + 1, g, depth, declared, enclosing, 0);
      }
    }
  }

  lemma ScanMakesProgress(fields: seq<Field>, start: nat, g: Spec, depth: nat)
    requires start < |fields| && fields[start].tag in g.members && ValidSpec(g)
    ensures ScanEntry(fields, start, start, g, depth).tree != []
  {
  }

  lemma ShapedEntriesCons(first: Entry, rest: seq<Entry>, g: Spec, depth: nat)
    requires first.items != [] && ShapedItems(first.items, g, depth) && ShapedEntries(rest, g, depth)
    ensures ShapedEntries([first] + rest, g, depth)
  {
    assert ([first] + rest)[1..] == rest;
  }

  lemma {:induction false} EntriesAreShaped(fields: seq<Field>, cursor: nat, g: Spec, depth: nat,
                                            declared: Option<nat>, enclosing: seq<Tag>, count: nat)
    requires cursor <= |fields| && ValidSpec(g)
    ensures ShapedEntries(WalkEntries(fields, cursor, g, depth, declared, enclosing, count).tree, g, depth)
    decreases |fields| - cursor, 2
  {
    if OpensEntry(fields, cursor, g, declared, enclosing, count) {
      var first := ScanEntry(fields, cursor, cursor, g, depth);
      ScanIsShaped(fields, cursor, cursor, g, depth);
      ScanMakesProgress(fields, cursor, g, depth);
      var rest := WalkEntries(fields, first.end, g, depth, declared, enclosing, count + 1);
      EntriesAreShaped(fields, first.end, g, depth, declared, enclosing, count + 1);
      ShapedEntriesCons(Entry(first.tree), rest.tree, g, depth);
    }
  }

  lemma {:induction false} ScanIsShaped(fields: seq<Field>, start: nat, cursor: nat, g: Spec, depth: nat)
    requires start <= cursor <= |fields| && ValidSpec(g)
    ensures ShapedItems(ScanEntry(fields, start, cursor, g, depth).tree, g, depth)
    decreases |fields| - cursor, 1
  {
    if ContinuesEntry(fields, start, cursor, g) {
      LookupIsValid(g.nested, fields[cursor].tag);
      var item, next := Plain(fields[cursor]), cursor + 1;
      match Lookup(g.nested, fields[cursor].tag) {
        case Some(nested) =>
          var inner := WalkGroup(fields, cursor, nested, depth + 1, g.members);
          WalkIsShaped(fields, cursor, nested, depth + 1, g.members);
          item, next := Nested(Run(fields[cursor], inner.tree)), inner.end;
        case None =>
      }
      ScanIsShaped(fields, start, next, g, depth);
      assert ([item] + ScanEntry(fields, start, next, g, depth).tree)[1..] == ScanEntry(fields, start, next, g, depth).tree;
    }
  }

  // ----- a clean log is a well-formed tree -----

  lemma ClashesMeansRepeated(items: seq<Item>, seen: set<Tag>)
    ensures Clashes(items, seen) <==> !Distinct(items) || exists i :: 0 <= i < |items| && items[i].Tag() in seen
  {
    if items != [] {
      var tag := items[0].Tag();
      ClashesMeansRepeated(items[1..], seen + {tag});
      assert forall i :: 0 <= i < |items[1..]| ==> items[1..][i] == items[i + 1];
      if tag !in seen {
        if Distinct(items[1..]) && !exists i :: 0 <= i < |items[1..]| && items[1..][i].Tag() in seen + {tag} {
          forall i, j | 0 <= i < j < |items| ensures items[i].Tag() != items[j].Tag() {
            assert items[j] == items[1..][j - 1];
            if i > 0 { assert items[i] == items[1..][i - 1]; }
          }
        }
      }
    }
  }

  /** Soundness and completeness of the check on trees: no error event exactly when the tree is well-formed. */
  lemma {:induction false} CleanMeansWellFormed(log: seq<Event>, run: Run, g: Spec, depth: nat)
    requires Shaped(run, g, depth)
    ensures Clean(RunLog(log, run, g, depth, true)) <==> Clean(log) && WellFormed(run, g, depth)
    decreases run, 3
  {
    if depth > MAX_SCOPE_DEPTH {
      CleanAppend(log, TooDeep(g));
    } else {
      var opening := OpenLog(log, run, g);
      CleanAppend(log, GroupEntered(g));
      CleanAppend(log + [GroupEntered(g)], InvalidCount(g, run.count.value));
      var middle := EntriesLog(opening, run.entries, 0, g, depth, true);
      CleanEntries(opening, run.entries, 0, g, depth);
      if WellFormedEntries(run.entries, g, depth) {
        WellFormedHasNoClash(run.entries, g, depth);
      }
      CloseIsClean(middle, run, g, Unparseable(run.entries, g, true));
    }
  }

  lemma CloseIsClean(log: seq<Event>, run: Run, g: Spec, bad: bool)
    ensures Clean(CloseLog(log, run, g, bad)) ==> Clean(log)
    ensures CountValue(run.count.value).Some? && !bad ==>
              (Clean(CloseLog(log, run, g, bad)) <==> Clean(log) && CountValue(run.count.value) == Some(|run.entries|))
  {
    var declared := CountValue(run.count.value);
    var left := GroupLeft(g, declared == Some(|run.entries|) && !bad, |run.entries|);
    CleanAppend(log, left);
    if declared.Some? {
      var mismatch := CountMismatch(g, declared.value, |run.entries|);
      CleanAppend(log, mismatch);
      CleanAppend(log + [mismatch], left);
    }
  }

  lemma WellFormedHasNoClash(entries: seq<Entry>, g: Spec, depth: nat)
    requires WellFormedEntries(entries, g, depth)
    ensures !Unparseable(entries, g, true) && !AnyClash(entries)
  {
    if entries != [] {
      ClashesMeansRepeated(entries[0].items, {});
      WellFormedHasNoClash(entries[1..], g, depth);
    }
  }

  lemma {:induction false} CleanEntries(log: seq<Event>, entries: seq<Entry>, k: nat, g: Spec, depth: nat)
    requires ShapedEntries(entries, g, depth)
    ensures Clean(EntriesLog(log, entries, k, g, depth, true)) <==> Clean(log) && WellFormedEntries(entries, g, depth)
    decreases entries, 2
  {
    if entries != [] {
      CleanEntry(log, entries[0], k, g, depth);
      CleanEntries(EntryLog(log, entries[0], k, g, depth, true), entries[1..], k + 1, g, depth);
    }
  }

  lemma {:induction false} CleanEntry(log: seq<Event>, entry: Entry, k: nat, g: Spec, depth: nat)
    requires entry.items != [] && ShapedItems(entry.items, g, depth)
    ensures Clean(EntryLog(log, entry, k, g, depth, true)) <==> Clean(log) && WellFormedEntry(entry, g, depth)
    decreases entry, 1
  {
    CleanAppend(log, DelimiterMismatch(g, entry.items[0].Tag()));
    var led := LeadLog(log, entry, g);
    CleanItems(led, entry.items, {}, g, depth);
    ClashesMeansRepeated(entry.items, {});
    CleanAppend(ItemsLog(led, entry.items, {}, g, depth, true), EntryClosed(g, k, OwnTags(entry.items)));
  }

  lemma {:induction false} CleanItems(log: seq<Event>, items: seq<Item>, seen: set<Tag>, g: Spec, depth: nat)
    requires ShapedItems(items, g, depth)
    ensures Clean(ItemsLog(log, items, seen, g, depth, true)) <==>
              Clean(log) && !Clashes(items, seen) && WellFormedItems(items, g, depth)
    decreases items, 1
  {
    if items != [] {
      var tag := items[0].Tag();
      CleanAppend(log, RepeatedTag(g, tag));
      var repeated := RepeatLog(log, tag, seen, g, true);
      CleanItem(repeated, items[0], g, depth);
      CleanItems(NestedLog(repeated, items[0], g, depth, true), items[1..], seen + {tag}, g, depth);
    }
  }

  lemma {:induction false} CleanItem(log: seq<Event>, item: Item, g: Spec, depth: nat)
    requires ShapedItem(item, g, depth)
    ensures Clean(NestedLog(log, item, g, depth, true)) <==> Clean(log) && WellFormedItem(item, g, depth)
    decreases item, 1
  {
    if item.Nested? {
      CleanMeansWellFormed(log, item.run, Lookup(g.nested, item.Tag()).value, depth + 1);
    }
  }

  // ----- what a walk leaves behind fits -----

  lemma {:induction false} WalkFits(fields: seq<Field>, index: nat, g: Spec, depth: nat, enclosing: seq<Tag>)
    requires index < |fields| <= U64_MAX && ValidSpec(g)
    requires WellFormed(Run(fields[index], WalkGroup(fields, index, g, depth, enclosing).tree), g, depth)
    ensures var w := WalkGroup(fields, index, g, depth, enclosing);
            Fits(Run(fields[index], w.tree), g, enclosing, TagAt(fields, w.end))
    decreases |fields| - index, 0
  {
    var declared := CountValue(fields[index].value);
    LeadIsNotADelimiter(fields, index, g, depth, enclosing);
    var tree := WalkGroup(fields, index, g, depth, enclosing).tree;
    assert tree != [] && WellFormedEntries(tree, g, depth) ==> WellFormedEntry(tree[0], g, depth);
    EntriesFit(fields, index + 1, g, depth, declared, enclosing, 0);
  }

  lemma LeadIsNotADelimiter(fields: seq<Field>, index: nat, g: Spec, depth: nat, enclosing: seq<Tag>)
    requires index < |fields| && ValidSpec(g) && depth <= MAX_SCOPE_DEPTH
    ensures var w := WalkGroup(fields, index, g, depth, enclosing);
            LeadsWithoutDelimiter(fields, index + 1, g, CountValue(fields[index].value), enclosing) ==>
              w.tree != [] && !LedByDelimiter(w.tree[0], g)
  {
    if LeadsWithoutDelimiter(fields, index + 1, g, CountValue(fields[index].value), enclosing) {
      ScanStartsAt(fields, index + 1, g, depth);
    }
  }

  lemma ScanStartsAt(fields: seq<Field>, start: nat, g: Spec, depth: nat)
    requires start < |fields| && fields[start].tag in g.members && ValidSpec(g)
    ensures var w := ScanEntry(fields, start, start, g, depth);
            w.tree != [] && w.tree[0].Tag() == fields[start].tag
  {
  }

  lemma {:induction false} EntriesFit(fields: seq<Field>, cursor: nat, g: Spec, depth: nat,
                                      declared: Option<nat>, enclosing: seq<Tag>, count: nat)
    requires count < cursor <= |fields| <= U64_MAX && ValidSpec(g)
    requires var w := WalkEntries(fields, cursor, g, depth, declared, enclosing, count);
             declared == Some(count + |w.tree|) && WellFormedEntries(w.tree, g, depth)
    requires count == 0 ==> !LeadsWithoutDelimiter(fields, cursor, g, declared, enclosing)
    requires 0 < count && cursor < |fields| && fields[cursor].tag in g.members ==> fields[cursor].tag == g.delimiter
    ensures var w := WalkEntries(fields, cursor, g, depth, declared, enclosing, count);
            && Stops(g, enclosing, count + |w.tree|, TagAt(fields, w.end))
            && FitEntries(w.tree, g, TagAt(fields, w.end))
    decreases |fields| - cursor, 3
  {
    if OpensEntry(fields, cursor, g, declared, enclosing, count) {
      var first, rest := EntriesSplit(fields, cursor, g, depth, declared, enclosing, count);
      EntryFits(fields, cursor, first, rest, g, depth, declared, enclosing, count + 1);
      EntriesFit(fields, first.end, g, depth, declared, enclosing, count + 1);
      FitEntriesCons(Entry(first.tree), rest.tree, g, TagAt(fields, rest.end));
    } else {
      WalkStops(fields, cursor, g, depth, declared, enclosing, count);
    }
  }

  lemma WalkStops(fields: seq<Field>, cursor: nat, g: Spec, depth: nat,
                  declared: Option<nat>, enclosing: seq<Tag>, count: nat)
    requires cursor <= |fields| && ValidSpec(g) && !OpensEntry(fields, cursor, g, declared, enclosing, count)
    ensures WalkEntries(fields, cursor, g, depth, declared, enclosing, count) == Walked(cursor, [])
  {
  }

  lemma EntriesSplit(fields: seq<Field>, cursor: nat, g: Spec, depth: nat,
                     declared: Option<nat>, enclosing: seq<Tag>, count: nat)
    returns (first: Walked<seq<Item>>, rest: Walked<seq<Entry>>)
    requires ValidSpec(g) && OpensEntry(fields, cursor, g, declared, enclosing, count)
    requires WellFormedEntries(WalkEntries(fields, cursor, g, depth, declared, enclosing, count).tree, g, depth)
    ensures first == ScanEntry(fields, cursor, cursor, g, depth) && cursor < first.end
    ensures rest == WalkEntries(fields, first.end, g, depth, declared, enclosing, count + 1)
    ensures WalkEntries(fields, cursor, g, depth, declared, enclosing, count)
            == Walked(rest.end, [Entry(first.tree)] + rest.tree)
    ensures WellFormedItems(first.tree, g, depth) && WellFormedEntries(rest.tree, g, depth)
  {
    first := ScanEntry(fields, cursor, cursor, g, depth);
    rest := WalkEntries(fields, first.end, g, depth, declared, enclosing, count + 1);
    var tree := [Entry(first.tree)] + rest.tree;
    assert tree[1..] == rest.tree;
    assert WellFormedEntries(tree, g, depth);
    assert WellFormedEntry(tree[0], g, depth);
  }

  lemma {:induction false} EntryFits(fields: seq<Field>, cursor: nat, first: Walked<seq<Item>>, rest: Walked<seq<Entry>>,
                                     g: Spec, depth: nat, declared: Option<nat>, enclosing: seq<Tag>, count: nat)
    requires cursor <= |fields| <= U64_MAX && ValidSpec(g)
    requires first == ScanEntry(fields, cursor, cursor, g, depth) && WellFormedItems(first.tree, g, depth)
    requires rest == WalkEntries(fields, first.end, g, depth, declared, enclosing, count)
    ensures FitItems(first.tree, g, LeadingTag(FlatEntries(rest.tree), TagAt(fields, rest.end)))
    ensures Halts(cursor, first.end, g, TagAt(fields, first.end))
    decreases |fields| - cursor, 2
  {
    ScanFits(fields, cursor, cursor, g, depth);
    EntriesPartition(fields, first.end, g, depth, declared, enclosing, count);
    LeadingTagAt(fields, first.end, FlatEntries(rest.tree));
  }

  lemma FitEntriesCons(first: Entry, rest: seq<Entry>, g: Spec, follow: Option<Tag>)
    requires FitItems(first.items, g, LeadingTag(FlatEntries(rest), follow)) && FitEntries(rest, g, follow)
    ensures FitEntries([first] + rest, g, follow)
  {
    assert ([first] + rest)[1..] == rest;
  }

  lemma {:induction false} ScanFits(fields: seq<Field>, start: nat, cursor: nat, g: Spec, depth: nat)
    requires start <= cursor <= |fields| <= U64_MAX && ValidSpec(g)
    requires WellFormedItems(ScanEntry(fields, start, cursor, g, depth).tree, g, depth)
    ensures var w := ScanEntry(fields, start, cursor, g, depth);
            && FitItems(w.tree, g, TagAt(fields, w.end))
            && Halts(start, w.end, g, TagAt(fields, w.end))
    decreases |fields| - cursor, 1
  {
    if ContinuesEntry(fields, start, cursor, g) {
      LookupIsValid(g.nested, fields[cursor].tag);
      match Lookup(g.nested, fields[cursor].tag)
      case Some(nested) =>
        var inner := WalkGroup(fields, cursor, nested, depth + 1, g.members);
        var item := Nested(Run(fields[cursor], inner.tree));
        var rest := ScanEntry(fields, start, inner.end, g, depth);
        WellFormedCons(item, rest.tree, g, depth);
        assert WellFormedItem(item, g, depth);
        WalkFits(fields, cursor, nested, depth + 1, g.members);
        ScanRestFits(fields, start, inner.end, item, g, depth);
      case None =>
        var item := Plain(fields[cursor]);
        WellFormedCons(item, ScanEntry(fields, start, cursor + 1, g, depth).tree, g, depth);
        ScanRestFits(fields, start, cursor + 1, item, g, depth);
    }
  }

  lemma {:induction false} ScanRestFits(fields: seq<Field>, start: nat, next: nat, item: Item, g: Spec, depth: nat)
    requires start <= next <= |fields| <= U64_MAX && ValidSpec(g)
    requires WellFormedItems(ScanEntry(fields, start, next, g, depth).tree, g, depth)
    requires FitItem(item, g, TagAt(fields, next))
    ensures var w := ScanEntry(fields, start, next, g, depth);
            && FitItems([item] + w.tree, g, TagAt(fields, w.end))
            && Halts(start, w.end, g, TagAt(fields, w.end))
    decreases |fields| - next, 2
  {
    var rest := ScanEntry(fields, start, next, g, depth);
    ScanFits(fields, start, next, g, depth);
    ScanPartitions(fields, start, next, g, depth);
    LeadingTagAt(fields, next, FlatItems(rest.tree));
    assert ([item] + rest.tree)[1..] == rest.tree;
  }

  lemma WellFormedCons(item: Item, rest: seq<Item>, g: Spec, depth: nat)
    ensures WellFormedItems([item] + rest, g, depth) <==> WellFormedItem(item, g, depth) && WellFormedItems(rest, g, depth)
  {
    assert ([item] + rest)[1..] == rest;
  }

  // ----- main results -----

  /** A walk reports no error exactly when the grammar derives the run at `index`, and then the run is the walked one. */
  lemma CheckIsSoundAndComplete(fields: seq<Field>, index: nat, g: Spec, depth: nat, enclosing: seq<Tag>)
    requires index < |fields| <= U64_MAX && ValidSpec(g)
    ensures var w := WalkGroup(fields, index, g, depth, enclosing);
            var run := Run(fields[index], w.tree);
            && (Clean(RunLog([], run, g, depth, true)) <==> Derives(fields, index, run, g, depth, enclosing))
            && (Clean(RunLog([], run, g, depth, true)) <==> exists r :: Derives(fields, index, r, g, depth, enclosing))
  {
    var w := WalkGroup(fields, index, g, depth, enclosing);
    var run := Run(fields[index], w.tree);
    WalkIsShaped(fields, index, g, depth, enclosing);
    CleanMeansWellFormed([], run, g, depth);
    WalkPartitions(fields, index, g, depth, enclosing);
    if WellFormed(run, g, depth) {
      WalkFits(fields, index, g, depth, enclosing);
    }
    forall r | Derives(fields, index, r, g, depth, enclosing) ensures r == run {
      WalkFindsDerived(fields, index, r, g, depth, enclosing);
      HoldsHead(fields, index, FlatRun(r));
    }
  }

  /** The grammar is unambiguous: at one place it derives at most one run. */
  lemma DerivationIsUnique(fields: seq<Field>, index: nat, a: Run, b: Run, g: Spec, depth: nat, enclosing: seq<Tag>)
    requires ValidSpec(g) && |fields| <= U64_MAX
    requires Derives(fields, index, a, g, depth, enclosing) && Derives(fields, index, b, g, depth, enclosing)
    ensures a == b
  {
    WalkFindsDerived(fields, index, a, g, depth, enclosing);
    WalkFindsDerived(fields, index, b, g, depth, enclosing);
    HoldsHead(fields, index, FlatRun(a));
    HoldsHead(fields, index, FlatRun(b));
  }

  /**
   The exact condition for a well-formed instance to be read back from the fields it is spelled in:
   nothing in it, and nothing after it, is followed by a tag it would take for its own.
   */
  lemma ReadsBackExactlyWhenItFits(fields: seq<Field>, index: nat, run: Run, g: Spec, depth: nat, enclosing: seq<Tag>)
    requires ValidSpec(g) && |fields| <= U64_MAX
    requires Holds(fields, index, FlatRun(run)) && WellFormed(run, g, depth)
    ensures index < |fields|
    ensures WalkGroup(fields, index, g, depth, enclosing) == Walked(index + |FlatRun(run)|, run.entries)
            <==> Fits(run, g, enclosing, TagAt(fields, index + |FlatRun(run)|))
  {
    HoldsHead(fields, index, FlatRun(run));
    var w := WalkGroup(fields, index, g, depth, enclosing);
    if w == Walked(index + |FlatRun(run)|, run.entries) {
      WalkFits(fields, index, g, depth, enclosing);
    }
    if Fits(run, g, enclosing, TagAt(fields, index + |FlatRun(run)|)) {
      WalkFindsDerived(fields, index, run, g, depth, enclosing);
    }
  }

  /**
   A member other than the delimiter that follows a group with entries is taken into its last entry,
   even where the enclosing scope accepts the tag and the count is already met.
   */
  lemma FollowingMemberIsTaken(fields: seq<Field>, index: nat, run: Run, g: Spec, depth: nat, enclosing: seq<Tag>, tag: Tag)
    requires ValidSpec(g) && |fields| <= U64_MAX
    requires Holds(fields, index, FlatRun(run)) && WellFormed(run, g, depth) && run.entries != []
    requires TagAt(fields, index + |FlatRun(run)|) == Some(tag) && tag in g.members && tag != g.delimiter
    ensures index < |fields|
    ensures WalkGroup(fields, index, g, depth, enclosing) != Walked(index + |FlatRun(run)|, run.entries)
  {
    ReadsBackExactlyWhenItFits(fields, index, run, g, depth, enclosing);
    assert !Stops(g, enclosing, |run.entries|, Some(tag));
  }
}
