/**
 The first error of a run, read off its tree: which error a reader reports does not depend on how
 the events reached it.
 */
module Verdict {
  import opened Wire
  import opened GroupSpecs
  import opened GroupTree
  import opened Walk

  function Or<T>(first: Option<T>, second: Option<T>): Option<T> {
    if first.Some? then first else second
  }

  /** In document order: the count, each entry's lead, its repeated tags and nested runs, then the entry count. */
  ghost function RunError(run: Run, g: Spec, depth: nat): Option<GroupError>
    decreases run, 3
  {
    if depth > MAX_SCOPE_DEPTH then Some(NestsTooDeep(g.countTag, MAX_SCOPE_DEPTH))
    else
      var declared := CountValue(run.count.value);
      Or(if declared.None? then Some(BadCount(g.countTag)) else None,
         Or(EntriesError(run.entries, g, depth),
            if declared.Some? && declared.value != |run.entries| && !Unparseable(run.entries, g, true)
            then Some(WrongCount(g.countTag, declared.value, |run.entries|)) else None))
  }

  ghost function EntriesError(entries: seq<Entry>, g: Spec, depth: nat): Option<GroupError>
    decreases entries, 2
  {
    if entries == [] then None
    else Or(EntryError(entries[0], g, depth), EntriesError(entries[1..], g, depth))
  }

  ghost function EntryError(entry: Entry, g: Spec, depth: nat): Option<GroupError>
    decreases entry, 1
  {
    Or(if entry.items != [] && !LedByDelimiter(entry, g)
       then Some(WrongDelimiter(g.countTag, g.delimiter, entry.items[0].Tag())) else None,
       ItemsError(entry.items, {}, g, depth))
  }

  ghost function ItemsError(items: seq<Item>, seen: set<Tag>, g: Spec, depth: nat): Option<GroupError>
    decreases items, 1
  {
    if items == [] then None
    else
      var tag := items[0].Tag();
      Or(if tag in seen then Some(TagRepeated(g.countTag, tag)) else None,
         Or(ItemError(items[0], g, depth), ItemsError(items[1..], seen + {tag}, g, depth)))
  }

  ghost function ItemError(item: Item, g: Spec, depth: nat): Option<GroupError>
    decreases item, 1
  {
    match item
    case Plain(_) => None
    case Nested(run) =>
      match Lookup(g.nested, run.count.tag)
      case None => None
      case Some(nested) => RunError(run, nested, depth + 1)
  }

  lemma FirstErrorAppend(log: seq<Event>, event: Event)
    ensures FirstErrorIn(log + [event]) == Or(FirstErrorIn(log), ErrorOf(event))
    ensures FirstTooDeep(log + [event]) == Or(FirstTooDeep(log), if event.TooDeep? then Some(event.g.countTag) else None)
  {
    assert (log + [event])[..|log|] == log;
  }

  lemma {:induction false} RunErrorIsFirst(log: seq<Event>, run: Run, g: Spec, depth: nat)
    ensures FirstErrorIn(RunLog(log, run, g, depth, true)) == Or(FirstErrorIn(log), RunError(run, g, depth))
    decreases run, 3
  {
    if depth > MAX_SCOPE_DEPTH {
      FirstErrorAppend(log, TooDeep(g));
    } else {
      var entered := log + [GroupEntered(g)];
      FirstErrorAppend(log, GroupEntered(g));
      FirstErrorAppend(entered, InvalidCount(g, run.count.value));
      var opening := OpenLog(log, run, g);
      EntriesErrorIsFirst(opening, run.entries, 0, g, depth);
      CloseErrorIsFirst(EntriesLog(opening, run.entries, 0, g, depth, true), run, g, Unparseable(run.entries, g, true));
    }
  }

  lemma CloseErrorIsFirst(log: seq<Event>, run: Run, g: Spec, bad: bool)
    ensures var declared := CountValue(run.count.value);
            FirstErrorIn(CloseLog(log, run, g, bad))
            == Or(FirstErrorIn(log), if declared.Some? && declared.value != |run.entries| && !bad
                                     then Some(WrongCount(g.countTag, declared.value, |run.entries|)) else None)
    ensures FirstTooDeep(CloseLog(log, run, g, bad)) == FirstTooDeep(log)
  {
    var declared := CountValue(run.count.value);
    var left := GroupLeft(g, declared == Some(|run.entries|) && !bad, |run.entries|);
    FirstErrorAppend(log, left);
    if declared.Some? {
      var mismatch := CountMismatch(g, declared.value, |run.entries|);
      FirstErrorAppend(log, mismatch);
      FirstErrorAppend(log + [mismatch], left);
    }
  }

  lemma {:induction false} EntriesErrorIsFirst(log: seq<Event>, entries: seq<Entry>, k: nat, g: Spec, depth: nat)
    ensures FirstErrorIn(EntriesLog(log, entries, k, g, depth, true)) == Or(FirstErrorIn(log), EntriesError(entries, g, depth))
    decreases entries, 2
  {
    if entries != [] {
      EntryErrorIsFirst(log, entries[0], k, g, depth);
      EntriesErrorIsFirst(EntryLog(log, entries[0], k, g, depth, true), entries[1..], k + 1, g, depth);
    }
  }

  lemma {:induction false} EntryErrorIsFirst(log: seq<Event>, entry: Entry, k: nat, g: Spec, depth: nat)
    ensures FirstErrorIn(EntryLog(log, entry, k, g, depth, true)) == Or(FirstErrorIn(log), EntryError(entry, g, depth))
    decreases entry, 1
  {
    if entry.items != [] {
      FirstErrorAppend(log, DelimiterMismatch(g, entry.items[0].Tag()));
    }
    var led := LeadLog(log, entry, g);
    ItemsErrorIsFirst(led, entry.items, {}, g, depth);
    FirstErrorAppend(ItemsLog(led, entry.items, {}, g, depth, true), EntryClosed(g, k, OwnTags(entry.items)));
  }

  lemma {:induction false} ItemsErrorIsFirst(log: seq<Event>, items: seq<Item>, seen: set<Tag>, g: Spec, depth: nat)
    ensures FirstErrorIn(ItemsLog(log, items, seen, g, depth, true)) == Or(FirstErrorIn(log), ItemsError(items, seen, g, depth))
    decreases items, 1
  {
    if items != [] {
      var tag := items[0].Tag();
      FirstErrorAppend(log, RepeatedTag(g, tag));
      var repeated := RepeatLog(log, tag, seen, g, true);
      ItemErrorIsFirst(repeated, items[0], g, depth);
      ItemsErrorIsFirst(NestedLog(repeated, items[0], g, depth, true), items[1..], seen + {tag}, g, depth);
    }
  }

  lemma {:induction false} ItemErrorIsFirst(log: seq<Event>, item: Item, g: Spec, depth: nat)
    ensures FirstErrorIn(NestedLog(log, item, g, depth, true)) == Or(FirstErrorIn(log), ItemError(item, g, depth))
    decreases item, 1
  {
    match item
    case Plain(_) =>
    case Nested(run) =>
      match Lookup(g.nested, run.count.tag)
      case None =>
      case Some(nested) => RunErrorIsFirst(log, run, nested, depth + 1);
  }

  // ----- the first group past the depth limit -----

  ghost function DeepRun(run: Run, g: Spec, depth: nat): Option<Tag>
    decreases run, 3
  {
    if depth > MAX_SCOPE_DEPTH then Some(g.countTag) else DeepEntries(run.entries, g, depth)
  }

  ghost function DeepEntries(entries: seq<Entry>, g: Spec, depth: nat): Option<Tag>
    decreases entries, 2
  {
    if entries == [] then None
    else Or(DeepEntry(entries[0], g, depth), DeepEntries(entries[1..], g, depth))
  }

  ghost function DeepEntry(entry: Entry, g: Spec, depth: nat): Option<Tag>
    decreases entry, 1
  {
    DeepItems(entry.items, g, depth)
  }

  ghost function DeepItems(items: seq<Item>, g: Spec, depth: nat): Option<Tag>
    decreases items, 1
  {
    if items == [] then None else Or(DeepItem(items[0], g, depth), DeepItems(items[1..], g, depth))
  }

  ghost function DeepItem(item: Item, g: Spec, depth: nat): Option<Tag>
    decreases item, 1
  {
    match item
    case Plain(_) => None
    case Nested(run) =>
      match Lookup(g.nested, run.count.tag)
      case None => None
      case Some(nested) => DeepRun(run, nested, depth + 1)
  }

  /** Whoever listens, the first over-deep group a walk reports is the first in the tree. */
  lemma {:induction false} DeepRunIsFirst(log: seq<Event>, run: Run, g: Spec, depth: nat, track: bool)
    ensures FirstTooDeep(RunLog(log, run, g, depth, track)) == Or(FirstTooDeep(log), DeepRun(run, g, depth))
    decreases run, 3
  {
    if depth > MAX_SCOPE_DEPTH {
      FirstErrorAppend(log, TooDeep(g));
    } else {
      FirstErrorAppend(log, GroupEntered(g));
      FirstErrorAppend(log + [GroupEntered(g)], InvalidCount(g, run.count.value));
      var opening := OpenLog(log, run, g);
      DeepEntriesAreFirst(opening, run.entries, 0, g, depth, track);
      CloseErrorIsFirst(EntriesLog(opening, run.entries, 0, g, depth, track), run, g, Unparseable(run.entries, g, track));
    }
  }

  lemma {:induction false} DeepEntriesAreFirst(log: seq<Event>, entries: seq<Entry>, k: nat, g: Spec, depth: nat, track: bool)
    ensures FirstTooDeep(EntriesLog(log, entries, k, g, depth, track)) == Or(FirstTooDeep(log), DeepEntries(entries, g, depth))
    decreases entries, 2
  {
    if entries != [] {
      DeepEntryIsFirst(log, entries[0], k, g, depth, track);
      DeepEntriesAreFirst(EntryLog(log, entries[0], k, g, depth, track), entries[1..], k + 1, g, depth, track);
    }
  }

  lemma {:induction false} DeepEntryIsFirst(log: seq<Event>, entry: Entry, k: nat, g: Spec, depth: nat, track: bool)
    ensures FirstTooDeep(EntryLog(log, entry, k, g, depth, track)) == Or(FirstTooDeep(log), DeepEntry(entry, g, depth))
    decreases entry, 1
  {
    if entry.items != [] {
      FirstErrorAppend(log, DelimiterMismatch(g, entry.items[0].Tag()));
    }
    var led := LeadLog(log, entry, g);
    DeepItemsAreFirst(led, entry.items, {}, g, depth, track);
    FirstErrorAppend(ItemsLog(led, entry.items, {}, g, depth, track), EntryClosed(g, k, OwnTags(entry.items)));
  }

  lemma RepeatIsNotDeep(log: seq<Event>, tag: Tag, seen: set<Tag>, g: Spec, track: bool)
    ensures FirstTooDeep(RepeatLog(log, tag, seen, g, track)) == FirstTooDeep(log)
  {
    FirstErrorAppend(log, RepeatedTag(g, tag));
  }

  /** One item's part of a log, then the rest of the items'. */
  lemma {:induction false} DeepItemsAreFirst(log: seq<Event>, items: seq<Item>, seen: set<Tag>, g: Spec, depth: nat, track: bool)
    ensures FirstTooDeep(ItemsLog(log, items, seen, g, depth, track)) == Or(FirstTooDeep(log), DeepItems(items, g, depth))
    decreases items, 1
  {
    if items != [] {
      var tag := items[0].Tag();
      var repeated := RepeatLog(log, tag, seen, g, track);
      var next := NestedLog(repeated, items[0], g, depth, track);
      RepeatIsNotDeep(log, tag, seen, g, track);
      DeepItemIsFirst(repeated, items[0], g, depth, track);
      DeepItemsAreFirst(next, items[1..], seen + {tag}, g, depth, track);
      assert ItemsLog(log, items, seen, g, depth, track) == ItemsLog(next, items[1..], seen + {tag}, g, depth, track);
    }
  }

  lemma {:induction false} DeepItemIsFirst(log: seq<Event>, item: Item, g: Spec, depth: nat, track: bool)
    ensures FirstTooDeep(NestedLog(log, item, g, depth, track)) == Or(FirstTooDeep(log), DeepItem(item, g, depth))
    decreases item, 1
  {
    match item
    case Plain(_) =>
    case Nested(run) =>
      match Lookup(g.nested, run.count.tag)
      case None =>
      case Some(nested) => DeepRunIsFirst(log, run, nested, depth + 1, track);
  }

  /** A run with a group past the depth limit inside it has an error. */
  lemma {:induction false} DeepRunHasError(run: Run, g: Spec, depth: nat)
    requires DeepRun(run, g, depth).Some?
    ensures RunError(run, g, depth).Some?
    decreases run, 3
  {
    if depth <= MAX_SCOPE_DEPTH {
      DeepEntriesHaveError(run.entries, g, depth);
    }
  }

  lemma {:induction false} DeepEntriesHaveError(entries: seq<Entry>, g: Spec, depth: nat)
    requires DeepEntries(entries, g, depth).Some?
    ensures EntriesError(entries, g, depth).Some?
    decreases entries, 2
  {
    if DeepEntry(entries[0], g, depth).Some? {
      DeepEntryHasError(entries[0], g, depth);
    } else {
      DeepEntriesHaveError(entries[1..], g, depth);
    }
  }

  lemma {:induction false} DeepEntryHasError(entry: Entry, g: Spec, depth: nat)
    requires DeepEntry(entry, g, depth).Some?
    ensures EntryError(entry, g, depth).Some?
    decreases entry, 1
  {
    DeepItemsHaveError(entry.items, {}, g, depth);
  }

  lemma {:induction false} DeepItemsHaveError(items: seq<Item>, seen: set<Tag>, g: Spec, depth: nat)
    requires DeepItems(items, g, depth).Some?
    ensures ItemsError(items, seen, g, depth).Some?
    decreases items, 1
  {
    if DeepItem(items[0], g, depth).Some? {
      DeepItemHasError(items[0], g, depth);
    } else {
      DeepItemsHaveError(items[1..], seen + {items[0].Tag()}, g, depth);
    }
  }

  lemma {:induction false} DeepItemHasError(item: Item, g: Spec, depth: nat)
    requires DeepItem(item, g, depth).Some?
    ensures ItemError(item, g, depth).Some?
    decreases item, 1
  {
    DeepRunHasError(item.run, Lookup(g.nested, item.run.count.tag).value, depth + 1);
  }
}
