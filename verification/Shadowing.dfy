/**
 The boundary a count does not settle: a field the message level accepts, behind a group that holds
 every entry it declares, is read as the group's when it is a member other than the delimiter.
 */
module Shadowing {
  import opened Wire
  import opened GroupSpecs
  import opened GroupTree
  import opened Grammar
  import opened Message
  import opened Reader

  /** NoPartyIDs (453), whose entries open with PartyID (448) and may carry Text (58), as the message may. */
  const PARTIES: Spec := Spec(453, 448, [58, 448], [])
  const LAYOUT: GroupSet := GroupSet([PARTIES], [58, 453])

  const COUNT: Field := Field(453, [49])
  const PARTY: Field := Field(448, [65])
  const TEXT: Field := Field(58, [66])
  const SEEN: Run := Run(COUNT, [Entry([Plain(PARTY), Plain(TEXT)])])

  lemma One<T>(x: T)
    ensures [x][1..] == []
  {
  }

  lemma LayoutIsValid()
    ensures ValidSet(LAYOUT) && Lookup(LAYOUT.groups, 453) == Some(PARTIES) && Lookup(PARTIES.nested, 58) == None
    ensures Lookup(LAYOUT.groups, 58) == None
  {
    One(PARTIES);
    assert CountTags([PARTIES]) == [453];
    assert CountTags([]) == [];
    assert ValidSpec(PARTIES);
  }

  lemma SeenIsFlat()
    ensures FlatItems([Nested(SEEN)]) == [COUNT, PARTY, TEXT]
  {
    var items := [Plain(PARTY), Plain(TEXT)];
    One(Plain(TEXT));
    assert FlatItems([Plain(TEXT)]) == [TEXT];
    assert items[1..] == [Plain(TEXT)];
    assert FlatItems(items) == [PARTY, TEXT];
    One(Entry(items));
    assert FlatEntries([]) == [];
    assert FlatEntries(SEEN.entries) == FlatItems(items) + FlatEntries([]);
    assert FlatEntries(SEEN.entries) == [PARTY, TEXT];
    One(Nested(SEEN));
    assert FlatItem(Nested(SEEN)) == FlatRun(SEEN) == [COUNT, PARTY, TEXT];
    assert FlatItems([]) == [];
  }

  lemma SeenIsWellFormed()
    ensures WellFormed(SEEN, PARTIES, 0)
  {
    var items := [Plain(PARTY), Plain(TEXT)];
    assert Decimal(1) == [49];
    DecimalRoundTrip(1);
    One(Plain(TEXT));
    assert items[1..] == [Plain(TEXT)];
    assert WellFormedItems([], PARTIES, 0);
    assert WellFormedItems([Plain(TEXT)], PARTIES, 0);
    assert WellFormedItems(items, PARTIES, 0);
    assert WellFormedEntry(Entry(items), PARTIES, 0);
    One(Entry(items));
    assert WellFormedEntries([], PARTIES, 0);
  }

  /** The message level accepts Text (58) and one party was declared, yet Text is not found at the message level. */
  lemma AcceptedTagIsTaken()
    ensures ValidSet(LAYOUT) && TEXT.tag in LAYOUT.level
    ensures MessageItems([COUNT, PARTY, TEXT], 0, LAYOUT) == [Nested(SEEN)]
    ensures FieldItems([Nested(SEEN)], 0, LAYOUT, TEXT.tag) == None
  {
    LayoutIsValid();
    SeenIsFlat();
    SeenIsWellFormed();
    One(Nested(SEEN));
    One(Plain(TEXT));
    One(SEEN.entries[0]);
    var items := [Plain(PARTY), Plain(TEXT)];
    assert items[1..] == [Plain(TEXT)];
    assert FitItems([], PARTIES, None);
    assert FitItems([Plain(TEXT)], PARTIES, None);
    assert FitItems(items, PARTIES, None);
    assert SEEN.entries[1..] == [] && FlatEntries([]) == [];
    assert FitEntries([], PARTIES, None);
    assert FitEntries(SEEN.entries, PARTIES, None);
    assert Fits(SEEN, PARTIES, LAYOUT.level, None);
    assert FitItems([], TopScope(LAYOUT), None);
    assert FitItems([Nested(SEEN)], TopScope(LAYOUT), None);
    assert MatchItems([], LAYOUT.groups, 0);
    var fields := [COUNT, PARTY, TEXT];
    assert fields[0..] == fields;
    MessageFound(fields, 0, [Nested(SEEN)], LAYOUT);
    WellFormedRunHasNoError(SEEN, PARTIES, 0);
    assert FieldItems([], |FlatItem(Nested(SEEN))|, LAYOUT, TEXT.tag) == None;
  }
}
