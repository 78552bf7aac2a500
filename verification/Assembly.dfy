/** Assembling a dictionary, and what every assembled dictionary has: grounded definitions and genuine delimiters. */
module Assembly {
  import opened Wire
  import opened Schema
  import opened Layout
  import opened Paths
  import opened Loader

  /** A parsed document: named component and message definitions, and the fields by name. */
  datatype Document = Document(
    tags: map<Name, Tag>,
    fields: map<Tag, FieldDef>,
    header: seq<Node>,
    trailer: seq<Node>,
    components: Graph,
    order: seq<Name>,
    messages: seq<(Name, seq<Node>)>)

  /** The header and trailer keep their fields and groups. */
  function WithoutComponents(ms: seq<Member>): (kept: seq<Member>)
    ensures forall m :: m in kept <==> m in ms && !m.ComponentRef?
  {
    if ms == [] then []
    else (if ms[0].ComponentRef? then [] else [ms[0]]) + WithoutComponents(ms[1..])
  }

  /** What is kept stands in the order it was listed in, each as often as there. */
  lemma {:induction false} WithoutComponentsConcat(a: seq<Member>, b: seq<Member>)
    ensures WithoutComponents(a + b) == WithoutComponents(a) + WithoutComponents(b)
  {
    if a == [] {
      assert a + b == b;
    } else {
      assert (a + b)[0] == a[0] && (a + b)[1..] == a[1..] + b;
      WithoutComponentsConcat(a[1..], b);
    }
  }

  lemma WithoutComponentsSingle(m: Member)
    ensures WithoutComponents([m]) == if m.ComponentRef? then [] else [m]
  {
    assert [m][1..] == [];
  }

  /** Every definition of the dictionary is a resolved definition of the document. */
  ghost predicate Assembles(doc: Document, d: Dictionary) {
    && Accepted(doc.components)
    && d.fields == doc.fields
    && d.components.Keys == doc.components.Keys
    && (forall c :: c in d.components ==> Resolves(doc.components, doc.tags, doc.components[c], d.components[c]))
    && (forall name :: name in d.messages <==> exists m :: 0 <= m < |doc.messages| && doc.messages[m].0 == name)
    && (forall m :: 0 <= m < |doc.messages| ==>
          doc.messages[m].0 in d.messages
          && Resolves(doc.components, doc.tags, doc.messages[m].1, d.messages[doc.messages[m].0]))
    && (exists ms :: Resolves(doc.components, doc.tags, doc.header, ms) && d.header == WithoutComponents(ms))
    && (exists ms :: Resolves(doc.components, doc.tags, doc.trailer, ms) && d.trailer == WithoutComponents(ms))
  }

  ghost predicate Resolvable(doc: Document, items: seq<Node>) {
    exists ms :: Resolves(doc.components, doc.tags, items, ms)
  }

  predicate DistinctMessages(doc: Document) {
    forall m, n :: 0 <= m < n < |doc.messages| ==> doc.messages[m].0 != doc.messages[n].0
  }

  /** What a document must be for a dictionary to be made of it. */
  ghost predicate Assemblable(doc: Document) {
    && (forall c :: c in doc.components ==> Acceptable(doc.components, c) && Resolvable(doc, doc.components[c]))
    && Resolvable(doc, doc.header) && Resolvable(doc, doc.trailer)
    && DistinctMessages(doc) && forall m :: 0 <= m < |doc.messages| ==> Resolvable(doc, doc.messages[m].1)
  }

  /** The `n`th component in declaration order is the first that does not resolve, and the error says why. */
  ghost predicate ComponentFails(doc: Document, n: nat, error: LoadError) {
    && n < |doc.order| && doc.order[n] in doc.components
    && (forall j :: 0 <= j < n ==> doc.order[j] in doc.components && Resolvable(doc, doc.components[doc.order[j]]))
    && !Resolvable(doc, doc.components[doc.order[n]])
    && ItemsFail(doc.components, doc.tags, doc.components[doc.order[n]], error)
  }

  /** The `n`th message is the first whose type is taken, or that does not resolve, and the error says which. */
  ghost predicate MessageFails(doc: Document, n: nat, error: LoadError) {
    && n < |doc.messages|
    && (forall j :: 0 <= j < n ==> Resolvable(doc, doc.messages[j].1))
    && (forall i, j :: 0 <= i < j < n ==> doc.messages[i].0 != doc.messages[j].0)
    && if exists j :: 0 <= j < n && doc.messages[j].0 == doc.messages[n].0 then error == DuplicateMessage(doc.messages[n].0)
       else !Resolvable(doc, doc.messages[n].1) && ItemsFail(doc.components, doc.tags, doc.messages[n].1, error)
  }

  /** Why a document is refused: the component graph first, then header, trailer, components and messages. */
  ghost predicate RefusedFor(doc: Document, error: LoadError) {
    if exists c :: c in doc.components && !Acceptable(doc.components, c) then FirstFault(doc.components, doc.order, error)
    else if !Resolvable(doc, doc.header) then ItemsFail(doc.components, doc.tags, doc.header, error)
    else if !Resolvable(doc, doc.trailer) then ItemsFail(doc.components, doc.tags, doc.trailer, error)
    else if exists c :: c in doc.components && !Resolvable(doc, doc.components[c]) then exists n :: ComponentFails(doc, n, error)
    else exists n :: MessageFails(doc, n, error)
  }

  /** A dictionary is made of exactly the documents it can be made of. */
  method Assemble(doc: Document) returns (result: Result<Dictionary, LoadError>)
    requires forall c :: c in doc.order <==> c in doc.components
    ensures result.Ok? <==> Assemblable(doc)
    ensures result.Ok? ==> Assembles(doc, result.value)
    ensures result.Err? ==> RefusedFor(doc, result.error)
  {
    var error := CheckComponentGraph(doc.components, doc.order);
    if error.Some? {
      return Err(error.value);
    }
    AcceptedGraph(doc.components);
    var resolver := new Resolver(doc.tags, doc.components);
    var header := resolver.ResolveMembers(doc.header);
    if header.Err? {
      return Err(header.error);
    }
    var trailer := resolver.ResolveMembers(doc.trailer);
    if trailer.Err? {
      return Err(trailer.error);
    }
    var components := ResolveComponents(doc, resolver);
    if components.Err? {
      return Err(components.error);
    }
    var messages := ResolveMessages(doc, resolver);
    if messages.Err? {
      return Err(messages.error);
    }
    var d := Dictionary(doc.fields, components.value, messages.value, WithoutComponents(header.value), WithoutComponents(trailer.value));
    AssembledFrom(doc, d, header.value, trailer.value);
    return Ok(d);
  }

  lemma AssembledFrom(doc: Document, d: Dictionary, header: seq<Member>, trailer: seq<Member>)
    requires forall c :: c in doc.components ==> Acceptable(doc.components, c)
    requires d.fields == doc.fields && d.components.Keys == doc.components.Keys
    requires forall c :: c in d.components ==> Resolves(doc.components, doc.tags, doc.components[c], d.components[c])
    requires MessagesResolved(doc, d.messages, |doc.messages|)
    requires Resolves(doc.components, doc.tags, doc.header, header) && d.header == WithoutComponents(header)
    requires Resolves(doc.components, doc.tags, doc.trailer, trailer) && d.trailer == WithoutComponents(trailer)
    ensures Assemblable(doc) && Assembles(doc, d)
  {
    AcceptedGraph(doc.components);
    forall c | c in doc.components ensures Resolvable(doc, doc.components[c]) {
      assert Resolves(doc.components, doc.tags, doc.components[c], d.components[c]);
    }
    assert Resolvable(doc, doc.header) && Resolvable(doc, doc.trailer);
    forall m | 0 <= m < |doc.messages| ensures Resolvable(doc, doc.messages[m].1) {
      assert Resolves(doc.components, doc.tags, doc.messages[m].1, d.messages[doc.messages[m].0]);
    }
  }

  method ResolveComponents(doc: Document, resolver: Resolver) returns (result: Result<map<Name, seq<Member>>, LoadError>)
    requires resolver.Valid() && resolver.tags == doc.tags && resolver.components == doc.components
    requires forall c :: c in doc.order <==> c in doc.components
    modifies resolver
    ensures resolver.Valid()
    ensures result.Ok? ==> result.value.Keys == doc.components.Keys
    ensures result.Ok? ==> forall c :: c in result.value ==> Resolves(doc.components, doc.tags, doc.components[c], result.value[c])
    ensures result.Err? ==> exists c :: c in doc.components && !Resolvable(doc, doc.components[c])
    ensures result.Err? ==> exists n :: ComponentFails(doc, n, result.error)
  {
    var components: map<Name, seq<Member>> := map[];
    for i := 0 to |doc.order|
      invariant resolver.Valid()
      invariant forall c :: c in components <==> c in doc.order[..i]
      invariant forall c :: c in components ==> c in doc.components && Resolves(doc.components, doc.tags, doc.components[c], components[c])
      invariant forall j :: 0 <= j < i ==> doc.order[j] in doc.components && Resolvable(doc, doc.components[doc.order[j]])
    {
      var name := doc.order[i];
      assert doc.order[..i + 1] == doc.order[..i] + [name];
      var members := resolver.ResolveMembers(doc.components[name]);
      if members.Err? {
        assert name in doc.components && !Resolvable(doc, doc.components[name]);
        assert ComponentFails(doc, i, members.error);
        return Err(members.error);
      }
      components := components[name := members.value];
    }
    assert doc.order[..|doc.order|] == doc.order;
    return Ok(components);
  }

  /** The first `i` messages are distinct and resolved, and no others are. */
  ghost predicate MessagesResolved(doc: Document, messages: map<Name, seq<Member>>, i: nat)
    requires i <= |doc.messages|
  {
    && (forall name :: name in messages <==> exists m :: 0 <= m < i && doc.messages[m].0 == name)
    && (forall m :: 0 <= m < i ==>
          doc.messages[m].0 in messages
          && Resolves(doc.components, doc.tags, doc.messages[m].1, messages[doc.messages[m].0]))
    && forall m, n :: 0 <= m < n < i ==> doc.messages[m].0 != doc.messages[n].0
  }

  method ResolveMessages(doc: Document, resolver: Resolver) returns (result: Result<map<Name, seq<Member>>, LoadError>)
    requires resolver.Valid() && resolver.tags == doc.tags && resolver.components == doc.components
    modifies resolver
    ensures resolver.Valid()
    ensures result.Ok? ==> MessagesResolved(doc, result.value, |doc.messages|)
    ensures result.Err? ==> !DistinctMessages(doc) || exists m :: 0 <= m < |doc.messages| && !Resolvable(doc, doc.messages[m].1)
    ensures result.Err? ==> exists n :: MessageFails(doc, n, result.error)
  {
    var messages: map<Name, seq<Member>> := map[];
    for i := 0 to |doc.messages|
      invariant resolver.Valid()
      invariant MessagesResolved(doc, messages, i)
      invariant forall j :: 0 <= j < i ==> Resolvable(doc, doc.messages[j].1)
    {
      var (name, items) := doc.messages[i];
      if name in messages {
        SecondMessageFails(doc, messages, i);
        return Err(DuplicateMessage(name));
      }
      var members := resolver.ResolveMembers(items);
      if members.Err? {
        MessageIsRefused(doc, messages, i, members.error);
        return Err(members.error);
      }
      MessageResolved(doc, messages, i, members.value);
      messages := messages[name := members.value];
    }
    return Ok(messages);
  }

  lemma SecondMessageFails(doc: Document, messages: map<Name, seq<Member>>, i: nat)
    requires i < |doc.messages| && MessagesResolved(doc, messages, i) && doc.messages[i].0 in messages
    requires forall j :: 0 <= j < i ==> Resolvable(doc, doc.messages[j].1)
    ensures !DistinctMessages(doc) && MessageFails(doc, i, DuplicateMessage(doc.messages[i].0))
  {
    var m :| 0 <= m < i && doc.messages[m].0 == doc.messages[i].0;
  }

  lemma MessageIsRefused(doc: Document, messages: map<Name, seq<Member>>, i: nat, error: LoadError)
    requires i < |doc.messages| && MessagesResolved(doc, messages, i) && doc.messages[i].0 !in messages
    requires forall j :: 0 <= j < i ==> Resolvable(doc, doc.messages[j].1)
    requires !Resolvable(doc, doc.messages[i].1) && ItemsFail(doc.components, doc.tags, doc.messages[i].1, error)
    ensures MessageFails(doc, i, error)
  {
  }

  lemma MessageResolved(doc: Document, messages: map<Name, seq<Member>>, i: nat, ms: seq<Member>)
    requires i < |doc.messages| && MessagesResolved(doc, messages, i) && doc.messages[i].0 !in messages
    requires Resolves(doc.components, doc.tags, doc.messages[i].1, ms)
    ensures MessagesResolved(doc, messages[doc.messages[i].0 := ms], i + 1)
  {
    var after := messages[doc.messages[i].0 := ms];
    forall name ensures name in after <==> exists m :: 0 <= m < i + 1 && doc.messages[m].0 == name {
      if name in messages {
        var m :| 0 <= m < i && doc.messages[m].0 == name;
      }
    }
  }

  // ----- grounded -----

  /** The dictionary's components are those of an accepted graph. */
  ghost predicate Resolved(g: Graph, tags: map<Name, Tag>, d: Dictionary) {
    && Accepted(g) && d.components.Keys == g.Keys
    && forall c :: c in g ==> Resolves(g, tags, g[c], d.components[c])
  }

  lemma {:induction false} FitsIsDone(g: Graph, tags: map<Name, Tag>, d: Dictionary, items: seq<Node>, ms: seq<Member>, n: nat)
    requires Resolved(g, tags, d) && Fits(g, items, n) && Resolves(g, tags, items, ms)
    ensures Done(d, ms, n)
    decreases n
  {
    forall i | 0 <= i < |ms| ensures DoneMember(d, ms[i], n) {
      assert ItemFits(g, items[i], n) && ResolvesItem(g, tags, items[i], ms[i]);
      match items[i]
      case Field(_, _) =>
      case Group(_, _, inner) =>
        FitsIsDone(g, tags, d, inner, ms[i].def.members, n - 1);
        DoneIsMonotone(d, ms[i].def.members, n - 1, n);
      case Component(name, _) =>
        FitsIsDone(g, tags, d, g[name], d.components[name], n - 1);
    }
  }

  /** Whatever refers to accepted components, however deep its own groups, is grounded. */
  lemma {:induction false} ResolvedIsDone(g: Graph, tags: map<Name, Tag>, d: Dictionary, items: seq<Node>, ms: seq<Member>)
    requires Resolved(g, tags, d) && Resolves(g, tags, items, ms)
    ensures Done(d, ms, MAX_COMPONENT_DEPTH)
    decreases items
  {
    forall i | 0 <= i < |ms| ensures DoneMember(d, ms[i], MAX_COMPONENT_DEPTH) {
      assert ResolvesItem(g, tags, items[i], ms[i]);
      match items[i]
      case Field(_, _) =>
      case Group(_, _, inner) => ResolvedIsDone(g, tags, d, inner, ms[i].def.members);
      case Component(name, _) => FitsIsDone(g, tags, d, g[name], d.components[name], MAX_COMPONENT_DEPTH - 1);
    }
  }

  /** In an assembled dictionary every message, and the header and trailer, can be expanded in full. */
  lemma AssembledIsGrounded(doc: Document, d: Dictionary, name: Name)
    requires Assembles(doc, d) && name in d.messages
    ensures Grounded(d, d.messages[name]) && Grounded(d, d.header) && Grounded(d, d.trailer)
  {
    var m :| 0 <= m < |doc.messages| && doc.messages[m].0 == name;
    ResolvedIsDone(doc.components, doc.tags, d, doc.messages[m].1, d.messages[name]);
    var header :| Resolves(doc.components, doc.tags, doc.header, header) && d.header == WithoutComponents(header);
    ResolvedIsDone(doc.components, doc.tags, d, doc.header, header);
    KeptAreDone(d, header);
    var trailer :| Resolves(doc.components, doc.tags, doc.trailer, trailer) && d.trailer == WithoutComponents(trailer);
    ResolvedIsDone(doc.components, doc.tags, d, doc.trailer, trailer);
    KeptAreDone(d, trailer);
  }

  lemma KeptAreDone(d: Dictionary, ms: seq<Member>)
    requires Done(d, ms, MAX_COMPONENT_DEPTH)
    ensures Done(d, WithoutComponents(ms), MAX_COMPONENT_DEPTH)
  {
    var kept := WithoutComponents(ms);
    forall i | 0 <= i < |kept| ensures DoneMember(d, kept[i], MAX_COMPONENT_DEPTH) {
      assert kept[i] in kept;
      var j :| 0 <= j < |ms| && ms[j] == kept[i];
    }
  }

  // ----- delimiters -----

  /** The tags the leaves stand for. */
  function LeafTags(tags: map<Name, Tag>, leaves: seq<Leaf>): seq<Tag> {
    if leaves == [] then []
    else [if leaves[0].Named? && leaves[0].name in tags then tags[leaves[0].name] else 0] + LeafTags(tags, leaves[1..])
  }

  lemma LeafTagsConcat(tags: map<Name, Tag>, a: seq<Leaf>, b: seq<Leaf>)
    ensures LeafTags(tags, a + b) == LeafTags(tags, a) + LeafTags(tags, b)
  {
    if a == [] {
      assert a + b == b;
    } else {
      assert (a + b)[0] == a[0] && (a + b)[1..] == a[1..] + b;
      LeafTagsConcat(tags, a[1..], b);
    }
  }

  /** The leaves of item `i` come before those of the items behind it. */
  lemma LeavesUnfold(g: Graph, tags: map<Name, Tag>, items: seq<Node>, i: nat, n: nat)
    requires i < |items| && Covers(g, items, n)
    requires !items[i].Component? ==> items[i].name in tags
    requires items[i].Component? ==> items[i].name in g
    ensures items[i].Component? ==> n > 0
    ensures LeafTags(tags, Flat(g, items[i..], n))
            == (if items[i].Component? then LeafTags(tags, Flat(g, g[items[i].name], n - 1)) else [tags[items[i].name]])
               + LeafTags(tags, Flat(g, items[i + 1..], n))
  {
    assert items[i..][0] == items[i] && items[i..][1..] == items[i + 1..];
    var leaves := Flat(g, items[i + 1..], n);
    if items[i].Component? {
      LeafTagsConcat(tags, Flat(g, g[items[i].name], n - 1), leaves);
    } else {
      LeafTagsConcat(tags, [Named(items[i].name)], leaves);
      assert [Named(items[i].name)][1..] == [];
    }
  }

  lemma ViewTagsUnfold(d: Dictionary, part: Part, required: bool, path: set<Name>, i: nat)
    requires i < |part.members|
    ensures TagsOf(ViewItems(d, part, required, path, i))
            == TagsOf(StepItems(d, part, required, path, i)) + TagsOf(ViewItems(d, part, required, path, i + 1))
    ensures !part.members[i].ComponentRef? ==>
              TagsOf(StepItems(d, part, required, path, i)) == [OwnItem(part, i, required, path).Tag()]
  {
    TagsConcat(StepItems(d, part, required, path, i), ViewItems(d, part, required, path, i + 1));
    if !part.members[i].ComponentRef? {
      assert [OwnItem(part, i, required, path)][1..] == [];
    }
  }

  /** Where it does not meet the path guard, the document-order expansion of a definition lists the tags of its leaves. */
  lemma {:induction false} ViewListsLeaves(g: Graph, tags: map<Name, Tag>, d: Dictionary, items: seq<Node>, part: Part,
                                           required: bool, path: set<Name>, i: nat, n: nat)
    requires Resolved(g, tags, d) && Resolves(g, tags, items, part.members) && Covers(g, items, n)
    requires Unguarded(d, part.members, path) && i <= |items|
    ensures TagsOf(ViewItems(d, part, required, path, i)) == LeafTags(tags, Flat(g, items[i..], n))
    decreases n, |items| - i
  {
    if i < |items| {
      assert ResolvesItem(g, tags, items[i], part.members[i]);
      ViewListsLeaves(g, tags, d, items, part, required, path, i + 1, n);
      ViewTagsUnfold(d, part, required, path, i);
      LeavesUnfold(g, tags, items, i, n);
      if items[i].Component? {
        ComponentListsLeaves(g, tags, d, items[i].name, required && items[i].required, path, n);
      }
    }
  }

  lemma {:induction false} ComponentListsLeaves(g: Graph, tags: map<Name, Tag>, d: Dictionary, name: Name, required: bool,
                                                path: set<Name>, n: nat)
    requires Resolved(g, tags, d) && name in g && n > 0 && Fits(g, g[name], n - 1) && Entered(d, name, path)
    ensures TagsOf(ReferenceView(d, name, required, path)) == LeafTags(tags, Flat(g, g[name], n - 1))
    decreases n, 0
  {
    FitsCovers(g, g[name], n - 1);
    ViewListsLeaves(g, tags, d, g[name], ComponentPart(d, name), required, path + {name}, 0, n - 1);
    assert g[name][0..] == g[name];
  }

  /**
   A group's delimiter is the first tag its members expand to in document order, and so a member of its
   entries, wherever its expansion does not meet the path guard: at the least where nothing is being expanded.
   */
  lemma DelimiterIsFirstMember(g: Graph, tags: map<Name, Tag>, d: Dictionary, group: Node, def: GroupDef, at: Address, path: set<Name>)
    requires Resolved(g, tags, d) && group.Group? && ResolvesItem(g, tags, group, GroupRef(def))
    ensures Unguarded(d, def.members, {})
    ensures Unguarded(d, def.members, path) ==>
              var part := Part(at, def.members);
              && ViewItems(d, part, true, path, 0) != [] && ViewItems(d, part, true, path, 0)[0].Tag() == def.delimiter
              && def.delimiter in TagsOf(LayoutItems(d, part, true, path))
  {
    var part := Part(at, def.members);
    ResolvedIsDone(g, tags, d, group.items, def.members);
    assert Lower(d, def.members, {}, MAX_COMPONENT_DEPTH);
    LowerIsUnguarded(d, def.members, {}, MAX_COMPONENT_DEPTH);
    if Unguarded(d, def.members, path) {
      AcceptedCovers(g, group.items);
      ViewListsLeaves(g, tags, d, group.items, part, true, path, 0, MAX_COMPONENT_DEPTH);
      assert group.items[0..] == group.items;
      FirstIsMember(d, part, path);
    }
  }

  lemma FirstIsMember(d: Dictionary, part: Part, path: set<Name>)
    ensures ViewItems(d, part, true, path, 0) != [] ==>
              ViewItems(d, part, true, path, 0)[0].Tag() in TagsOf(LayoutItems(d, part, true, path))
  {
    var view, layout := ViewItems(d, part, true, path, 0), LayoutItems(d, part, true, path);
    if view != [] {
      SameTags(d, part, true, path, view[0]);
      var j :| 0 <= j < |layout| && layout[j] == view[0];
      assert TagsOf(layout)[j] == view[0].Tag();
    }
  }
}
