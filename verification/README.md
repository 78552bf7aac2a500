# IronFix repeating groups, verified

A Dafny model of the part of IronFix that decides where a FIX repeating group begins and ends, and of the
code generators that must agree with that decision. The wire rule is the "Repeating Groups" section of the
"Tag=Value" Syntax chapter of FIX 4.4 Volume 1.

What the project follows, from the wire upwards:

- **The walk** (`Wire`, `GroupSpecs`, `EntryTagSet`, `GroupTree`, `Walk`). A flat list of `(tag, value)` fields is
  split by two mutually recursive loops. The methods are proved against a tree function that does not mention
  the visitor, so every visitor sees the same boundaries, and against the log of events that tree gives rise to.
- **The grammar** (`Grammar`, `GroupCheck`, `Boundaries`, `Verdict`, `Faults`, `Shadowing`). An independent description of
  well-formed group instances and of the fields that may follow them. The checked walk reports no error exactly when
  this grammar derives the run, and the derivation is unique. For malformed runs too, where every entry and run ends
  is stated on the fields alone, and the error is the fault at the first faulty position of the tree.
- **The readers** (`Message`, `Reader`). `GroupSet::read` and `GroupSet::field`, the checked and the trusted iterators,
  and the lookups inside an entry that walk again without checking, on a slice cut at the entry's end.
- **The dictionary** (`Schema`, `Loader`, `Assembly`). The component-graph check, the first-tag memo that picks every
  delimiter, and the assembly of resolved definitions.
- **Two expansions** (`Sorting`, `Layout`, `Expense`, `Scope`, `Paths`, `Required`, `GroupChains`, `FirstRefs`, `References`,
  `ViewLevels`, `ViewEntries`, `ViewOrder`, `Sites`, `Views`, `Agreement`, `SharedSites`, `Tables`). The layout's bounded builder, fields first, and the view generator's
  builder, document order with one site per group definition, are each proved against functions of the dictionary
  and of the components being expanded, on any dictionary, cycles included. Wherever a layout's path guard is not
  met, both give every level the same tags, keep the same groups and require the same members. Which group is kept,
  and whether it is required, is also stated by chains of references, as is the order of a view's members.
- **Writers and the round trip** (`Levels`, `Writer`, `Recovery`, `Conformance`, `RoundTrip`, `Generated`, `Pairing`, `EndToEnd`).
  What a generated writer sends after its check passed is read back as the same tree; that tree gives back every value
  it was written with, in member order, and holds nothing a check forbids. The levels the generator builds meet the
  conditions for it, so the statement holds from the dictionary to the wire and back.
- **Structs and names** (`Structs`, `Names`). The reachability pass that leaves the second pass nothing to fail on
  but an undefined field, and the fresh-name allocators.
- **Two small cores** (`Timestamp`, `Garbled`). The fixed-width UTC timestamp printer (UTCTimestamp data type of FIX 4.4
  Volume 1), and the sliding window over garbled frames.

Objects the source updates in place (visitors, the seen-tags bitset, iterators, builders, the sink, the
window) are classes; loops are loops; every such method is proved against a function or predicate of its
inputs or old state. A field list, and an index into it, stand for borrowed slices. Where a definition is
identified by its address in memory, `Schema.Address` says where in the dictionary it stands.

`dafny verify dfyconfig.toml` checks the whole project.

## Where code and documentation differ

The documentation of `GroupSet::with_level_tags` (ironfix-dictionary/src/group.rs:513-515) says that once a group
holds every entry it declares, a field the message level also accepts ends the group. The code ends it there
only for the delimiter, or when the declared count is zero: any other member tag is taken into the last
entry. The model follows the code. `Shadowing.AcceptedTagIsTaken` gives a message on which the two differ,
`GroupCheck.FollowingMemberIsTaken` shows that it happens for every such tag, and
`GroupCheck.ReadsBackExactlyWhenItFits` gives the exact condition under which an instance is read back.

## Dictionaries with cycles

The loader refuses a component that contains itself; a dictionary built by hand or deserialised may have one, and
both expansions guard against it (ironfix-dictionary/src/scope.rs:18-21 and 304-309, ironfix-codegen/src/views.rs:641-648).
Two properties that hold of every loaded dictionary fail on such a one, without any error being reported:

- An entry is documented to require what required references lead to. A group met inside component A skips its own
  reference to A, and an entry then lacks what A requires. `Required.CircularEntryLacksATag` is such a dictionary.
  `Required.EntryRequiresByPaths` says what an entry requires on any dictionary, and `Required.EntryRequiresAllExactly`
  when that is everything: exactly when what lies behind each reference the guard skips is required by another chain.
  At the message level nothing is skipped that matters: `Required.MessageRequiresByPaths` needs no condition.
- The generator keeps one site per group definition and looks a definition up again without expanding it. Its
  documentation (ironfix-codegen/src/views.rs:686-690) says a cycle through a group is still caught, as a definition
  can be reached again only through the component that declares it; but it can be reached from another message.
  `SharedSites.SharedSiteDiffers` is a dictionary none of whose expansions meets the generator's guard
  (`SharedSites.CircularHasSites` gives its sites), and a static table that differs from the layout's.
  `Agreement.ExpansionsAgree` holds where expanding the groups a layout keeps never meets the guard, which every
  grounded dictionary gives (`Agreement.GroundedIsUnguarded`); `SharedSites.SiteTagsAgreeExactly` is the exact
  condition for the tags of one entry.

## Model

| member | source | states |
|---|---|---|
| Wire.ParseCount | ironfix-dictionary/src/walk.rs:164-176 | a count is accepted exactly when it is non-empty, all digits and fits a `u64`, and then it is the number the digits denote |
| Wire.DecimalRoundTrip | ironfix-codegen/src/views.rs:2569-2583 | a number printed in decimal is read back as that number, for every `u64` |
| GroupSpecs.NewSpec | ironfix-dictionary/src/group.rs:330-367 | the constructor accepts exactly the tables with sorted members that include the delimiter and every nested count tag, and which error each other table gets, the first nested count tag missing included |
| GroupSpecs.NewSet | ironfix-dictionary/src/group.rs:491-499 | a set is accepted exactly when its count tags ascend |
| GroupSpecs.WithLevelTags | ironfix-dictionary/src/group.rs:541-565 | a set with level tags is accepted exactly when both lists ascend and the level lists every group |
| GroupSpecs.StrictlyAscending | ironfix-dictionary/src/group.rs:221-234 | the constructor's loop decides strict ascent |
| GroupSpecs.FirstMissing | ironfix-dictionary/src/group.rs:551-558 | the first count tag its level does not list, if any |
| EntryTagSet.EntryTags.InsertRank | ironfix-dictionary/src/walk.rs:138-148 | setting a bit adds exactly that member to the set, and says whether it was new |
| EntryTagSet.EntryTags.Clear | ironfix-dictionary/src/walk.rs:127-129 | clearing the words empties the set |
| EntryTagSet.EntryTags.Contains | ironfix-dictionary/src/walk.rs:151-157 | a tag is contained exactly when it was inserted since the last clear |
| Walk.WalkGroup | ironfix-dictionary/src/walk.rs:195-300 | whatever the visitor, the walk ends where the tree function ends, strictly past the count field, and adds to the visitor's log exactly the events of the walked tree |
| Walk.ReadLedEntries | ironfix-dictionary/src/walk.rs:255-284 | the entry loop reads the entries of the tree and reports each in order; where it stops is `Boundaries.RunEnds` |
| Walk.ScanEntry | ironfix-dictionary/src/walk.rs:327-373 | an entry's scan stops where the tree's entry stops, reporting a repeated tag exactly where the entry's own level repeats one |
| Walk.EntryEnd | ironfix-dictionary/src/walk.rs:306-322 | the unchecked scan finds the same end as the checked one |
| Walk.Visitor.Notify | ironfix-dictionary/src/group.rs:893-993 | the listeners: the first error kept, the first too-deep group, the entry count of the group left last |
| Grammar.WalkPartitions | ironfix-dictionary/src/walk.rs:195-300 | the walked tree, flattened, is exactly the fields between the count field and the end |
| Grammar.WalkFindsDerived | ironfix-dictionary/src/walk.rs:195-300 | a run the grammar derives is the run the walk finds |
| GroupCheck.CheckIsSoundAndComplete | ironfix-dictionary/src/group.rs:903-993 | no event is an error exactly when the grammar derives the run at that place |
| GroupCheck.DerivationIsUnique | ironfix-dictionary/src/walk.rs:178-194 | at one place at most one run is derived |
| GroupCheck.WalkFits | ironfix-dictionary/src/walk.rs:195-300 | what follows a walked group is not a tag the group would have absorbed |
| GroupCheck.ReadsBackExactlyWhenItFits | ironfix-dictionary/src/walk.rs:186-194 | a well-formed instance is walked back exactly when nothing in or after it is followed by a tag it would take |
| GroupCheck.FollowingMemberIsTaken | ironfix-dictionary/src/group.rs:513-515 | a member tag other than the delimiter behind a group with entries is always taken, whatever the level accepts |
| Boundaries.WalkedExactly | ironfix-dictionary/src/walk.rs:195-300 | well-formed or not, a walk gives these entries and this end exactly when they are the fields there and every entry and run, nested ones included, is bounded: each later entry led by the delimiter, a member behind a run only where it belongs to an enclosing level and the count is met |
| Boundaries.RunEnds | ironfix-dictionary/src/walk.rs:257-284 | a member tag right behind any walked run belongs to an enclosing level, the run has the entries it declares, and it is empty or the tag is the delimiter; every entry but the first opens with the delimiter |
| Shadowing.AcceptedTagIsTaken | ironfix-dictionary/src/group.rs:513-515 | a concrete message on which the documented boundary is not the one read |
| Verdict.RunErrorIsFirst | ironfix-dictionary/src/group.rs:903-993 | the error kept is the first fault of the tree in document order |
| Verdict.DeepRunIsFirst | ironfix-dictionary/src/group.rs:885-901 | the depth guard names the first group past the depth limit |
| Faults.RunErrorIsFirstFault | ironfix-dictionary/src/group.rs:903-993 | the error of any walked run, by position: the first entry that is faulty, its delimiter, first faulty nested run or first repeated tag, and otherwise the count, with the values each error carries |
| Faults.DeepRunIsFirstDeep | ironfix-dictionary/src/group.rs:885-901 | the depth guard finds a group exactly when one is nested past the limit, and then the first such in document order |
| Message.MessagePartition | ironfix-dictionary/src/group.rs:743-764 | the message level splits into plain fields and group runs that together are the whole message |
| Message.MessageEndsRight | ironfix-dictionary/src/walk.rs:257-284 | every group instance of a message, well-formed or not, ends where its own fields say, nested instances included |
| Message.CheckRun | ironfix-dictionary/src/group.rs:666-672 | checking one instance gives the first fault of its run, or its entry count |
| Message.Read | ironfix-dictionary/src/group.rs:648-693 | reading a group fails exactly when there is a first item that is a faulty or a second instance of it, another group nested too deep, or a plain field under its tag, with that item's error; otherwise it is the one instance, or none |
| Message.FindField | ironfix-dictionary/src/group.rs:743-764 | the first message-level field of a tag by position, none past a group nested too deep |
| Message.ReadFindsNoSecond | ironfix-dictionary/src/group.rs:662-668 | a group read successfully stands only once at the message level |
| Message.ReadAgreesWithField | ironfix-dictionary/src/group.rs:648-764 | a group read is the field found, and no group read means no field found |
| Message.NothingPastADeepGroup | ironfix-dictionary/src/group.rs:885-901 | a message with a group nested past the limit is not read, whichever group is asked for, and a lookup finds nothing behind it |
| Reader.GroupEntries.Next | ironfix-dictionary/src/group.rs:1055-1077 | the iterator hands out the next entry of the tree, its index and its fields |
| Reader.Trusted | ironfix-dictionary/src/group.rs:1021-1040 | an iterator made without checking stands on the tree of the instance it is given |
| Reader.Collect | ironfix-dictionary/src/group.rs:1055-1086 | iterating yields as many entries as announced, numbered from zero, contiguous, together all the fields of the run |
| Reader.RunFitsWhenCut | ironfix-dictionary/src/walk.rs:306-322 | cutting the message behind a run leaves its extent unchanged |
| Reader.Find | ironfix-dictionary/src/group.rs:1153-1176 | the field an entry's lookup finds is the entry's own, never one of a nested group |
| Reader.Get | ironfix-dictionary/src/group.rs:1131-1133 | an entry's own field of a tag, or none |
| Reader.ReadNested | ironfix-dictionary/src/group.rs:1143-1150 | the nested instance found again on the entry's slice, unchecked, is the one of the checked tree |
| Levels.SpecIsValid | ironfix-codegen/src/views.rs:1561-1656 | the tables generated for a well-formed level pass the constructor's checks |
| Writer.Sink.Write | ironfix-codegen/src/views.rs:2912-2971 | a failed check sends nothing; otherwise the fields of the record's tree are appended in member order |
| Writer.CheckPassesExactly | ironfix-codegen/src/views.rs:2706-2770 | the check passes exactly when, in every record below, what is needed is set and every value set may be sent, rule by rule; otherwise its error is that of the first member, in writing order and at any depth, that may not be sent |
| Writer.EmitWritesItems | ironfix-codegen/src/views.rs:2773-2831 | the statements of a writer write exactly the tree the record stands for |
| Writer.EmitStops | ironfix-codegen/src/views.rs:2590-2665 | a writer stops exactly at the first number too long for the formatting buffer, in any record below, naming its tag; what is written by then is what stands ahead of it |
| Writer.FormatDecimal | ironfix-codegen/src/views.rs:2569-2583 | the twenty-byte buffer ends with the number's decimal digits, for every length |
| Recovery.RecordIsRecovered | ironfix-codegen/src/views.rs:2773-2831 | every value of a checked record is got back from the items written for it, by member and at any depth: text, characters, tokens, data behind its length, groups left out or sent with no entries |
| Recovery.SplitJoined | ironfix-codegen/src/views.rs:1535-1552 | the tokens of a multi-value field are its value split at spaces |
| Conformance.WrittenConforms | ironfix-codegen/src/views.rs:2706-2831 | what a checked record is written as, at every level: items in member order, data right behind a length that announces its size, everything required present, groups announcing their entries, no SOH in text, no space in a token, single characters printable |
| RoundTrip.WrittenMessageReadsBack | ironfix-codegen/src/views.rs:2706-2831 | a checked and written body, between any header and trailer that are well-formed and fit, groups of their own included, is walked back as the tree of its record, which conforms to the level and from which every value is got again |
| RoundTrip.WrittenGroupReadsBack | ironfix-codegen/src/views.rs:2706-2831 | reading one group of a written message gives its records back, entry by entry and value by value, or nothing when it was left out |
| Loader.VisitComponent | ironfix-dictionary/src/loader.rs:937-963 | a component's visit memoises its true height, restores the path, which is exactly the components in progress, and an error names a fault met on a chain from the component visited first |
| Loader.VisitItems | ironfix-dictionary/src/loader.rs:976-1000 | the height of a member list is exact, and a failure means no bound fits |
| Loader.CheckComponentGraph | ironfix-dictionary/src/loader.rs:911-920 | accepted exactly when no chain dangles or is too long, whatever the order; the error is a circle, gap or chain reached from the first unacceptable component in declaration order |
| Loader.FitsIsSound | ironfix-dictionary/src/loader.rs:894-910 | bounded recursion and bounded, gapless chains are the same thing |
| Loader.AcceptedHasNoCircle | ironfix-dictionary/src/loader.rs:894-910 | an accepted component never leads back to itself |
| Loader.Resolver.FirstTag | ironfix-dictionary/src/loader.rs:776-790 | the memoised first tag is the first of the flattened document-order expansion, none exactly when it is empty |
| Loader.Resolver.ComponentFirstTag | ironfix-dictionary/src/loader.rs:793-815 | the cached tag is right, and in an accepted graph the depth ceiling is not reached |
| Loader.Resolver.ResolveGroup | ironfix-dictionary/src/loader.rs:817-834 | a group resolves to its count tag, first tag and members, or no resolution exists, and then the error is that of the first item, in document order, that cannot be resolved |
| Loader.Resolver.ResolveMembers | ironfix-dictionary/src/loader.rs:842-861 | members resolve in document order, or no resolution exists, and then the error names the first item that cannot be resolved |
| Assembly.Assemble | ironfix-dictionary/src/loader.rs:1154-1235 | a dictionary is made exactly of the documents whose components are acceptable, whose names resolve, whose groups are not empty and whose messages are distinct; every definition of it is a resolved definition of the document; any other document is refused for its first fault: component graph, header, trailer, components, messages |
| Assembly.AssembledIsGrounded | ironfix-dictionary/src/loader.rs:897-903 | in an assembled dictionary every message, header and trailer expands in full |
| Assembly.DelimiterIsFirstMember | ironfix-dictionary/src/loader.rs:817-834 | a group's delimiter is the first tag its members expand to, and a member of its own entries, wherever the path guard is not met |
| Schema.SameItems | ironfix-codegen/src/views.rs:305-310 | document order and layout order list the same contributions, each as often, whatever is being expanded already |
| Scope.OpenLevel.Finish | ironfix-dictionary/src/scope.rs:58-64 | finishing sorts the tags and keeps, of groups sharing a count tag, the one expanded first, adding no node |
| Scope.ScopeBuilder.Spend | ironfix-dictionary/src/scope.rs:156-180 | a node is granted exactly within depth and budget, and which error is reported otherwise; the size limit at most once |
| Scope.ScopeBuilder.AddGroup | ironfix-dictionary/src/scope.rs:236-277 | on any dictionary the path is restored, nodes never exceed the budget spent and levels stay sound; the errors added are exactly those to be met while the budget lasts; without error, what is added is the group met on this path |
| Scope.ScopeBuilder.BuildEntry | ironfix-dictionary/src/scope.rs:250-268 | an entry level: sound, paid for, and without error the one the dictionary and the path determine |
| Scope.ScopeBuilder.AddComponent | ironfix-dictionary/src/scope.rs:286-322 | the same for a component reference; one already on the path adds nothing |
| Scope.ScopeBuilder.Build | ironfix-dictionary/src/scope.rs:184-221 | the message level merges header, trailer and body, envelope first, on any dictionary; which errors are reported |
| Scope.Expand | ironfix-dictionary/src/scope.rs:141-153 | on any two dictionaries a sound level tree of at most the node limit; without error, the message level they determine; the size limit is reported exactly when the message takes more nodes, and otherwise exactly the errors its chains of references meet |
| Expense.FaultsAreMet | ironfix-dictionary/src/scope.rs:236-322 | an expansion is to report an error exactly when a chain of references, entering no component twice, meets it: one reference past the depth limit, or an undefined component within it |
| Expense.MessageFaultsAreMet | ironfix-dictionary/src/scope.rs:184-221 | of a message: the errors met in the groups of its header and trailer, and in its body |
| Expense.NodesAreVisits | ironfix-dictionary/src/scope.rs:156-180 | a definition takes as many nodes as there are chains of references to a group or component within the depth limit |
| GroupChains.KeptIsFirstMet | ironfix-dictionary/src/scope.rs:236-322 | of the groups with one count tag the layout keeps the one met first, own groups before those of components, and requires it exactly when the definition and every reference on the way are required |
| GroupChains.EntryKeepsFirstMet | ironfix-dictionary/src/scope.rs:250-277 | so in every entry level, on any dictionary |
| GroupChains.MessageKeepsFirstMet | ironfix-dictionary/src/scope.rs:184-221 | so at the message level: the header's own groups, then the trailer's, then the body's, from two dictionaries |
| Layout.RetainKeepsEachOnce | ironfix-dictionary/src/scope.rs:261-267 | the entry's required list keeps each tag once and never the delimiter |
| Layout.SortDropsNodes | ironfix-dictionary/src/scope.rs:58-64 | finishing a level never adds a group |
| Sorting.SortByKeepsFirst | ironfix-dictionary/src/scope.rs:53-64 | a stable sort and dedup ascends and keeps the first of equal keys |
| Required.ShownByChains | ironfix-dictionary/src/scope.rs:286-322 | on any dictionary, a definition lists exactly the tags that chains of references avoiding the path lead to, and requires exactly those that required chains lead to |
| Required.RequiredByPaths | ironfix-dictionary/src/scope.rs:286-322 | a definition requires exactly the fields that chains of required references, entering nothing on the path and nothing twice, lead to |
| Required.EntryRequiresByPaths | ironfix-dictionary/src/scope.rs:236-277 | an entry's required list: those tags without the delimiter, each once, on any dictionary |
| Required.EntryRequiresAllExactly | ironfix-dictionary/src/scope.rs:226-235 | an entry requires all that any required chain leads to exactly when what the path guard skips is required by another chain |
| Required.CircularEntryLacksATag | ironfix-dictionary/src/scope.rs:304-309 | a dictionary with a cycle whose entry lacks a required tag |
| Required.MessageRequiresByPaths | ironfix-dictionary/src/scope.rs:184-221 | the message level requires the required header and trailer fields and what any chain of required references in its body leads to, on any dictionary |
| ViewLevels.Choose | ironfix-codegen/src/views.rs:925-969 | when the expansion fits, the definition chosen for each count tag is the first in layout order |
| ViewLevels.LevelBuilder.AddField | ironfix-codegen/src/views.rs:322-335 | a repeated field is one member, required when any reference is, with the first pairing kept |
| ViewLevels.LevelBuilder.PairLength | ironfix-codegen/src/views.rs:338-348 | a field not yet paired becomes the length of the data field; nothing else changes |
| ViewLevels.LevelBuilder.AddGroup | ironfix-codegen/src/views.rs:350-355 | a chosen group becomes the one member of its count tag |
| ViewLevels.LevelBuilder.Finish | ironfix-codegen/src/views.rs:357-388 | the fields a group supersedes are dropped, the tags sorted, and what has been expanded finishes into the layout's level |
| ViewLevels.FinishedIsRight | ironfix-codegen/src/views.rs:357-388 | a level expanded in document order finishes into the layout's tags, groups and required fields, each group required as the one the layout keeps |
| ViewLevels.SameContributions | ironfix-codegen/src/views.rs:572-673 | both orders reach the same tags and the same required fields |
| FirstRefs.SameRefs | ironfix-codegen/src/views.rs:613-640 | both orders meet the same reference to a group definition first, so the same requiredness is kept |
| ViewEntries.FinishEntry | ironfix-codegen/src/views.rs:753-810 | an entry is its level reordered to open with the delimiter, its data right behind when the delimiter is a length; it fails exactly when the delimiter is undefined or a data field, and which way |
| ViewEntries.FinishedEntryIsRight | ironfix-codegen/src/views.rs:753-810 | the reordered entry is still the layout's level and loses no member |
| ViewOrder.LevelIsLaidOut | ironfix-codegen/src/views.rs:572-673 | the members of a level stand in the order the definition first refers to them, components in place; a data field is paired with the field listed right before it where it is met first, a length with the first data listed behind it |
| ViewOrder.EntryIsLaidOut | ironfix-codegen/src/views.rs:753-810 | an entry keeps that pairing, and that order behind its delimiter and the data the delimiter is the length of |
| Views.Builder.TakeField | ironfix-codegen/src/views.rs:591-612 | a data field is taken only right behind a length field, and the two then name each other |
| Views.Builder.Expand | ironfix-codegen/src/views.rs:572-673 | on any dictionary, a successful expansion has put exactly the document-order contributions into the level, in order and paired as listed, and an error names a cycle, gap, depth, undefined or unpaired field reached from the definition expanded |
| Views.Builder.SiteOf | ironfix-codegen/src/views.rs:692-746 | one site per definition, however often and wherever it is reached, describing its entry as met where it was first reached; sites once right stay right |
| Views.Builder.Envelope | ironfix-codegen/src/views.rs:813-842 | the sites of the header groups, then of the trailer groups |
| Views.Builder.TopGroups | ironfix-codegen/src/views.rs:895-908 | of several groups with one count tag the first stays, sorted |
| Views.Builder.Message | ironfix-codegen/src/views.rs:845-919 | a message's body, top groups and level tags are what the layout makes of it, on any dictionary, its members in the order they are referred to |
| GroupChains.BodyKeepsFirstMet | ironfix-codegen/src/views.rs:613-640 | the group a message's view keeps for a count tag is the one its layout order meets first, under that definition's site, required exactly when the definition and every reference on the way are required |
| GroupChains.SiteKeepsFirstMet | ironfix-codegen/src/views.rs:613-640 | so in every entry |
| Agreement.SiteDescribed | ironfix-codegen/src/views.rs:305-310 | a site is the layout's group, all the way down: tags, groups, and the members required but for the one that opens an entry and its data |
| Agreement.ExpansionsAgree | ironfix-codegen/src/views.rs:871-919 | the two expansions of a message have the same sorted tags and, at every level, the same group definition for every count tag, envelope groups first, and the same members required |
| Agreement.Generate | ironfix-codegen/src/views.rs:988-1012 | after generating every message, each is what its layout makes of it over one set of sites, all agree whose kept groups the path guard does not touch, and an error is a fault of the header, the trailer or a message |
| Agreement.GroundedIsUnguarded | ironfix-dictionary/src/scope.rs:304-306 | a message without cycles is one the path guard does not touch |
| SharedSites.SiteTagsAgreeExactly | ironfix-codegen/src/views.rs:686-701 | a shared site accepts the tags of a layout's entry exactly when the path guard skips nothing there that is not listed otherwise |
| SharedSites.SharedSiteDiffers | ironfix-codegen/src/views.rs:686-701 | a dictionary with a cycle that no expansion of the generator meets, on which the two tables differ |
| SharedSites.CircularHasSites | ironfix-codegen/src/views.rs:692-746 | that dictionary has sites for all its groups, each expanded without meeting the guard |
| Paths.LayoutAlike | ironfix-dictionary/src/scope.rs:304-309 | expansions that do not meet the path guard contribute the same wherever they start |
| Agreement.WriterRequiresByPaths | ironfix-codegen/src/views.rs:591-597 | a body field is required exactly when a chain of required references leads to it |
| Tables.LayoutTableIsValid | ironfix-dictionary/src/scope.rs:250-251 | on any dictionary the tables of an expanded group satisfy the constructor's checks, the delimiter among its members included |
| Tables.LayoutSetIsValid | ironfix-dictionary/src/group.rs:370-374 | the groups and level tags of a layout make a set the reader may search |
| Generated.GeneratedBodyIsWellFormed | ironfix-codegen/src/views.rs:753-919 | a generated body whose lengths and data match is a level the round trip applies to |
| Pairing.ListedAlikePairs | ironfix-codegen/src/views.rs:591-612 | where every list of a dictionary has each data field right behind a length of its own, and counts no group under either, the lengths and data of every generated body match one to one, at any depth |
| Generated.EntryOpens | ironfix-codegen/src/views.rs:772-806 | the first thing written of a generated entry is its delimiter, and it is mandatory |
| Generated.GeneratedTableIsTheLayouts | ironfix-codegen/src/views.rs:1561-1656 | the static table generated for a group equals the layout's |
| Generated.GroupUnfolds | ironfix-codegen/src/views.rs:692-746 | the sites of a definition a layout expands without meeting the guard unfold into a finite tree |
| EndToEnd.GeneratedBodyIsReadable | ironfix-codegen/src/views.rs:871-919 | a generated body, read with the layout of its message, meets the conditions of the round trip when its lengths and data match, its groups' tags stay out of enclosing levels and no envelope group shares a tag with it |
| EndToEnd.GeneratedMessageReadsBack | ironfix-codegen/src/views.rs:2868-2972 | what the writer generated for a message writes after its check passed, between any fitting header and trailer, a reader with the message's layout reads back, every value included |
| EndToEnd.Compile | ironfix-codegen/src/views.rs:988-1012 | from a document: assembled exactly when it can be, every message then generated agrees with its layout and its body unfolds into a tree |
| EndToEnd.CompiledGroupReadsBack | ironfix-codegen/src/views.rs:2868-2972 | reading any group of such a message, sent by its generated writer, finds the table of the layout, gives the records it was written with, or nothing when it was left out |
| Structs.Reach | ironfix-codegen/src/structs.rs:257-321 | the pass adds only reachable components, each once, covers what it visits, and an error names a cycle, gap or depth reached from the definition it started at |
| Structs.FirstPass | ironfix-codegen/src/structs.rs:190-202 | the components collected are exactly those some message reaches; an error is a cycle, gap or depth some message reaches |
| Structs.ClosedHoldsReachable | ironfix-codegen/src/structs.rs:248-256 | a closed covering set holds everything reachable |
| Structs.StructBuilder.BuildFields | ironfix-codegen/src/structs.rs:342-427 | the fields of a struct stand for the members of its definition, in order: each tag, group and component where it is listed first, with its required flag; it fails exactly when a field is undefined, naming the first |
| Structs.StructStandsFor | ironfix-codegen/src/structs.rs:328-452 | every struct made of a definition stands for it or for an entry of one of its groups |
| Structs.EntryHasStruct | ironfix-codegen/src/structs.rs:328-452 | every entry, at any depth, has its struct |
| Structs.StructBuilder.BuildOwner | ironfix-codegen/src/structs.rs:328-452 | a definition's struct, then those of its group entries; no unknown component or depth error is possible |
| Structs.SecondPass | ironfix-codegen/src/structs.rs:204-243 | exactly the structs of the messages and of the reached components, in order, and only an undefined field can fail |
| Structs.Build | ironfix-codegen/src/structs.rs:171-244 | the whole build: a struct for every message and for exactly the reachable components |
| Names.ClaimIdent | ironfix-codegen/src/generator.rs:526-549 | the first candidate free once escaped, found within as many suffixes as names are taken, never a keyword |
| Names.HandedOutIsSnakeCase | ironfix-codegen/src/generator.rs:513-562 | no identifier handed out holds two underscores in a row, escaped, qualified or numbered as it may be |
| Names.JoinedByOne | ironfix-codegen/src/generator.rs:551-562 | a base and a suffix stand whole on both sides of exactly one underscore |
| Names.EntryNames | ironfix-codegen/src/structs.rs:503-528 | the first pair of free names, found within twice as many suffixes |
| Names.UniqueTypeName | ironfix-codegen/src/generator.rs:588-600 | the first free type name, found within as many suffixes as names are taken |
| Names.NumberedIsCamelCase | ironfix-codegen/src/generator.rs:600-617 | a numbered type name, or one followed by `Entry`, has no underscore left, however its candidate was escaped |
| Names.Pigeonhole | ironfix-codegen/src/structs.rs:500-502 | each taken name blocks at most one suffix of each kind |
| Names.EscapedIsNoKeyword | ironfix-codegen/src/generator.rs:623-631 | an escaped identifier is never a keyword |
| Names.NameMembers | ironfix-codegen/src/views.rs:1118-1154 | the members of a level get distinct names, none reserved, failing exactly when a name is no identifier |
| Names.NameFields | ironfix-codegen/src/structs.rs:342-427 | the fields, groups and components of one struct get distinct names, none a keyword, failing exactly when a name is no identifier |
| Names.NameTypes | ironfix-codegen/src/structs.rs:196-243 | the types of a module, messages, components and group entries claiming in any order, get distinct names, none reserved |
| Timestamp.PutDigits | ironfix-core/src/types.rs:102-113 | succeeds exactly when the value fits, writing its zero-padded digits and nothing else |
| Timestamp.PaddedReadsBack | ironfix-core/src/types.rs:96-101 | the digits read back as the value |
| Timestamp.FormatUtcTimestamp | ironfix-core/src/types.rs:59-94 | a text of the asked length exactly when that length and the year can be printed; year, month, day, hour, minute and second slices spell the reading, 60 in a leap second, the separators are the bytes between, and the fraction is the nanoseconds cut to its digits |
| Timestamp.SaidOneWay | ironfix-core/src/types.rs:59-94 | of each length one text says a reading |
| Timestamp.ShorterIsPrefix | ironfix-core/src/types.rs:408-456 | the shorter forms are prefixes of the longer ones: truncation, never rounding |
| Timestamp.ByteOrderIsTimeOrder | ironfix-core/src/types.rs:41-59 | byte order of texts of one length is the order of the readings, seconds and nanoseconds cut to the unit printed, leap seconds included |
| Garbled.GarbledFrameWindow.Record | ironfix-engine/src/garbled.rs:85-107 | up to the first limit reached, the verdict is the one the whole history calls for; the window never exceeds its bound |
| Garbled.RecordedKeeps | ironfix-engine/src/garbled.rs:85-107 | ageing out and pushing keeps the window sorted, bounded and faithful, and full exactly when the history calls for it |
| Garbled.Watch | ironfix-engine/src/garbled.rs:85-107 | over a run with a clock that never steps back, the session is closed at exactly the first call whose history reaches the limit |

## Left out

- XML and Orchestra reading, attributes and the prolog checker: the model starts from parsed items and component maps.
- The field table of a document: duplicate field names and tags are refused by the loader before anything modelled here.
- Text emission of the generators: what a generated writer and reader do is modelled, not the strings they are made of.
- Naming failures of the view and struct builders (a name that is no identifier) are not part of their models: the allocators, and runs of them over one struct, level or module, are modelled in `Names`; the case converters are not.
- Enumerations, variant names and accessors of the generated views.
- Field grammars (`FieldType::is_valid_value`): an arbitrary predicate, the same for check and reader.
- Character encoding: a character or number set in a writer stands as the bytes it is formatted into.
- `MessageLayout`, sessions and the two-dictionary case of the views: the layout is expanded from separate transport and body dictionaries, but compared with the views over one dictionary, the only one they take.
- The list of envelope tags a scope keeps for validation, and group, field and owner names carried for messages to people.
- Calendar conversion: a timestamp is printed from its calendar fields; the order proved is the order of those fields.
- Widths: tags, positions and suffixes are unbounded; the count of a group is bounded by `u64` where the source parses it. The 64-bit words of the seen-tags bitset are sequences of 64 bits.
- `Copy`, lifetimes and allocation: slices are sequences, an iterator's copy is a value.
- EntryTagSet.EntryTags.InsertRank: the split between inline and heap words is not modelled, both are one sequence of words.
- Views.Builder.Expand: when it succeeds is not stated exactly, since looking a site up again skips what expanding it would have met; an error names a real fault, and success means no guard or limit was met where something was expanded.
- Agreement.ExpansionsAgree: the condition is sufficient, not necessary, for whole trees, as two definitions with the same tables can stand in for one another; it is exact for the tags of one entry. The member that opens an entry, and the data it is the length of, are always required in a writer, whatever the layout says.
- Scope.Expand: once the node limit is exceeded, which other errors were met before it is not stated, only that each was there to be met.
- RoundTrip.WrittenMessageReadsBack: no tag of a group's entries occurs at an enclosing level, and what surrounds the body fits the follow rule.
- EndToEnd.CompiledGroupReadsBack: besides the conditions on the schema, the lengths and data fields of a body must match one to one (`Pairing.ListedAlikePairs` gives this from the dictionary), no envelope group may use a tag of the body, and groups nest no deeper than a walk follows; a dictionary that breaks these is generated for but not covered.
- Structs.SecondPass: components are emitted in the order they were reached, not sorted by name.
- Timestamp.FormatUtcTimestamp: the constructors' range of instants and the system clock are not modelled.
