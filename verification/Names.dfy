/** Fresh Rust names: the allocators that disambiguate by a qualifier and then by a number. */
module Names {
  import opened Wire

  const CONVENTION_PREFIXES: seq<string> := ["from_", "into_", "to_"]

  // ----- numbers as suffixes -----

  predicate IsDigitChar(c: char) {
    '0' <= c <= '9'
  }

  function DigitChar(n: nat): (c: char)
    requires n < 10
    ensures IsDigitChar(c)
  {
    "0123456789"[n]
  }

  lemma DigitCharIsInjective(a: nat, b: nat)
    requires a < 10 && b < 10 && DigitChar(a) == DigitChar(b)
    ensures a == b
  {
  }

  function Numeral(n: nat): (s: string)
    ensures s != "" && IsDigitChar(s[|s| - 1]) && (|s| == 1 <==> n < 10)
  {
    if n < 10 then [DigitChar(n)] else Numeral(n / 10) + [DigitChar(n % 10)]
  }

  lemma {:induction false} NumeralIsInjective(a: nat, b: nat)
    requires Numeral(a) == Numeral(b)
    ensures a == b
  {
    var s := Numeral(a);
    if a < 10 && b < 10 {
      DigitCharIsInjective(a, b);
    } else if a >= 10 && b >= 10 {
      assert s[..|s| - 1] == Numeral(a / 10) == Numeral(b / 10);
      assert s[|s| - 1] == DigitChar(a % 10) == DigitChar(b % 10);
      DigitCharIsInjective(a % 10, b % 10);
      NumeralIsInjective(a / 10, b / 10);
    }
  }

  lemma SameSuffix(stem: string, a: string, b: string)
    requires stem + a == stem + b
    ensures a == b
  {
    assert a == (stem + a)[|stem|..] && b == (stem + b)[|stem|..];
  }

  lemma SamePrefix(a: string, b: string, suffix: string)
    requires a + suffix == b + suffix
    ensures a == b
  {
    assert a == (a + suffix)[..|a|] && b == (b + suffix)[..|b|];
  }

  // ----- escaping -----

  predicate IsKeyword(name: string) {
    || name in {"as", "async", "await", "become", "box", "break", "const", "continue", "crate"}
    || name in {"do", "dyn", "else", "enum", "extern", "false", "final", "fn", "for"}
    || name in {"gen", "if", "impl", "in", "let", "loop", "macro", "match", "mod"}
    || name in {"move", "mut", "override", "priv", "pub", "ref", "return", "self", "static"}
    || name in {"struct", "super", "trait", "true", "try", "type", "typeof", "unsafe", "unsized"}
    || name in {"use", "virtual", "where", "while", "yield", "Self"}
  }

  /** The keywords that cannot be written raw. */
  predicate IsNonRaw(name: string) {
    name in {"crate", "self", "Self", "super"}
  }

  /** Escapes a value identifier that is a keyword. */
  function ToFieldIdent(name: string): (ident: string)
    ensures !IsKeyword(name) ==> ident == name
  {
    if IsNonRaw(name) then name + "_"
    else if IsKeyword(name) then "r#" + name
    else name
  }

  /** No keyword ends with a digit or an underscore. */
  lemma KeywordEnds(name: string)
    requires IsKeyword(name)
    ensures |name| >= 2 && !IsDigitChar(name[|name| - 1]) && name[|name| - 1] != '_' && name[1] != '#'
  {
  }

  /** An identifier handed out is never a keyword. */
  lemma EscapedIsNoKeyword(name: string)
    ensures !IsKeyword(ToFieldIdent(name))
  {
    if IsKeyword(name) {
      var ident := ToFieldIdent(name);
      KeywordEnds(name);
      assert ident == name + "_" || ident == "r#" + name;
      assert ident[|ident| - 1] == '_' || ident[1] == '#';
      if IsKeyword(ident) {
        KeywordEnds(ident);
      }
    }
  }

  /** Joins with one underscore, or with none after a trailing one. */
  function JoinIdent(base: string, suffix: string): string {
    if base != "" && base[|base| - 1] == '_' then base + suffix else base + "_" + suffix
  }

  function TrimUnderscores(stem: string): (trimmed: string)
    ensures trimmed <= stem && (trimmed != "" ==> trimmed[|trimmed| - 1] != '_')
    ensures trimmed != stem ==> stem[|stem| - 1] == '_'
  {
    if stem != "" && stem[|stem| - 1] == '_' then TrimUnderscores(stem[..|stem| - 1]) else stem
  }

  function Stem(stem: string): string {
    if TrimUnderscores(stem) == "" then stem else TrimUnderscores(stem)
  }

  /** Appends to a type name, dropping the underscores that escape it. */
  function JoinType(stem: string, suffix: string): string {
    Stem(stem) + suffix
  }

  // ----- pigeonhole -----

  /** Numbers whose names are all taken, each in one of two ways, are at most as many as the takers. */
  lemma {:induction false} Pigeonhole(f: nat -> string, g: nat -> string, lo: nat, hi: nat, a: set<string>, b: set<string>)
    requires lo <= hi
    requires forall i, j :: lo <= i < j < hi ==> f(i) != f(j) && g(i) != g(j)
    requires forall i :: lo <= i < hi ==> f(i) in a || g(i) in b
    ensures hi - lo <= |a| + |b|
    decreases hi - lo
  {
    if lo < hi {
      if f(hi - 1) in a {
        Pigeonhole(f, g, lo, hi - 1, a - {f(hi - 1)}, b);
      } else {
        Pigeonhole(f, g, lo, hi - 1, a, b - {g(hi - 1)});
      }
    }
  }

  // ----- value identifiers -----

  /** The candidates for a value identifier, in the order they are tried. */
  function Candidate(base: string, qualifier: string, k: nat): string {
    if k == 0 then base
    else if k == 1 then JoinIdent(base, qualifier)
    else JoinIdent(JoinIdent(base, qualifier), Numeral(k))
  }

  function Escaped(base: string, qualifier: string): nat -> string {
    (k: nat) => ToFieldIdent(Candidate(base, qualifier, k))
  }

  lemma NumberedIsPlain(base: string, qualifier: string, k: nat)
    requires k >= 2
    ensures ToFieldIdent(Candidate(base, qualifier, k)) == Candidate(base, qualifier, k)
  {
    var name := Candidate(base, qualifier, k);
    assert name[|name| - 1] == Numeral(k)[|Numeral(k)| - 1];
    if IsKeyword(name) {
      KeywordEnds(name);
    }
  }

  lemma NumberedAreDistinct(base: string, qualifier: string, i: nat, j: nat)
    requires 2 <= i < j
    ensures Escaped(base, qualifier)(i) != Escaped(base, qualifier)(j)
  {
    NumberedIsPlain(base, qualifier, i);
    NumberedIsPlain(base, qualifier, j);
    if Candidate(base, qualifier, i) == Candidate(base, qualifier, j) {
      var qualified := JoinIdent(base, qualifier);
      if qualified != "" && qualified[|qualified| - 1] == '_' {
        SameSuffix(qualified, Numeral(i), Numeral(j));
      } else {
        SameSuffix(qualified + "_", Numeral(i), Numeral(j));
      }
      NumeralIsInjective(i, j);
    }
  }

  /** The first number from 2 on whose name is free: each taken name blocks at most one. */
  method FirstNumbered(used: set<string>, name: nat -> string) returns (suffix: nat)
    requires forall i, j :: 2 <= i < j ==> name(i) != name(j)
    ensures 2 <= suffix <= |used| + 2 && name(suffix) !in used
    ensures forall j :: 2 <= j < suffix ==> name(j) in used
  {
    suffix := 2;
    while name(suffix) in used
      invariant 2 <= suffix <= |used| + 2 && forall j :: 2 <= j < suffix ==> name(j) in used
      decreases |used| + 2 - suffix
    {
      Pigeonhole(name, name, 2, suffix + 1, used, {});
      suffix := suffix + 1;
    }
    Pigeonhole(name, name, 2, suffix, used, {});
  }

  /** Claims the first candidate whose escaped form is free; the suffixes never run out. */
  method ClaimIdent(used: set<string>, base: string, qualifier: string) returns (ident: string, after: set<string>, ghost k: nat)
    ensures ident !in used && after == used + {ident} && !IsKeyword(ident)
    ensures ident == Escaped(base, qualifier)(k) && k <= |used| + 2
    ensures forall j :: 0 <= j < k ==> Escaped(base, qualifier)(j) in used
  {
    var name := Escaped(base, qualifier);
    ident, k := name(0), 0;
    if ident in used {
      ident, k := name(1), 1;
      if ident in used {
        forall i, j | 2 <= i < j ensures name(i) != name(j) {
          NumberedAreDistinct(base, qualifier, i, j);
        }
        var suffix := FirstNumbered(used, name);
        ident, k := name(suffix), suffix;
      }
    }
    EscapedIsNoKeyword(Candidate(base, qualifier, k));
    after := used + {ident};
  }

  predicate HasDoubleUnderscore(name: string) {
    exists i :: 0 <= i < |name| - 1 && name[i] == '_' && name[i + 1] == '_'
  }

  /** A qualifier: a tag, or a word such as `component`. */
  predicate IsWord(suffix: string) {
    suffix != "" && suffix[0] != '_' && !HasDoubleUnderscore(suffix)
  }

  /** What is joined stands whole on both sides of one underscore. */
  lemma JoinedByOne(base: string, suffix: string)
    requires !HasDoubleUnderscore(base) && IsWord(suffix)
    ensures var name, seam := JoinIdent(base, suffix), |JoinIdent(base, suffix)| - |suffix| - 1;
            && base <= name && 0 <= seam <= |base| && name[seam] == '_' && name[seam + 1..] == suffix
            && !HasDoubleUnderscore(name)
  {
    var name := JoinIdent(base, suffix);
    var seam := |name| - |suffix| - 1;
    forall i | 0 <= i < |name| - 1 && name[i] == '_' ensures name[i + 1] != '_' {
      if i + 1 < |base| {
        assert base[i] == '_' ==> base[i + 1] != '_';
      } else if i > seam {
        assert suffix[i - seam - 1] == name[i] && suffix[i - seam] == name[i + 1];
      } else {
        assert name[seam + 1] == suffix[0];
      }
    }
  }

  lemma {:induction false} NumeralIsDigits(n: nat)
    ensures forall i :: 0 <= i < |Numeral(n)| ==> IsDigitChar(Numeral(n)[i])
  {
    if n >= 10 {
      NumeralIsDigits(n / 10);
    }
  }

  lemma NumeralIsWord(n: nat)
    ensures IsWord(Numeral(n)) && '_' !in Numeral(n)
  {
    NumeralIsDigits(n);
    assert forall c: char :: IsDigitChar(c) ==> c != '_';
  }

  /** No identifier handed out holds two underscores in a row, escaped or numbered as it may be. */
  lemma HandedOutIsSnakeCase(base: string, qualifier: string, k: nat)
    requires !HasDoubleUnderscore(base) && IsWord(qualifier)
    ensures !HasDoubleUnderscore(Escaped(base, qualifier)(k))
  {
    JoinedByOne(base, qualifier);
    if k >= 2 {
      NumeralIsWord(k);
      JoinedByOne(JoinIdent(base, qualifier), Numeral(k));
    }
    EscapedIsSnakeCase(Candidate(base, qualifier, k));
  }

  lemma EscapedIsSnakeCase(name: string)
    requires !HasDoubleUnderscore(name)
    ensures !HasDoubleUnderscore(ToFieldIdent(name))
  {
    if IsKeyword(name) {
      KeywordEnds(name);
      var ident := ToFieldIdent(name);
      forall i | 0 <= i < |ident| - 1 && ident[i] == '_' ensures ident[i + 1] != '_' {
        if IsNonRaw(name) {
          assert ident[i] == name[i];
          assert i + 1 < |name| ==> ident[i + 1] == name[i + 1];
        } else {
          assert i >= 2 && ident[i] == name[i - 2] && ident[i + 1] == name[i - 1];
        }
      }
    }
  }

  // ----- type names -----

  /** The `k`-th base tried for a group entry: the candidate, then the candidate numbered. */
  function TypeName(candidate: string, k: nat): string {
    if k <= 1 then candidate else JoinType(candidate, Numeral(k))
  }

  function TypeNames(candidate: string): nat -> string {
    (k: nat) => TypeName(candidate, k)
  }

  function EntryNamesOf(candidate: string): nat -> string {
    (k: nat) => JoinType(TypeName(candidate, k), "Entry")
  }

  lemma TypeNamesAreDistinct(candidate: string, i: nat, j: nat)
    requires 2 <= i < j
    ensures TypeName(candidate, i) != TypeName(candidate, j)
    ensures JoinType(TypeName(candidate, i), "Entry") != JoinType(TypeName(candidate, j), "Entry")
  {
    if TypeName(candidate, i) == TypeName(candidate, j) {
      SameSuffix(Stem(candidate), Numeral(i), Numeral(j));
      NumeralIsInjective(i, j);
    }
    EndsInDigit(candidate, i);
    EndsInDigit(candidate, j);
    var a, b := TypeName(candidate, i), TypeName(candidate, j);
    if a + "Entry" == b + "Entry" {
      SamePrefix(a, b, "Entry");
    }
  }

  lemma EndsInDigit(candidate: string, k: nat)
    requires k >= 2
    ensures Stem(TypeName(candidate, k)) == TypeName(candidate, k)
  {
    var name := TypeName(candidate, k);
    assert name[|name| - 1] == Numeral(k)[|Numeral(k)| - 1];
  }

  /** The first number from 2 on both of whose names are free: each taken name blocks at most two. */
  method FirstPair(used: set<string>, f: nat -> string, g: nat -> string) returns (suffix: nat)
    requires forall i, j :: 2 <= i < j ==> f(i) != f(j) && g(i) != g(j)
    ensures 2 <= suffix <= 2 * |used| + 2 && f(suffix) !in used && g(suffix) !in used
    ensures forall j :: 2 <= j < suffix ==> f(j) in used || g(j) in used
  {
    suffix := 2;
    while f(suffix) in used || g(suffix) in used
      invariant 2 <= suffix <= 2 * |used| + 2 && forall j :: 2 <= j < suffix ==> f(j) in used || g(j) in used
      decreases 2 * |used| + 2 - suffix
    {
      Pigeonhole(f, g, 2, suffix + 1, used, used);
      suffix := suffix + 1;
    }
  }

  /** Claims a base and its entry name, both free: the candidate's own, or the first numbered ones. */
  method EntryNames(used: set<string>, candidate: string) returns (base: string, entry: string, after: set<string>, ghost k: nat)
    ensures base !in used && entry !in used && base != entry && after == used + {base, entry}
    ensures 1 <= k <= 2 * |used| + 2 && base == TypeName(candidate, k) && entry == EntryNamesOf(candidate)(k)
    ensures forall j :: 1 <= j < k ==> TypeNames(candidate)(j) in used || EntryNamesOf(candidate)(j) in used
  {
    var bases, entries := TypeNames(candidate), EntryNamesOf(candidate);
    base, entry, k := bases(1), entries(1), 1;
    if base in used || entry in used {
      forall i, j | 2 <= i < j ensures bases(i) != bases(j) && entries(i) != entries(j) {
        TypeNamesAreDistinct(candidate, i, j);
      }
      var suffix := FirstPair(used, bases, entries);
      base, entry, k := bases(suffix), entries(suffix), suffix;
    }
    BaseIsNotEntry(base);
    after := used + {base, entry};
  }

  /** A name never equals itself followed by `Entry`. */
  lemma BaseIsNotEntry(base: string)
    ensures JoinType(base, "Entry") != base
  {
    var stem := Stem(base);
    var entry := stem + "Entry";
    assert entry[|entry| - 1] == 'y';
    if stem != base {
      assert base[|base| - 1] == '_';
    }
  }

  /** Numbered or followed by `Entry`, a type name has no underscore left, however its candidate was escaped. */
  lemma NumberedIsCamelCase(candidate: string, k: nat)
    requires '_' !in Stem(candidate)
    ensures k >= 2 ==> '_' !in TypeName(candidate, k)
    ensures '_' !in EntryNamesOf(candidate)(k)
  {
    if k >= 2 {
      NumeralIsWord(k);
      EndsInDigit(candidate, k);
    }
  }

  /** Claims the first free type name. */
  method UniqueTypeName(used: set<string>, candidate: string) returns (name: string, after: set<string>, ghost k: nat)
    ensures name !in used && after == used + {name}
    ensures 1 <= k <= |used| + 2 && name == TypeName(candidate, k)
    ensures forall j :: 1 <= j < k ==> TypeName(candidate, j) in used
  {
    name, k := candidate, 1;
    if candidate in used {
      var names := TypeNames(candidate);
      forall i, j | 2 <= i < j ensures names(i) != names(j) {
        TypeNamesAreDistinct(candidate, i, j);
      }
      var suffix := FirstNumbered(used, names);
      name, k := names(suffix), suffix;
      assert forall j :: 2 <= j < suffix ==> TypeName(candidate, j) == names(j);
    }
    after := used + {name};
  }

  // ----- the members of a level -----

  predicate IsIdentStart(c: char) {
    c == '_' || 'a' <= c <= 'z' || 'A' <= c <= 'Z'
  }

  predicate IsValidIdent(ident: string) {
    ident != "" && IsIdentStart(ident[0]) && forall i :: 0 <= i < |ident| ==> IsIdentStart(ident[i]) || IsDigitChar(ident[i])
  }

  predicate HasConventionPrefix(base: string) {
    exists i :: 0 <= i < |CONVENTION_PREFIXES| && CONVENTION_PREFIXES[i] <= base
  }

  /** A member's name, kept clear of the prefixes a naming convention ties to other receivers. */
  function MemberBase(name: string): string {
    if HasConventionPrefix(name) then "field_" + name else name
  }

  /** Distinct names, all in `used` and none reserved. */
  ghost predicate Handed(names: seq<string>, reserved: set<string>, used: set<string>) {
    && reserved <= used
    && (forall k :: 0 <= k < |names| ==> names[k] in used && names[k] !in reserved)
    && forall j, k :: 0 <= j < k < |names| ==> names[j] != names[k]
  }

  lemma HandedNext(names: seq<string>, reserved: set<string>, used: set<string>, name: string)
    requires Handed(names, reserved, used) && name !in used
    ensures Handed(names + [name], reserved, used + {name})
  {
  }

  predicate AllValid(members: seq<(string, Tag)>) {
    forall i :: 0 <= i < |members| ==> IsValidIdent(members[i].0)
  }

  /**
   Names the members of a level, given their snake-case names and tags: all distinct once escaped, and
   clear of the reserved names. Fails exactly when some name is no identifier.
   */
  method NameMembers(members: seq<(string, Tag)>, reserved: set<string>) returns (idents: Option<seq<string>>)
    ensures idents.Some? <==> AllValid(members)
    ensures idents.Some? ==> |idents.value| == |members| && exists used :: Handed(idents.value, reserved, used)
  {
    var used := reserved;
    var names: seq<string> := [];
    for i := 0 to |members|
      invariant |names| == i && Handed(names, reserved, used) && AllValid(members[..i])
    {
      if !IsValidIdent(members[i].0) {
        return None;
      }
      var ident, after;
      ghost var k;
      ident, after, k := ClaimIdent(used, MemberBase(members[i].0), Numeral(members[i].1));
      HandedNext(names, reserved, used, ident);
      names, used := names + [ident], after;
      assert members[..i + 1] == members[..i] + [members[i]];
    }
    assert members[..|members|] == members;
    return Some(names);
  }

  // ----- the fields of a struct -----

  /** A field or group, by its snake-case name and tag, or a component, by its snake-case name. */
  datatype FieldRequest = Tagged(base: string, tag: Tag) | Shared(base: string)
  {
    function Qualifier(): string {
      match this
      case Tagged(_, tag) => Numeral(tag)
      case Shared(_) => "component"
    }
  }

  predicate AllNameable(fields: seq<FieldRequest>) {
    forall i :: 0 <= i < |fields| ==> IsValidIdent(fields[i].base)
  }

  /** Some candidate of the field, escaped, and so no keyword. */
  ghost predicate NamesField(name: string, field: FieldRequest) {
    !IsKeyword(name) && exists k: nat :: name == Escaped(field.base, field.Qualifier())(k)
  }

  ghost predicate FieldsNamed(fields: seq<FieldRequest>, names: seq<string>) {
    |names| == |fields| && forall i :: 0 <= i < |fields| ==> NamesField(names[i], fields[i])
  }

  /**
   Names the fields of a struct, whatever mix of fields, groups and components they are: all distinct and
   none a keyword, each one of its field's own candidates. Fails exactly when some name is no identifier.
   */
  method NameFields(fields: seq<FieldRequest>) returns (idents: Option<seq<string>>)
    ensures idents.Some? <==> AllNameable(fields)
    ensures idents.Some? ==> FieldsNamed(fields, idents.value) && exists used :: Handed(idents.value, {}, used)
  {
    var used: set<string> := {};
    var names: seq<string> := [];
    for i := 0 to |fields|
      invariant Handed(names, {}, used) && AllNameable(fields[..i]) && FieldsNamed(fields[..i], names)
    {
      assert fields[..i + 1] == fields[..i] + [fields[i]];
      if !IsValidIdent(fields[i].base) {
        assert !AllNameable(fields);
        return None;
      }
      var ident, after;
      ghost var k;
      ident, after, k := ClaimIdent(used, fields[i].base, fields[i].Qualifier());
      assert NamesField(ident, fields[i]);
      HandedNext(names, {}, used, ident);
      names, used := names + [ident], after;
    }
    assert fields[..|fields|] == fields;
    return Some(names);
  }

  // ----- the types of a module -----

  /** A type of its own (a message or component), or the base and entry type of a group. */
  datatype TypeRequest = Own(candidate: string) | Entries(candidate: string)

  ghost predicate NamesType(name: string, candidate: string) {
    exists k: nat :: name == TypeNames(candidate)(k)
  }

  ghost predicate NamesEntry(base: string, entry: string, candidate: string) {
    exists k: nat :: base == TypeNames(candidate)(k) && entry == EntryNamesOf(candidate)(k)
  }

  /** The names answer the requests in order: one for a type, the base and the entry name for a group. */
  ghost predicate Answers(requests: seq<TypeRequest>, names: seq<string>)
    decreases |requests|
  {
    if requests == [] then names == []
    else
      var before := requests[..|requests| - 1];
      match requests[|requests| - 1]
      case Own(candidate) =>
        |names| >= 1 && Answers(before, names[..|names| - 1]) && NamesType(names[|names| - 1], candidate)
      case Entries(candidate) =>
        && |names| >= 2 && Answers(before, names[..|names| - 2])
        && NamesEntry(names[|names| - 2], names[|names| - 1], candidate)
  }

  lemma AnswersOwn(requests: seq<TypeRequest>, names: seq<string>, candidate: string, name: string)
    requires Answers(requests, names) && NamesType(name, candidate)
    ensures Answers(requests + [Own(candidate)], names + [name])
  {
    assert (requests + [Own(candidate)])[..|requests|] == requests && (names + [name])[..|names|] == names;
  }

  lemma AnswersEntries(requests: seq<TypeRequest>, names: seq<string>, candidate: string, base: string, entry: string)
    requires Answers(requests, names) && NamesEntry(base, entry, candidate)
    ensures Answers(requests + [Entries(candidate)], names + [base] + [entry])
  {
    var after := names + [base] + [entry];
    assert (requests + [Entries(candidate)])[..|requests|] == requests && after[..|names|] == names;
    assert after[|after| - 2] == base && after[|after| - 1] == entry;
  }

  /** Answers one more request: its names are free, and its own. */
  method NameType(request: TypeRequest, before: seq<string>, taken: set<string>, ghost answered: seq<TypeRequest>,
                  ghost reserved: set<string>)
    returns (names: seq<string>, used: set<string>)
    requires Answers(answered, before) && Handed(before, reserved, taken)
    ensures Answers(answered + [request], names) && Handed(names, reserved, used)
  {
    ghost var k;
    match request
    case Own(candidate) =>
      var name;
      name, used, k := UniqueTypeName(taken, candidate);
      assert NamesType(name, candidate) by { assert name == TypeNames(candidate)(k); }
      AnswersOwn(answered, before, candidate, name);
      HandedNext(before, reserved, taken, name);
      names := before + [name];
    case Entries(candidate) =>
      var base, entry;
      base, entry, used, k := EntryNames(taken, candidate);
      assert NamesEntry(base, entry, candidate) by { assert base == TypeNames(candidate)(k); }
      AnswersEntries(answered, before, candidate, base, entry);
      HandedNext(before, reserved, taken, base);
      HandedNext(before + [base], reserved, taken + {base}, entry);
      assert used == taken + {base} + {entry};
      names := before + [base] + [entry];
  }

  /**
   Names the types of a module, types and groups claiming in any order over one set of names: all distinct,
   and clear of the reserved ones.
   */
  method NameTypes(requests: seq<TypeRequest>, reserved: set<string>) returns (names: seq<string>, used: set<string>)
    ensures Answers(requests, names) && Handed(names, reserved, used)
  {
    names, used := [], reserved;
    for i := 0 to |requests|
      invariant Answers(requests[..i], names) && Handed(names, reserved, used)
    {
      assert requests[..i + 1] == requests[..i] + [requests[i]];
      names, used := NameType(requests[i], names, used, requests[..i], reserved);
    }
    assert requests[..|requests|] == requests;
  }
}
