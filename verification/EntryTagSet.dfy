/** The seen-tag set of one entry: a bitset over the ranks of a group's sorted members. */
module EntryTagSet {
  import opened Wire
  import opened GroupSpecs

  /** Members a group may have before its bitset outgrows the inline words. */
  const INLINE_MEMBERS: nat := 512
  const INLINE_WORDS: nat := 8

  /** A 64-bit word, as its bits; `1 << bit` stands for position `bit`. */
  type Word = bits: seq<bool> | |bits| == 64 witness ZERO

  const ZERO: seq<bool> := seq(64, _ => false)

  predicate Bit(words: seq<Word>, rank: nat) {
    rank / 64 < |words| && words[rank / 64][rank % 64]
  }

  class EntryTags {
    const group: Spec
    /** Words the member count needs: the only ones ever touched. */
    const used: nat
    var words: seq<Word>

    ghost predicate Valid()
      reads this
    {
      && LocallyValid(group)
      && used == (|group.members| + 63) / 64
      && |words| == (if |group.members| <= INLINE_MEMBERS then INLINE_WORDS else used)
      && used <= |words|
      && forall w :: used <= w < |words| ==> words[w] == ZERO
    }

    /** The tags recorded since the last clear. */
    ghost function Tags(): set<Tag>
      reads this
      requires Valid()
    {
      set rank | 0 <= rank < |group.members| && Bit(words, rank) :: group.members[rank]
    }

    constructor (g: Spec)
      requires LocallyValid(g)
      ensures Valid() && group == g && Tags() == {}
    {
      group := g;
      used := (|g.members| + 63) / 64;
      words := seq(if |g.members| <= INLINE_MEMBERS then INLINE_WORDS else (|g.members| + 63) / 64, _ => ZERO);
    }

    method Clear()
      requires Valid()
      modifies this`words
      ensures Valid() && Tags() == {}
    {
      for w := 0 to used
        invariant Valid()
        invariant forall i :: 0 <= i < w ==> words[i] == ZERO
      {
        words := words[w := ZERO];
      }
    }

    /** Records the member ranked `rank`; false if it was recorded already. */
    method InsertRank(rank: nat) returns (isNew: bool)
      requires Valid() && rank < |group.members|
      modifies this`words
      ensures Valid() && Tags() == old(Tags()) + {group.members[rank]}
      ensures isNew == (group.members[rank] !in old(Tags()))
    {
      RecordedByRank(rank);
      ghost var before := words;
      var word, bit := rank / 64, rank % 64;
      if words[word][bit] {
        return false;
      }
      words := words[word := words[word][bit := true]];
      forall other | 0 <= other < |group.members|
        ensures Bit(words, other) <==> other == rank || Bit(before, other)
      {
      }
      return true;
    }

    /** Membership by tag is membership by rank: the members are distinct. */
    lemma RecordedByRank(rank: nat)
      requires Valid() && rank < |group.members|
      ensures group.members[rank] in Tags() <==> Bit(words, rank)
    {
      if group.members[rank] in Tags() {
        var r :| 0 <= r < |group.members| && Bit(words, r) && group.members[r] == group.members[rank];
        assert r == rank;
      }
    }

    method Contains(tag: Tag) returns (found: bool)
      requires Valid()
      ensures found == (tag in Tags())
    {
      var rank := Rank(group.members, tag);
      if rank.None? {
        return false;
      }
      RecordedByRank(rank.value);
      return words[rank.value / 64][rank.value % 64];
    }
  }
}
