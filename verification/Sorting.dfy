/** Sorting a list by a tag and keeping the first of equal ones, as the level lists are finished. */
module Sorting {
  import opened Wire
  import opened GroupSpecs

  /** Puts `x` ahead of `sorted`'s element with the same key, which it replaces. */
  function InsertBy<T>(x: T, sorted: seq<T>, key: T -> Tag): seq<T> {
    if sorted == [] then [x]
    else if key(x) < key(sorted[0]) then [x] + sorted
    else if key(x) == key(sorted[0]) then [x] + sorted[1..]
    else [sorted[0]] + InsertBy(x, sorted[1..], key)
  }

  /** A stable sort by key that drops all but the first of equal keys. */
  function SortBy<T>(list: seq<T>, key: T -> Tag): seq<T> {
    if list == [] then [] else InsertBy(list[0], SortBy(list[1..], key), key)
  }

  /** The first element with this key. */
  function FirstBy<T>(list: seq<T>, key: T -> Tag, k: Tag): Option<T> {
    if list == [] then None else if key(list[0]) == k then Some(list[0]) else FirstBy(list[1..], key, k)
  }

  predicate AscendingBy<T>(list: seq<T>, key: T -> Tag) {
    forall i, j :: 0 <= i < j < |list| ==> key(list[i]) < key(list[j])
  }

  lemma {:induction false} InsertByIsSorted<T>(x: T, sorted: seq<T>, key: T -> Tag)
    requires AscendingBy(sorted, key)
    ensures AscendingBy(InsertBy(x, sorted, key), key)
    ensures forall y :: y in InsertBy(x, sorted, key) ==> y == x || y in sorted
  {
    if sorted != [] {
      var tail := sorted[1..];
      assert AscendingBy(tail, key);
      if key(x) > key(sorted[0]) {
        InsertByIsSorted(x, tail, key);
        var rest := InsertBy(x, tail, key);
        forall i | 0 <= i < |rest| ensures key(sorted[0]) < key(rest[i]) {
          assert rest[i] in rest;
          if rest[i] != x {
            var j :| 0 <= j < |tail| && tail[j] == rest[i];
            assert sorted[j + 1] == rest[i];
          }
        }
      }
    }
  }

  lemma {:induction false} InsertByReplaces<T>(x: T, sorted: seq<T>, key: T -> Tag, k: Tag)
    ensures FirstBy(InsertBy(x, sorted, key), key, k) == if key(x) == k then Some(x) else FirstBy(sorted, key, k)
  {
    if sorted != [] {
      var tail := sorted[1..];
      if key(x) <= key(sorted[0]) {
        assert ([x] + sorted)[1..] == sorted && ([x] + tail)[1..] == tail;
      } else {
        InsertByReplaces(x, tail, key, k);
        var rest := InsertBy(x, tail, key);
        assert ([sorted[0]] + rest)[1..] == rest;
      }
    }
  }

  /** The sorted list ascends strictly and keeps, for every key, the first element that had it. */
  lemma {:induction false} SortByKeepsFirst<T>(list: seq<T>, key: T -> Tag)
    ensures AscendingBy(SortBy(list, key), key)
    ensures forall k :: FirstBy(SortBy(list, key), key, k) == FirstBy(list, key, k)
    ensures forall y :: y in SortBy(list, key) ==> y in list
  {
    if list != [] {
      SortByKeepsFirst(list[1..], key);
      InsertByIsSorted(list[0], SortBy(list[1..], key), key);
      forall k ensures FirstBy(SortBy(list, key), key, k) == FirstBy(list, key, k) {
        InsertByReplaces(list[0], SortBy(list[1..], key), key, k);
      }
    }
  }

  lemma {:induction false} FirstInAscending<T>(list: seq<T>, key: T -> Tag, i: nat)
    requires AscendingBy(list, key) && i < |list|
    ensures FirstBy(list, key, key(list[i])) == Some(list[i])
  {
    if i > 0 {
      assert list[1..][i - 1] == list[i];
      FirstInAscending(list[1..], key, i - 1);
    }
  }

  lemma {:induction false} FirstIsIn<T>(list: seq<T>, key: T -> Tag, k: Tag)
    ensures FirstBy(list, key, k).Some? ==> FirstBy(list, key, k).value in list && key(FirstBy(list, key, k).value) == k
    ensures FirstBy(list, key, k).None? <==> forall i :: 0 <= i < |list| ==> key(list[i]) != k
  {
    if list != [] {
      FirstIsIn(list[1..], key, k);
      assert forall i :: 0 < i < |list| ==> list[i] == list[1..][i - 1];
      assert forall i :: 0 <= i < |list[1..]| ==> list[1..][i] == list[i + 1];
    }
  }

  /** Two strictly ascending lists that keep the same element for every key are the same list. */
  lemma {:induction false} AscendingIsUnique<T>(a: seq<T>, b: seq<T>, key: T -> Tag)
    requires AscendingBy(a, key) && AscendingBy(b, key)
    requires forall k :: FirstBy(a, key, k) == FirstBy(b, key, k)
    ensures a == b
  {
    if a == [] && b != [] {
      HeadsAgree(b, a, key);
    } else if a != [] {
      HeadsAgree(a, b, key);
      forall k ensures FirstBy(a[1..], key, k) == FirstBy(b[1..], key, k) {
        assert FirstBy(a, key, k) == FirstBy(b, key, k);
        if k == key(a[0]) {
          FirstIsIn(a[1..], key, k);
          FirstIsIn(b[1..], key, k);
        }
      }
      AscendingIsUnique(a[1..], b[1..], key);
      assert a == [a[0]] + a[1..] && b == [b[0]] + b[1..];
    }
  }

  lemma HeadsAgree<T>(a: seq<T>, b: seq<T>, key: T -> Tag)
    requires AscendingBy(a, key) && AscendingBy(b, key) && a != []
    requires forall k :: FirstBy(a, key, k) == FirstBy(b, key, k)
    ensures b != [] && a[0] == b[0]
  {
    FirstIsIn(b, key, key(a[0]));
    assert FirstBy(b, key, key(a[0])) == FirstBy(a, key, key(a[0])) == Some(a[0]);
    FirstIsIn(a, key, key(b[0]));
    assert FirstBy(a, key, key(b[0])) == FirstBy(b, key, key(b[0])) == Some(b[0]);
    var i :| 0 <= i < |b| && b[i] == a[0];
    var j :| 0 <= j < |a| && a[j] == b[0];
  }

  lemma FirstInConcat<T>(a: seq<T>, b: seq<T>, key: T -> Tag, k: Tag)
    ensures FirstBy(a + b, key, k) == if FirstBy(a, key, k).Some? then FirstBy(a, key, k) else FirstBy(b, key, k)
  {
    if a == [] {
      assert a + b == b;
    } else {
      assert (a + b)[1..] == a[1..] + b;
      FirstInConcat(a[1..], b, key, k);
    }
  }

  /** Lists that keep the same element for every key are sorted alike. */
  lemma SameFirstsSortAlike<T>(a: seq<T>, b: seq<T>, key: T -> Tag)
    requires forall k :: FirstBy(a, key, k) == FirstBy(b, key, k)
    ensures SortBy(a, key) == SortBy(b, key)
  {
    SortByKeepsFirst(a, key);
    SortByKeepsFirst(b, key);
    AscendingIsUnique(SortBy(a, key), SortBy(b, key), key);
  }

  function Map<S, T>(f: S -> T, list: seq<S>): (mapped: seq<T>)
    ensures |mapped| == |list| && forall i :: 0 <= i < |list| ==> mapped[i] == f(list[i])
  {
    if list == [] then [] else [f(list[0])] + Map(f, list[1..])
  }

  // ----- tag lists -----

  function Self(tag: Tag): Tag {
    tag
  }

  /** The tags of a list, sorted, each once. */
  function SortedTags(tags: seq<Tag>): seq<Tag> {
    SortBy(tags, Self)
  }

  lemma SortedTagsAre(tags: seq<Tag>)
    ensures Ascending(SortedTags(tags))
    ensures forall t :: t in SortedTags(tags) <==> t in tags
  {
    SortByKeepsFirst(tags, Self);
    assert AscendingBy(SortedTags(tags), Self);
    forall t ensures t in SortedTags(tags) <==> t in tags {
      FirstIsIn(tags, Self, t);
      FirstIsIn(SortedTags(tags), Self, t);
      assert FirstBy(SortedTags(tags), Self, t) == FirstBy(tags, Self, t);
    }
  }

  /** Only one ascending list has these tags. */
  lemma SortedTagsIsOnly(sorted: seq<Tag>, tags: seq<Tag>)
    requires Ascending(sorted) && forall t :: t in sorted <==> t in tags
    ensures sorted == SortedTags(tags)
  {
    SortedTagsAre(tags);
    assert AscendingBy(sorted, Self) && AscendingBy(SortedTags(tags), Self);
    forall t ensures FirstBy(sorted, Self, t) == FirstBy(SortedTags(tags), Self, t) {
      FirstIsIn(sorted, Self, t);
      FirstIsIn(SortedTags(tags), Self, t);
      assert t in sorted <==> t in SortedTags(tags);
    }
    AscendingIsUnique(sorted, SortedTags(tags), Self);
  }

  /** Lists with the same tags give the same sorted list. */
  lemma SameTagsSortAlike(a: seq<Tag>, b: seq<Tag>)
    requires forall t :: t in a <==> t in b
    ensures SortedTags(a) == SortedTags(b)
  {
    forall t ensures FirstBy(a, Self, t) == FirstBy(b, Self, t) {
      FirstIsIn(a, Self, t);
      FirstIsIn(b, Self, t);
    }
    SameFirstsSortAlike(a, b, Self);
  }
}
