/** The optional value used wherever the source has `null`, `undefined` or a
    failed library call. */
module Wrappers {
  datatype Option<+T> = None | Some(value: T)
}

/** The note records shared by the client components: tags, weekly work items,
    the loosely typed `content` field, and the two sections of a weekly note. */
module Notes {
  import opened Wrappers

  /** One entry of an item's `tags` array: a `null` entry, or a tag object.
      A missing `name` and an empty one are both falsy and both written "". */
  datatype TagEntry = NoTag | Tag(id: int, name: string)

  /** One line of a weekly section. `tags` is `None` when the field is absent
      or is not an array. */
  datatype Item = Item(text: string, completed: bool, notes: string, tags: Option<seq<TagEntry>>)

  /** The stored `content` of a note: a (non-null) object whose two section
      fields may be missing, a string, or anything else (null, undefined, a
      number, a boolean). */
  datatype Content =
    | Obj(keyFocus: Option<seq<Item>>, regularWork: Option<seq<Item>>)
    | Str(s: string)
    | Other

  datatype Note = Note(id: int, title: string, noteType: string, content: Content)

  /** `{ keyFocus: [], regularWork: [] }` */
  const EmptyWeekly: Content := Obj(Some([]), Some([]))

  predicate IsWeekly(noteType: string) {
    noteType == "weekly"
  }

  /** `content.keyFocus || []`: a missing section, or content that is not an
      object, reads as the empty list. */
  function KeyFocus(c: Content): (r: seq<Item>)
    ensures c.Obj? && c.keyFocus.Some? ==> r == c.keyFocus.value
    ensures !(c.Obj? && c.keyFocus.Some?) ==> r == []
  {
    if c.Obj? && c.keyFocus.Some? then c.keyFocus.value else []
  }

  /** `content.regularWork || []` */
  function RegularWork(c: Content): (r: seq<Item>)
    ensures c.Obj? && c.regularWork.Some? ==> r == c.regularWork.value
    ensures !(c.Obj? && c.regularWork.Some?) ==> r == []
  {
    if c.Obj? && c.regularWork.Some? then c.regularWork.value else []
  }

  /** `[...keyFocus, ...regularWork]` */
  function AllItems(c: Content): (r: seq<Item>)
    ensures |r| == |KeyFocus(c)| + |RegularWork(c)|
    ensures r[..|KeyFocus(c)|] == KeyFocus(c) && r[|KeyFocus(c)|..] == RegularWork(c)
  {
    KeyFocus(c) + RegularWork(c)
  }

  /** `r` is `s` with some elements dropped and the rest in their order. */
  predicate IsSubsequence<T(==)>(r: seq<T>, s: seq<T>)
    decreases |s|
  {
    if r == [] then true
    else if s == [] then false
    else if r[|r| - 1] == s[|s| - 1] then IsSubsequence(r[..|r| - 1], s[..|s| - 1])
    else IsSubsequence(r, s[..|s| - 1])
  }

  /** `Array.prototype.filter`: the elements of `s` that satisfy `f`, in order. */
  function Filter<T(!new)>(f: T -> bool, s: seq<T>): (r: seq<T>)
    ensures |r| <= |s|
  {
    if s == [] then []
    else Filter(f, s[..|s| - 1]) + (if f(s[|s| - 1]) then [s[|s| - 1]] else [])
  }

  /** Filtering keeps exactly the copies of the elements that satisfy `f`. */
  lemma {:induction false} FilterMultiset<T(!new)>(f: T -> bool, s: seq<T>)
    ensures forall x :: multiset(Filter(f, s))[x] == if f(x) then multiset(s)[x] else 0
    ensures forall x :: x in Filter(f, s) <==> x in s && f(x)
  {
    if s != [] {
      var init, last := s[..|s| - 1], s[|s| - 1];
      assert s == init + [last];
      FilterMultiset(f, init);
      assert multiset(s) == multiset(init) + multiset{last};
      var tail := if f(last) then [last] else [];
      assert multiset(Filter(f, s)) == multiset(Filter(f, init)) + multiset(tail);
      forall x ensures x in Filter(f, s) <==> x in s && f(x) {
        assert x in Filter(f, s) <==> multiset(Filter(f, s))[x] > 0;
        assert x in s <==> multiset(s)[x] > 0;
      }
    }
  }

  /** Every element that survives filtering satisfies the predicate. */
  lemma {:induction false} FilterSatisfies<T(!new)>(f: T -> bool, s: seq<T>)
    ensures forall k :: 0 <= k < |Filter(f, s)| ==> f(Filter(f, s)[k])
  {
    if s != [] {
      var init := s[..|s| - 1];
      FilterSatisfies(f, init);
      var r := Filter(f, s);
      assert r[..|Filter(f, init)|] == Filter(f, init);
    }
  }

  /** Filtering one more element appends it exactly when it satisfies `f`. */
  lemma {:induction false} FilterStep<T(!new)>(f: T -> bool, s: seq<T>, j: int)
    requires 0 <= j < |s|
    ensures Filter(f, s[..j + 1]) == Filter(f, s[..j]) + if f(s[j]) then [s[j]] else []
  {
    assert s[..j + 1][..j] == s[..j];
  }

  /** Filtering keeps the surviving elements in their original order. */
  lemma {:induction false} FilterIsSubsequence<T(!new)>(f: T -> bool, s: seq<T>)
    ensures IsSubsequence(Filter(f, s), s)
  {
    if s != [] {
      var init, last := s[..|s| - 1], s[|s| - 1];
      FilterIsSubsequence(f, init);
      var r := Filter(f, s);
      if f(last) {
        assert r[..|r| - 1] == Filter(f, init);
      } else {
        assert s == init + [last];
        assert r == Filter(f, init);
        SubsequenceOfPrefix(r, init, last);
      }
    }
  }

  /** A subsequence of a prefix of `s` is a subsequence of `s` itself. */
  lemma {:induction false} SubsequenceOfPrefix<T>(r: seq<T>, init: seq<T>, x: T)
    requires IsSubsequence(r, init)
    ensures IsSubsequence(r, init + [x])
    decreases |init| + 1, 0
  {
    var s := init + [x];
    assert s[..|s| - 1] == init;
    if r != [] && r[|r| - 1] == x {
      SubsequenceDropLast(r, init);
    }
  }

  /** Dropping the last element keeps a subsequence a subsequence. */
  lemma {:induction false} SubsequenceDropLast<T>(r: seq<T>, s: seq<T>)
    requires r != [] && IsSubsequence(r, s)
    ensures IsSubsequence(r[..|r| - 1], s)
    decreases |s|, 1
  {
    var r' := r[..|r| - 1];
    if r' != [] {
      var s', last := s[..|s| - 1], s[|s| - 1];
      if r[|r| - 1] != last {
        SubsequenceDropLast(r, s');
      }
      assert s == s' + [last];
      SubsequenceOfPrefix(r', s', last);
    }
  }

  /** Filtering distributes over concatenation, so the filtered key-focus items
      come before the filtered regular-work items. */
  lemma {:induction false} FilterConcat<T(!new)>(f: T -> bool, a: seq<T>, b: seq<T>)
    ensures Filter(f, a + b) == Filter(f, a) + Filter(f, b)
    decreases |b|
  {
    if b == [] {
      assert a + b == a;
    } else {
      var b', last := b[..|b| - 1], b[|b| - 1];
      assert (a + b)[..|a + b| - 1] == a + b';
      assert (a + b)[|a + b| - 1] == last;
      FilterConcat(f, a, b');
    }
  }
}
