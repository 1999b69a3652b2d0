/** The review table of submitted weekly notes: the badge list of a note's
    distinct tags (`NoteTagsDisplay`) and the sort indicator of a column
    header (`SortableHeader`). */
module SubmittedNotesView {
  import opened Notes

  /** `tag && tag.name`: a tag object whose name is truthy. */
  predicate IsNamed(t: TagEntry) {
    t.Tag? && t.name != ""
  }

  function NameOf(t: TagEntry): string {
    if t.Tag? then t.name else ""
  }

  /** The tags one item contributes: none unless its `tags` is an array, and
      of those only the named ones. */
  function ItemTags(item: Item): (r: seq<TagEntry>)
    ensures item.tags.None? ==> r == []
    ensures forall k :: 0 <= k < |r| ==> IsNamed(r[k])
  {
    if item.tags.Some? then
      FilterSatisfies(IsNamed, item.tags.value);
      Filter(IsNamed, item.tags.value)
    else []
  }

  /** An item contributes exactly its named tags. */
  lemma {:induction false} ItemTagsMembers(item: Item)
    ensures forall t :: t in ItemTags(item) <==> item.tags.Some? && t in item.tags.value && IsNamed(t)
  {
    if item.tags.Some? {
      FilterMultiset(IsNamed, item.tags.value);
    }
  }

  /** The named tags of `items`, item after item, each item's in its order:
      the sequence of `tagMap.set` calls. */
  function TagStream(items: seq<Item>): seq<TagEntry> {
    if items == [] then []
    else TagStream(items[..|items| - 1]) + ItemTags(items[|items| - 1])
  }

  function Names(ts: seq<TagEntry>): (r: seq<string>)
    ensures |r| == |ts| && forall k :: 0 <= k < |ts| ==> r[k] == NameOf(ts[k])
  {
    seq(|ts|, k requires 0 <= k < |ts| => NameOf(ts[k]))
  }

  /** The keys of a `Map` after `set` was called with the keys `names` in
      turn: a new key goes to the end, a known key keeps its place. */
  function Dedup(names: seq<string>): (r: seq<string>)
    ensures forall n :: n in r <==> n in names
  {
    if names == [] then []
    else
      var init := names[..|names| - 1];
      var d := Dedup(init);
      var n := names[|names| - 1];
      assert names == init + [n];
      if n in d then d else d + [n]
  }

  /** The position of the first occurrence of `n`. */
  function FirstIndex(names: seq<string>, n: string): (r: nat)
    requires n in names
    ensures r < |names| && names[r] == n
    ensures forall k :: 0 <= k < r ==> names[k] != n
  {
    var init := names[..|names| - 1];
    if n in init then FirstIndex(init, n) else |names| - 1
  }

  /** The position of the last occurrence of `n`. */
  function LastIndex(names: seq<string>, n: string): (r: nat)
    requires n in names
    ensures r < |names| && names[r] == n
    ensures forall k :: r < k < |names| ==> names[k] != n
  {
    var init := names[..|names| - 1];
    if names[|names| - 1] == n then |names| - 1
    else
      assert n in init by {
        var k :| 0 <= k < |names| && names[k] == n;
        assert init[k] == n;
      }
      LastIndex(init, n)
  }

  /** No key appears twice. */
  lemma {:induction false} DedupDistinct(names: seq<string>)
    ensures forall i, j :: 0 <= i < j < |Dedup(names)| ==> Dedup(names)[i] != Dedup(names)[j]
  {
    if names != [] {
      DedupDistinct(names[..|names| - 1]);
    }
  }

  /** The keys are in the order of their first occurrences. */
  lemma {:induction false} DedupFirstOrder(names: seq<string>)
    ensures forall i, j :: 0 <= i < j < |Dedup(names)| ==>
      FirstIndex(names, Dedup(names)[i]) < FirstIndex(names, Dedup(names)[j])
  {
    if names != [] {
      var init := names[..|names| - 1];
      var n := names[|names| - 1];
      DedupFirstOrder(init);
      var d, d' := Dedup(init), Dedup(names);
      forall m | m in init ensures FirstIndex(names, m) == FirstIndex(init, m) {
        FirstIndexOfPrefix(names, m);
      }
      forall i, j | 0 <= i < j < |d'| ensures FirstIndex(names, d'[i]) < FirstIndex(names, d'[j]) {
        if j < |d| {
          assert d'[i] == d[i] && d'[j] == d[j];
        } else {
          assert d'[j] == n && n !in init && d'[i] == d[i] && d[i] in init;
        }
      }
    }
  }

  /** A name already present in a prefix has its first occurrence there. */
  lemma {:induction false} FirstIndexOfPrefix(names: seq<string>, m: string)
    requires names != [] && m in names[..|names| - 1]
    ensures FirstIndex(names, m) == FirstIndex(names[..|names| - 1], m)
  {
  }

  /** Tags are gathered from the first items before the later ones. */
  lemma {:induction false} TagStreamConcat(a: seq<Item>, b: seq<Item>)
    ensures TagStream(a + b) == TagStream(a) + TagStream(b)
    decreases |b|
  {
    if b == [] {
      assert a + b == a;
    } else {
      var init, last := b[..|b| - 1], b[|b| - 1];
      assert (a + b)[..|a + b| - 1] == a + init;
      assert (a + b)[|a + b| - 1] == last;
      TagStreamConcat(a, init);
      AppendAssociative(TagStream(a), TagStream(init), ItemTags(last));
    }
  }

  /** Concatenation is associative. Dafny proves this unaided; it is a lemma
      only so that `TagStreamConcat` can name the step instead of searching
      for it, which keeps that proof cheap. */
  lemma AppendAssociative<T>(x: seq<T>, y: seq<T>, z: seq<T>)
    ensures (x + y) + z == x + (y + z)
  {
  }

  /** Every named tag of every item is in the stream. */
  lemma {:induction false} TagStreamContains(items: seq<Item>, item: Item, t: TagEntry)
    requires item in items && item.tags.Some? && t in item.tags.value && IsNamed(t)
    ensures t in TagStream(items)
  {
    var init, last := items[..|items| - 1], items[|items| - 1];
    if item == last {
      FilterMultiset(IsNamed, item.tags.value);
    } else {
      assert items == init + [last];
      TagStreamContains(init, item, t);
    }
  }

  /** Every tag in the stream is a named tag. */
  lemma {:induction false} TagStreamNamed(items: seq<Item>)
    ensures forall t :: t in TagStream(items) ==> IsNamed(t)
  {
    if items != [] {
      TagStreamNamed(items[..|items| - 1]);
      var last := items[|items| - 1];
      if last.tags.Some? {
        FilterMultiset(IsNamed, last.tags.value);
      }
    }
  }

  /** `uniqueTags` as a value: for each key of the map, in key order, the
      last tag set under that key. Content that is not an object has none. */
  function UniqueTagsOf(c: Content): (r: seq<TagEntry>)
    ensures !c.Obj? ==> r == []
  {
    if !c.Obj? then []
    else
      var ts := TagStream(AllItems(c));
      var names := Names(ts);
      var d := Dedup(names);
      seq(|d|, i requires 0 <= i < |d| => ts[LastIndex(names, d[i])])
  }

  /** No two tags shown share a name. */
  lemma {:induction false} UniqueTagNamesDistinct(c: Content)
    ensures var r := UniqueTagsOf(c);
      forall i, j :: 0 <= i < j < |r| ==> NameOf(r[i]) != NameOf(r[j])
  {
    if c.Obj? {
      var names := Names(TagStream(AllItems(c)));
      DedupDistinct(names);
    }
  }

  /** Every tag shown is a named tag set while walking the items. */
  lemma {:induction false} UniqueTagsSound(c: Content)
    ensures var r := UniqueTagsOf(c);
      forall k :: 0 <= k < |r| ==> IsNamed(r[k]) && r[k] in TagStream(AllItems(c))
  {
    if c.Obj? {
      var r := UniqueTagsOf(c);
      var ts := TagStream(AllItems(c));
      var names := Names(ts);
      var d := Dedup(names);
      TagStreamNamed(AllItems(c));
      forall k | 0 <= k < |r| ensures IsNamed(r[k]) && r[k] in ts {
        assert r[k] == ts[LastIndex(names, d[k])];
      }
    }
  }

  /** Every named tag of every item has its name shown. */
  lemma {:induction false} UniqueTagsComplete(c: Content, item: Item, t: TagEntry)
    requires c.Obj? && item in AllItems(c) && item.tags.Some? && t in item.tags.value && IsNamed(t)
    ensures t.name in Names(UniqueTagsOf(c))
  {
    var r := UniqueTagsOf(c);
    var ts := TagStream(AllItems(c));
    var names := Names(ts);
    var d := Dedup(names);
    TagStreamContains(AllItems(c), item, t);
    var p :| 0 <= p < |ts| && ts[p] == t;
    assert names[p] == t.name;
    assert t.name in d;
    var i :| 0 <= i < |d| && d[i] == t.name;
    assert Names(r)[i] == t.name;
  }

  /** The tags shown are named tags of the note's items, and every named tag
      of every key-focus or regular-work item has its name shown. */
  lemma {:induction false} UniqueTagsCover(c: Content)
    ensures var r := UniqueTagsOf(c);
      (forall k :: 0 <= k < |r| ==> IsNamed(r[k]) && r[k] in TagStream(AllItems(c))) &&
      (forall item, t :: c.Obj? && item in AllItems(c) && item.tags.Some? && t in item.tags.value && IsNamed(t) ==>
         t.name in Names(r))
  {
    UniqueTagsSound(c);
    forall item, t | c.Obj? && item in AllItems(c) && item.tags.Some? && t in item.tags.value && IsNamed(t)
      ensures t.name in Names(UniqueTagsOf(c))
    {
      UniqueTagsComplete(c, item, t);
    }
  }

  /** Names are shown in the order they first occur in the items, and the
      tag shown for a name is its last occurrence (`Map.set` overwrites the
      value but keeps the key's place). */
  lemma {:induction false} UniqueTagsOrderAndLastWins(c: Content)
    requires c.Obj?
    ensures var ts := TagStream(AllItems(c)); var names := Names(ts); var r := UniqueTagsOf(c);
      (forall k :: 0 <= k < |r| ==> NameOf(r[k]) in names) &&
      (forall i, j :: 0 <= i < j < |r| ==> FirstIndex(names, NameOf(r[i])) < FirstIndex(names, NameOf(r[j]))) &&
      (forall k :: 0 <= k < |r| ==>
         var p := LastIndex(names, NameOf(r[k]));
         ts[p] == r[k] && forall q :: p < q < |ts| ==> NameOf(ts[q]) != NameOf(r[k]))
  {
    var ts := TagStream(AllItems(c));
    var names := Names(ts);
    DedupFirstOrder(names);
  }

  /** The insertion-ordered map of the source at some point of the loop: its
      keys in order, and for each key the last tag set under it so far. */
  ghost predicate MapMatches(order: seq<string>, tagMap: map<string, TagEntry>, seen: seq<TagEntry>) {
    order == Dedup(Names(seen)) &&
    (forall n :: n in tagMap <==> n in Names(seen)) &&
    (forall n :: n in tagMap ==> n in Names(seen) && tagMap[n] == seen[LastIndex(Names(seen), n)])
  }

  /** Setting one more key: a new key is appended, a known one stays put. */
  lemma {:induction false} DedupSnoc(names: seq<string>, n: string)
    ensures Dedup(names + [n]) == if n in names then Dedup(names) else Dedup(names) + [n]
  {
    assert (names + [n])[..|names + [n]| - 1] == names;
  }

  /** The last occurrence after appending `n`. */
  lemma {:induction false} LastIndexSnoc(names: seq<string>, n: string, m: string)
    requires m in names + [n]
    ensures m != n ==> m in names
    ensures LastIndex(names + [n], m) == if m == n then |names| else LastIndex(names, m)
  {
    var names' := names + [n];
    assert names'[..|names'| - 1] == names;
    if m != n {
      assert m in names by {
        var k :| 0 <= k < |names'| && names'[k] == m;
        assert names[k] == m;
      }
    }
  }

  /** One `tagMap.set(tag.name, tag)` keeps the map matched to the stream. */
  lemma {:induction false} MapSetStep(order: seq<string>, tagMap: map<string, TagEntry>, seen: seq<TagEntry>, t: TagEntry)
    requires MapMatches(order, tagMap, seen) && IsNamed(t)
    ensures MapMatches(if t.name in tagMap then order else order + [t.name], tagMap[t.name := t], seen + [t])
  {
    MapSetOrder(order, tagMap, seen, t);
    MapSetKeys(tagMap, seen, t);
    MapSetValues(tagMap, seen, t);
  }

  /** The key order after setting `t`: its name appended when new, unchanged
      otherwise. */
  lemma {:induction false} MapSetOrder(order: seq<string>, tagMap: map<string, TagEntry>, seen: seq<TagEntry>, t: TagEntry)
    requires IsNamed(t)
    requires order == Dedup(Names(seen)) && (forall m :: m in tagMap <==> m in Names(seen))
    ensures (if t.name in tagMap then order else order + [t.name]) == Dedup(Names(seen + [t]))
  {
    assert Names(seen + [t]) == Names(seen) + [t.name];
    DedupSnoc(Names(seen), t.name);
  }

  /** The keys after setting `t`: the names seen, its own included. */
  lemma {:induction false} MapSetKeys(tagMap: map<string, TagEntry>, seen: seq<TagEntry>, t: TagEntry)
    requires IsNamed(t)
    requires forall m :: m in tagMap <==> m in Names(seen)
    ensures forall m :: m in tagMap[t.name := t] <==> m in Names(seen + [t])
  {
    var names := Names(seen);
    assert Names(seen + [t]) == names + [t.name];
    forall m ensures m in tagMap[t.name := t] <==> m in names + [t.name] {
      if m in names + [t.name] && m != t.name {
        LastIndexSnoc(names, t.name, m);
      }
    }
  }

  /** The values after setting `t`: `t` under its name, and under every
      other key still the last tag set under it. */
  lemma {:induction false} MapSetValues(tagMap: map<string, TagEntry>, seen: seq<TagEntry>, t: TagEntry)
    requires IsNamed(t)
    requires forall n :: n in tagMap ==> n in Names(seen) && tagMap[n] == seen[LastIndex(Names(seen), n)]
    ensures forall m :: m in tagMap[t.name := t] ==>
      m in Names(seen + [t]) && tagMap[t.name := t][m] == (seen + [t])[LastIndex(Names(seen + [t]), m)]
  {
    var seen', tagMap' := seen + [t], tagMap[t.name := t];
    var names, names' := Names(seen), Names(seen');
    assert names' == names + [t.name];
    forall m | m in tagMap'
      ensures m in names' && tagMap'[m] == seen'[LastIndex(names', m)]
    {
      assert m in names' by {
        if m != t.name { assert m in names; }
      }
      LastIndexSnoc(names, t.name, m);
      if m != t.name {
        var p := LastIndex(names, m);
        assert seen'[p] == seen[p];
      }
    }
  }

  /** `if (tag && tag.name) tagMap.set(tag.name, tag)` */
  method SetTag(tag: TagEntry, order: seq<string>, tagMap: map<string, TagEntry>, ghost seen: seq<TagEntry>)
    returns (order': seq<string>, tagMap': map<string, TagEntry>, ghost seen': seq<TagEntry>)
    requires MapMatches(order, tagMap, seen)
    ensures IsNamed(tag) ==>
      (tagMap' == tagMap[tag.name := tag] &&
       order' == if tag.name in tagMap then order else order + [tag.name])
    ensures !IsNamed(tag) ==> tagMap' == tagMap && order' == order
    ensures order <= order'
    ensures seen' == seen + (if IsNamed(tag) then [tag] else [])
    ensures MapMatches(order', tagMap', seen')
  {
    order', tagMap', seen' := order, tagMap, seen;
    if tag.Tag? && tag.name != "" {
      MapSetStep(order, tagMap, seen, tag);
      if tag.name !in tagMap {
        order' := order + [tag.name];
      }
      tagMap' := tagMap[tag.name := tag];
      seen' := seen + [tag];
    } else {
      assert seen + [] == seen;
    }
  }

  /** The inner `item.tags.forEach`: set every named tag of one item. */
  method SetNamedTags(entries: seq<TagEntry>, order: seq<string>, tagMap: map<string, TagEntry>, ghost seen: seq<TagEntry>)
    returns (order': seq<string>, tagMap': map<string, TagEntry>, ghost seen': seq<TagEntry>)
    requires MapMatches(order, tagMap, seen)
    ensures order <= order'
    ensures seen' == seen + Filter(IsNamed, entries)
    ensures MapMatches(order', tagMap', seen')
  {
    order', tagMap', seen' := order, tagMap, seen;
    var j := 0;
    while j < |entries|
      invariant 0 <= j <= |entries|
      invariant order <= order'
      invariant seen' == seen + Filter(IsNamed, entries[..j])
      invariant MapMatches(order', tagMap', seen')
    {
      var tag := entries[j];
      FilterStep(IsNamed, entries, j);
      ghost var prev := order';
      order', tagMap', seen' := SetTag(tag, order', tagMap', seen');
      PrefixTransitive(order, prev, order');
      assert seen' == seen + Filter(IsNamed, entries[..j + 1]) by {
        assert seen' == (seen + Filter(IsNamed, entries[..j])) + (if IsNamed(tag) then [tag] else []);
      }
      j := j + 1;
    }
    assert entries[..j] == entries;
  }

  /** The prefix order is transitive. Dafny proves this unaided; it is a
      lemma only so that the loop of `SetNamedTags` can name the step, which
      keeps that proof cheap. */
  lemma PrefixTransitive<T>(a: seq<T>, b: seq<T>, c: seq<T>)
    requires a <= b && b <= c
    ensures a <= c
  {
  }

  /** The tags set while walking the first `i + 1` items: those of the first
      `i` items, then the named tags of item `i`. */
  lemma {:induction false} TagStreamStep(items: seq<Item>, i: int)
    requires 0 <= i < |items|
    ensures TagStream(items[..i + 1]) == TagStream(items[..i]) + ItemTags(items[i])
  {
    assert items[..i + 1][..i] == items[..i];
  }

  /** `Array.from(tagMap.values())`: the values in key-insertion order. */
  function MapValues(order: seq<string>, tagMap: map<string, TagEntry>): (r: seq<TagEntry>)
    requires forall k :: 0 <= k < |order| ==> order[k] in tagMap
    ensures |r| == |order|
    ensures forall k :: 0 <= k < |r| ==> r[k] == tagMap[order[k]]
    ensures forall k :: 0 <= k < |r| ==> r[k] in tagMap.Values
  {
    seq(|order|, k requires 0 <= k < |order| => tagMap[order[k]])
  }

  /** Once every item has been walked, the map's values are `UniqueTagsOf`. */
  lemma {:induction false} MapValuesAreUniqueTags(c: Content, order: seq<string>, tagMap: map<string, TagEntry>)
    requires c.Obj? && MapMatches(order, tagMap, TagStream(AllItems(c)))
    ensures forall k :: 0 <= k < |order| ==> order[k] in tagMap
    ensures MapValues(order, tagMap) == UniqueTagsOf(c)
  {
    var ts := TagStream(AllItems(c));
    assert forall k :: 0 <= k < |order| ==> order[k] in Names(ts);
  }

  /** `uniqueTags`: walk the items and their tag arrays, setting each named
      tag in an insertion-ordered map under its name, then list the map's
      values. */
  method UniqueTags(content: Content) returns (tags: seq<TagEntry>)
    ensures tags == UniqueTagsOf(content)
  {
    if !content.Obj? {
      return [];
    }
    var allItems := AllItems(content);
    var order: seq<string> := [];
    var tagMap: map<string, TagEntry> := map[];
    ghost var seen: seq<TagEntry> := [];
    var i := 0;
    while i < |allItems|
      invariant 0 <= i <= |allItems|
      invariant seen == TagStream(allItems[..i])
      invariant MapMatches(order, tagMap, seen)
    {
      var item := allItems[i];
      TagStreamStep(allItems, i);
      if item.tags.Some? {
        order, tagMap, seen := SetNamedTags(item.tags.value, order, tagMap, seen);
      }
      i := i + 1;
    }
    assert allItems[..i] == allItems;
    MapValuesAreUniqueTags(content, order, tagMap);
    tags := MapValues(order, tagMap);
  }

  /** The sort state of the table. */
  datatype SortConfig = SortConfig(key: string, direction: string)

  datatype SortIcon = Unsorted | SortUp | SortDown

  /** `getSortIcon`: neutral on every column but the sorted one, whose icon
      points up when ascending and down for any other direction. */
  function GetSortIcon(sortConfig: SortConfig, name: string): (r: SortIcon)
    ensures r == Unsorted <==> sortConfig.key != name
    ensures r == SortUp <==> sortConfig.key == name && sortConfig.direction == "ascending"
    ensures r == SortDown <==> sortConfig.key == name && sortConfig.direction != "ascending"
  {
    if sortConfig.key != name then Unsorted
    else if sortConfig.direction == "ascending" then SortUp
    else SortDown
  }

  /** Among headers with distinct names at most one shows a direction. */
  lemma {:induction false} AtMostOneSortedHeader(sortConfig: SortConfig, names: seq<string>)
    requires forall i, j :: 0 <= i < j < |names| ==> names[i] != names[j]
    ensures forall i, j :: 0 <= i < j < |names| ==>
      GetSortIcon(sortConfig, names[i]) == Unsorted || GetSortIcon(sortConfig, names[j]) == Unsorted
  {
  }
}
