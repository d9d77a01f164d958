/**
 The key-value store: items in the lexicographic order of their keys, entries with a time to live,
 and the prefix scans that start with a seek and stop at the first key without the prefix.
 */
module Store {
  import opened Data

  /** A value and the moment it expires, if it does. */
  datatype Entry<V> = Entry(value: V, expiresAt: Option<int>)

  datatype Item<V> = Item(key: Bytes, entry: Entry<V>)

  predicate IsLive<V>(e: Entry<V>, now: int)
  {
    e.expiresAt.Some? ==> now < e.expiresAt.value
  }

  /** Lexicographic order of byte strings. */
  predicate Less(a: Bytes, b: Bytes)
  {
    b != [] && (a == [] || a[0] < b[0] || (a[0] == b[0] && Less(a[1..], b[1..])))
  }

  predicate Sorted<V>(items: seq<Item<V>>)
  {
    forall i, j :: 0 <= i < j < |items| ==> Less(items[i].key, items[j].key)
  }

  lemma {:induction false} LessTransitive(a: Bytes, b: Bytes, c: Bytes)
    requires Less(a, b) && Less(b, c)
    ensures Less(a, c)
  {
    if a != [] && a[0] == b[0] && b[0] == c[0] {
      LessTransitive(a[1..], b[1..], c[1..]);
    }
  }

  lemma {:induction false} LessTotal(a: Bytes, b: Bytes)
    ensures Less(a, b) || a == b || Less(b, a)
    ensures !(Less(a, b) && Less(b, a)) && !Less(a, a)
  {
    if a != [] {
      LessTotal(a[1..], if b == [] then [] else b[1..]);
      if b != [] && a[0] == b[0] && a[1..] == b[1..] {
        assert a == [a[0]] + a[1..] && b == [b[0]] + b[1..];
      }
    }
  }

  // A prefix is not after what it is a prefix of.
  lemma {:induction false} PrefixNotAfter(p: Bytes, k: Bytes)
    requires p <= k
    ensures !Less(k, p)
  {
    if p != [] {
      assert k[0] == p[0] && p[1..] <= k[1..];
      PrefixNotAfter(p[1..], k[1..]);
    }
  }

  // The keys with a given prefix are not interrupted by others.
  lemma {:induction false} PrefixContiguous(p: Bytes, a: Bytes, b: Bytes)
    requires !Less(a, p) && Less(a, b) && p <= b
    ensures p <= a
  {
    if p != [] {
      assert b[0] == p[0];
      assert a != [] && a[0] == p[0];
      assert p[1..] <= b[1..];
      PrefixContiguous(p[1..], a[1..], b[1..]);
      assert a == [a[0]] + a[1..] && p == [p[0]] + p[1..];
    }
  }

  ghost predicate AllBefore<V>(items: seq<Item<V>>, key: Bytes)
  {
    forall i :: 0 <= i < |items| ==> Less(items[i].key, key)
  }

  lemma SortedAppend<V>(items: seq<Item<V>>, x: Item<V>)
    requires Sorted(items) && AllBefore(items, x.key)
    ensures Sorted(items + [x])
  {
  }

  lemma SortedInit<V>(items: seq<Item<V>>)
    requires Sorted(items) && items != []
    ensures Sorted(items[..|items| - 1]) && AllBefore(items[..|items| - 1], items[|items| - 1].key)
  {
  }

  // ---------------------------------------------------------------- items as a map

  function Contents<V>(items: seq<Item<V>>): map<Bytes, Entry<V>>
  {
    if items == [] then map[] else
      var n := |items| - 1;
      Contents(items[..n])[items[n].key := items[n].entry]
  }

  /** The entry of a key, looked up item by item. */
  function Lookup<V>(items: seq<Item<V>>, key: Bytes): Option<Entry<V>>
  {
    if items == [] then None
    else if items[|items| - 1].key == key then Some(items[|items| - 1].entry)
    else Lookup(items[..|items| - 1], key)
  }

  function Put<V>(items: seq<Item<V>>, key: Bytes, e: Entry<V>): seq<Item<V>>
  {
    if items == [] then [Item(key, e)] else
      var n := |items| - 1;
      if Less(items[n].key, key) then items + [Item(key, e)]
      else if items[n].key == key then items[..n] + [Item(key, e)]
      else Put(items[..n], key, e) + [items[n]]
  }

  function Delete<V>(items: seq<Item<V>>, key: Bytes): seq<Item<V>>
  {
    if items == [] then [] else
      var n := |items| - 1;
      if items[n].key == key then Delete(items[..n], key) else Delete(items[..n], key) + [items[n]]
  }

  /** What a transaction that starts now sees. */
  function LiveItems<V>(items: seq<Item<V>>, now: int): seq<Item<V>>
  {
    if items == [] then [] else
      var n := |items| - 1;
      if IsLive(items[n].entry, now) then LiveItems(items[..n], now) + [items[n]] else LiveItems(items[..n], now)
  }

  /** The items whose keys have the prefix, in order. */
  function WithPrefix<V>(items: seq<Item<V>>, prefix: Bytes): seq<Item<V>>
  {
    if items == [] then [] else
      var n := |items| - 1;
      if prefix <= items[n].key then WithPrefix(items[..n], prefix) + [items[n]] else WithPrefix(items[..n], prefix)
  }

  function Values<V>(items: seq<Item<V>>): (vs: seq<V>)
    ensures |vs| == |items|
  {
    seq(|items|, i requires 0 <= i < |items| => items[i].entry.value)
  }

  lemma {:induction false} ContentsAt<V>(items: seq<Item<V>>, i: nat)
    requires Sorted(items) && i < |items|
    ensures items[i].key in Contents(items) && Contents(items)[items[i].key] == items[i].entry
  {
    var n := |items| - 1;
    if i < n {
      ContentsAt(items[..n], i);
      LessTotal(items[i].key, items[n].key);
    }
  }

  lemma {:induction false} ContentsIndex<V>(items: seq<Item<V>>, k: Bytes) returns (i: nat)
    requires k in Contents(items)
    ensures i < |items| && items[i].key == k && items[i].entry == Contents(items)[k]
  {
    i := |items| - 1;
    if items[i].key != k {
      i := ContentsIndex(items[..i], k);
    }
  }

  lemma {:induction false} LookupFinds<V>(items: seq<Item<V>>, key: Bytes)
    ensures Lookup(items, key) == if key in Contents(items) then Some(Contents(items)[key]) else None
  {
    if items != [] {
      LookupFinds(items[..|items| - 1], key);
    }
  }

  lemma {:induction false} PutSorted<V>(items: seq<Item<V>>, key: Bytes, e: Entry<V>)
    requires Sorted(items)
    ensures Sorted(Put(items, key, e))
    ensures forall k :: AllBefore(items, k) && Less(key, k) ==> AllBefore(Put(items, key, e), k)
  {
    if items != [] {
      var n := |items| - 1;
      var last := items[n];
      SortedInit(items);
      if Less(last.key, key) {
        forall i | 0 <= i < n ensures Less(items[i].key, key) {
          LessTransitive(items[i].key, last.key, key);
        }
        SortedAppend(items, Item(key, e));
      } else if last.key == key {
        SortedAppend(items[..n], Item(key, e));
      } else {
        LessTotal(last.key, key);
        PutSorted(items[..n], key, e);
        SortedAppend(Put(items[..n], key, e), last);
        assert forall k :: AllBefore(items, k) ==> AllBefore(items[..n], k);
      }
    }
  }

  lemma ContentsAppend<V>(items: seq<Item<V>>, x: Item<V>)
    ensures Contents(items + [x]) == Contents(items)[x.key := x.entry]
  {
    assert (items + [x])[..|items|] == items;
  }

  lemma {:induction false} PutContents<V>(items: seq<Item<V>>, key: Bytes, e: Entry<V>)
    ensures Contents(Put(items, key, e)) == Contents(items)[key := e]
  {
    if items == [] {
      ContentsAppend([], Item(key, e));
    } else {
      var n := |items| - 1;
      var last := items[n];
      if Less(last.key, key) {
        ContentsAppend(items, Item(key, e));
      } else if last.key == key {
        ContentsAppend(items[..n], Item(key, e));
      } else {
        PutContents(items[..n], key, e);
        ContentsAppend(Put(items[..n], key, e), last);
      }
    }
  }

  lemma {:induction false} DeleteSorted<V>(items: seq<Item<V>>, key: Bytes)
    requires Sorted(items)
    ensures Sorted(Delete(items, key))
    ensures forall k :: AllBefore(items, k) ==> AllBefore(Delete(items, key), k)
  {
    if items != [] {
      var n := |items| - 1;
      SortedInit(items);
      DeleteSorted(items[..n], key);
      assert forall k :: AllBefore(items, k) ==> AllBefore(items[..n], k);
      if items[n].key != key {
        SortedAppend(Delete(items[..n], key), items[n]);
      }
    }
  }

  lemma MinusUpdate<K, V>(m: map<K, V>, k: K, v: V, key: K)
    ensures m[k := v] - {key} == if k == key then m - {key} else (m - {key})[k := v]
  {
  }

  lemma MinusOneMore<K, V>(m: map<K, V>, s: set<K>, k: K)
    ensures m - s - {k} == m - (s + {k})
  {
  }

  lemma {:induction false} DeleteContents<V>(items: seq<Item<V>>, key: Bytes)
    ensures Contents(Delete(items, key)) == Contents(items) - {key}
  {
    if items != [] {
      var n := |items| - 1;
      DeleteContents(items[..n], key);
      MinusUpdate(Contents(items[..n]), items[n].key, items[n].entry, key);
      if items[n].key != key {
        ContentsAppend(Delete(items[..n], key), items[n]);
      }
    }
  }

  lemma {:induction false} LiveItemsOf<V>(items: seq<Item<V>>, now: int)
    requires Sorted(items)
    ensures Sorted(LiveItems(items, now))
    ensures forall x :: x in LiveItems(items, now) <==> x in items && IsLive(x.entry, now)
    ensures forall k :: AllBefore(items, k) ==> AllBefore(LiveItems(items, now), k)
  {
    if items != [] {
      var n := |items| - 1;
      SortedInit(items);
      LiveItemsOf(items[..n], now);
      assert items == items[..n] + [items[n]];
      assert forall k :: AllBefore(items, k) ==> AllBefore(items[..n], k);
      if IsLive(items[n].entry, now) {
        SortedAppend(LiveItems(items[..n], now), items[n]);
      }
    }
  }

  lemma {:induction false} WithPrefixOf<V>(items: seq<Item<V>>, prefix: Bytes)
    ensures forall x :: x in WithPrefix(items, prefix) <==> x in items && prefix <= x.key
  {
    if items != [] {
      WithPrefixOf(items[..|items| - 1], prefix);
      assert items == items[..|items| - 1] + [items[|items| - 1]];
    }
  }

  lemma {:induction false} WithPrefixAll<V>(items: seq<Item<V>>, prefix: Bytes)
    requires forall i :: 0 <= i < |items| ==> prefix <= items[i].key
    ensures WithPrefix(items, prefix) == items
  {
    if items != [] {
      WithPrefixAll(items[..|items| - 1], prefix);
      assert items == items[..|items| - 1] + [items[|items| - 1]];
    }
  }

  lemma {:induction false} WithPrefixNone<V>(items: seq<Item<V>>, prefix: Bytes)
    requires forall i :: 0 <= i < |items| ==> !(prefix <= items[i].key)
    ensures WithPrefix(items, prefix) == []
  {
    if items != [] {
      WithPrefixNone(items[..|items| - 1], prefix);
    }
  }

  lemma {:induction false} WithPrefixSplit<V>(items: seq<Item<V>>, n: nat, prefix: Bytes)
    requires n <= |items|
    ensures WithPrefix(items, prefix) == WithPrefix(items[..n], prefix) + WithPrefix(items[n..], prefix)
  {
    if n == |items| {
      assert items[..n] == items;
    } else {
      var m := |items| - 1;
      WithPrefixSplit(items[..m], n, prefix);
      assert items[..m][..n] == items[..n];
      assert items[..m][n..] == items[n..][..m - n];
      assert items[n..][m - n] == items[m];
    }
  }

  // ---------------------------------------------------------------- the items of a map

  lemma {:induction false} HasItems<V(!new)>(m: map<Bytes, Entry<V>>)
    ensures exists items :: Sorted(items) && Contents(items) == m
    decreases |m|
  {
    if m == map[] {
      assert Sorted<V>([]) && Contents<V>([]) == m;
    } else {
      var k :| k in m;
      HasItems(m - {k});
      var items :| Sorted(items) && Contents(items) == m - {k};
      PutSorted(items, k, m[k]);
      PutContents(items, k, m[k]);
      assert Contents(Put(items, k, m[k])) == m;
    }
  }

  /** The items of a map, in the order of their keys. */
  ghost function ItemsOf<V(!new)>(m: map<Bytes, Entry<V>>): (items: seq<Item<V>>)
    ensures Sorted(items) && Contents(items) == m
  {
    HasItems(m);
    var items :| Sorted(items) && Contents(items) == m;
    items
  }

  // The key of the last item is not among those before it.
  lemma ContentsInit<V>(items: seq<Item<V>>)
    requires Sorted(items) && items != []
    ensures var n := |items| - 1; Contents(items[..n]) == Contents(items) - {items[n].key}
  {
    var n := |items| - 1;
    if items[n].key in Contents(items[..n]) {
      var i := ContentsIndex(items[..n], items[n].key);
      LessTotal(items[i].key, items[n].key);
    }
  }

  lemma LastKey<V>(a: seq<Item<V>>, b: seq<Item<V>>)
    requires Sorted(a) && Sorted(b) && a != [] && b != [] && Contents(a) == Contents(b)
    ensures !Less(a[|a| - 1].key, b[|b| - 1].key)
  {
    ContentsAt(b, |b| - 1);
    var i := ContentsIndex(a, b[|b| - 1].key);
    LessTotal(a[i].key, a[|a| - 1].key);
  }

  // Sorted items are determined by the map they stand for.
  lemma {:induction false} ItemsUnique<V>(a: seq<Item<V>>, b: seq<Item<V>>)
    requires Sorted(a) && Sorted(b) && Contents(a) == Contents(b)
    ensures a == b
  {
    if a == [] || b == [] {
      if a != [] {
        ContentsAt(a, |a| - 1);
      }
      if b != [] {
        ContentsAt(b, |b| - 1);
      }
    } else {
      var m, n := |a| - 1, |b| - 1;
      LastKey(a, b);
      LastKey(b, a);
      LessTotal(a[m].key, b[n].key);
      ContentsAt(a, m);
      ContentsAt(b, n);
      ContentsInit(a);
      ContentsInit(b);
      ItemsUnique(a[..m], b[..n]);
      assert a == a[..m] + [a[m]] && b == b[..n] + [b[n]];
    }
  }

  class BadgerDB<V(==)> {
    var items: seq<Item<V>>

    ghost predicate Valid()
      reads this
    {
      Sorted(items)
    }

    ghost function Map(): map<Bytes, Entry<V>>
      reads this
    {
      Contents(items)
    }

    constructor ()
      ensures Valid() && Map() == map[]
    {
      items := [];
    }

    method Get(key: Bytes, now: int) returns (value: Option<V>)
      requires Valid()
      ensures value == if key in Map() && IsLive(Map()[key], now) then Some(Map()[key].value) else None
      ensures value.Some? <==> key in Map() && (Map()[key].expiresAt.Some? ==> now < Map()[key].expiresAt.value)
    {
      LookupFinds(items, key);
      var e := Lookup(items, key);
      if e.Some? && IsLive(e.value, now) {
        value := Some(e.value.value);
      } else {
        value := None;
      }
    }

    method SetEx(key: Bytes, value: V, ttl: int, now: int, writeOk: bool) returns (ok: bool)
      requires Valid()
      modifies this
      ensures Valid() && ok == writeOk
      ensures Map() == if writeOk then old(Map())[key := Entry(value, Some(now + ttl))] else old(Map())
    {
      if writeOk {
        PutSorted(items, key, Entry(value, Some(now + ttl)));
        PutContents(items, key, Entry(value, Some(now + ttl)));
        items := Put(items, key, Entry(value, Some(now + ttl)));
      }
      ok := writeOk;
    }

    /** Seek to the prefix, then go on while the key has it. */
    method Scan(prefix: Bytes, now: int) returns (found: seq<Item<V>>)
      requires Valid()
      ensures found == WithPrefix(LiveItems(items, now), prefix)
    {
      LiveItemsOf(items, now);
      var view := LiveItems(items, now);
      var i := 0;
      while i < |view| && Less(view[i].key, prefix)
        invariant 0 <= i <= |view|
        invariant forall j :: 0 <= j < i ==> Less(view[j].key, prefix)
      {
        i := i + 1;
      }
      ghost var start := i;
      found := [];
      while i < |view| && prefix <= view[i].key
        invariant start <= i <= |view|
        invariant found == view[start..i]
        invariant forall j :: start <= j < i ==> prefix <= view[j].key
      {
        found := found + [view[i]];
        i := i + 1;
      }
      ScanExact(view, prefix, start, i);
    }

    method All(prefix: Bytes, now: int) returns (res: seq<V>)
      requires Valid()
      ensures res == Values(WithPrefix(LiveItems(items, now), prefix))
    {
      var found := Scan(prefix, now);
      res := [];
      for i := 0 to |found|
        invariant res == Values(found)[..i]
      {
        res := res + [found[i].entry.value];
      }
    }

    method Count(prefix: Bytes, now: int) returns (c: nat)
      requires Valid()
      ensures c == |WithPrefix(LiveItems(items, now), prefix)|
      ensures c == |set k | k in Map() && IsLive(Map()[k], now) && prefix <= k|
    {
      var found := Scan(prefix, now);
      c := |found|;
      ScanIsSet(items, prefix, now);
    }

    /** Deletes every live key with the prefix. */
    method Remove(prefix: Bytes, now: int)
      requires Valid()
      modifies this
      ensures Valid()
      ensures Map() == Without(old(Map()), prefix, now)
      ensures forall k :: k in Map() <==> k in old(Map()) && !(prefix <= k && IsLive(old(Map())[k], now))
      ensures forall k :: k in Map() ==> Map()[k] == old(Map())[k]
    {
      var keysToDelete := Scan(prefix, now);
      ghost var before := items;
      items := DeleteKeys(items, keysToDelete);
      RemoveIsWithout(before, prefix, now);
    }
  }

  method DeleteKeys<V>(items: seq<Item<V>>, keysToDelete: seq<Item<V>>) returns (left: seq<Item<V>>)
    requires Sorted(items)
    ensures Sorted(left) && Contents(left) == Contents(items) - KeysOf(keysToDelete)
  {
    left := items;
    for i := 0 to |keysToDelete|
      invariant Sorted(left)
      invariant Contents(left) == Contents(items) - KeysOf(keysToDelete[..i])
    {
      DeleteOneMore(items, left, keysToDelete, i);
      left := Delete(left, keysToDelete[i].key);
    }
    assert keysToDelete[..|keysToDelete|] == keysToDelete;
  }

  lemma DeleteOneMore<V>(items: seq<Item<V>>, left: seq<Item<V>>, gone: seq<Item<V>>, i: nat)
    requires i < |gone| && Sorted(left) && Contents(left) == Contents(items) - KeysOf(gone[..i])
    ensures Sorted(Delete(left, gone[i].key))
    ensures Contents(Delete(left, gone[i].key)) == Contents(items) - KeysOf(gone[..i + 1])
  {
    DeleteSorted(left, gone[i].key);
    DeleteContents(left, gone[i].key);
    KeysOfOneMore(gone, i);
    MinusOneMore(Contents(items), KeysOf(gone[..i]), gone[i].key);
  }

  lemma RemoveIsWithout<V>(items: seq<Item<V>>, prefix: Bytes, now: int)
    requires Sorted(items)
    ensures Contents(items) - KeysOf(WithPrefix(LiveItems(items, now), prefix)) == Without(Contents(items), prefix, now)
  {
    ScanKeys(items, prefix, now);
  }

  lemma KeysOfOneMore<V>(items: seq<Item<V>>, i: nat)
    requires i < |items|
    ensures KeysOf(items[..i + 1]) == KeysOf(items[..i]) + {items[i].key}
  {
    assert items[..i + 1] == items[..i] + [items[i]];
    assert forall j :: 0 <= j < i ==> items[..i + 1][j] == items[..i][j];
    assert items[..i + 1][i] == items[i];
  }

  /** The map without its live keys that have the prefix. */
  function Without<V>(m: map<Bytes, Entry<V>>, prefix: Bytes, now: int): map<Bytes, Entry<V>>
  {
    map k | k in m && !(IsLive(m[k], now) && prefix <= k) :: m[k]
  }

  function KeysOf<V>(items: seq<Item<V>>): set<Bytes>
  {
    set i | 0 <= i < |items| :: items[i].key
  }

  // Over ordered keys, seeking and then stopping at the first key without the prefix visits exactly
  // the keys that have it.
  lemma ScanExact<V>(view: seq<Item<V>>, prefix: Bytes, start: nat, end: nat)
    requires Sorted(view) && start <= end <= |view|
    requires forall j :: 0 <= j < start ==> Less(view[j].key, prefix)
    requires start < |view| ==> !Less(view[start].key, prefix)
    requires forall j :: start <= j < end ==> prefix <= view[j].key
    requires end < |view| ==> !(prefix <= view[end].key)
    ensures WithPrefix(view, prefix) == view[start..end]
  {
    SkippedHaveNone(view, prefix, start);
    RestHasNone(view, prefix, start, end);
    VisitedHaveIt(view, prefix, start, end);
    WithPrefixSplit(view, end, prefix);
    WithPrefixSplit(view[..end], start, prefix);
    assert view[..end][..start] == view[..start];
    assert view[..end][start..] == view[start..end];
  }

  lemma VisitedHaveIt<V>(view: seq<Item<V>>, prefix: Bytes, start: nat, end: nat)
    requires start <= end <= |view|
    requires forall j :: start <= j < end ==> prefix <= view[j].key
    ensures WithPrefix(view[start..end], prefix) == view[start..end]
  {
    WithPrefixAll(view[start..end], prefix);
  }

  lemma SkippedHaveNone<V>(view: seq<Item<V>>, prefix: Bytes, start: nat)
    requires start <= |view|
    requires forall j :: 0 <= j < start ==> Less(view[j].key, prefix)
    ensures WithPrefix(view[..start], prefix) == []
  {
    forall j | 0 <= j < start ensures !(prefix <= view[..start][j].key) {
      if prefix <= view[j].key {
        PrefixNotAfter(prefix, view[j].key);
      }
    }
    WithPrefixNone(view[..start], prefix);
  }

  lemma RestHasNone<V>(view: seq<Item<V>>, prefix: Bytes, start: nat, end: nat)
    requires Sorted(view) && start <= end <= |view|
    requires start < |view| ==> !Less(view[start].key, prefix)
    requires end < |view| ==> !(prefix <= view[end].key)
    ensures WithPrefix(view[end..], prefix) == []
  {
    forall j | 0 <= j < |view| - end ensures !(prefix <= view[end..][j].key) {
      if j > 0 && prefix <= view[end + j].key {
        NotBefore(view, prefix, start, end);
        PrefixContiguous(prefix, view[end].key, view[end + j].key);
      }
    }
    WithPrefixNone(view[end..], prefix);
  }

  // Nothing from the seek position on is before the prefix.
  lemma NotBefore<V>(view: seq<Item<V>>, prefix: Bytes, start: nat, i: nat)
    requires Sorted(view) && start <= i < |view|
    requires !Less(view[start].key, prefix)
    ensures !Less(view[i].key, prefix)
  {
    if start < i && Less(view[i].key, prefix) {
      LessTransitive(view[start].key, view[i].key, prefix);
    }
  }

  lemma ScanKeys<V>(items: seq<Item<V>>, prefix: Bytes, now: int)
    requires Sorted(items)
    ensures var m := Contents(items);
            KeysOf(WithPrefix(LiveItems(items, now), prefix)) == set k | k in m && IsLive(m[k], now) && prefix <= k
  {
    var m, found := Contents(items), WithPrefix(LiveItems(items, now), prefix);
    forall k | k in KeysOf(found) ensures k in m && IsLive(m[k], now) && prefix <= k {
      var i :| 0 <= i < |found| && found[i].key == k;
      ScanItem(items, prefix, now, i);
    }
    forall k | k in m && IsLive(m[k], now) && prefix <= k ensures k in KeysOf(found) {
      ScanFinds(items, prefix, now, k);
    }
  }

  lemma ScanFinds<V>(items: seq<Item<V>>, prefix: Bytes, now: int, k: Bytes)
    requires Sorted(items) && k in Contents(items) && IsLive(Contents(items)[k], now) && prefix <= k
    ensures k in KeysOf(WithPrefix(LiveItems(items, now), prefix))
  {
    LiveItemsOf(items, now);
    WithPrefixOf(LiveItems(items, now), prefix);
    var i := ContentsIndex(items, k);
    assert items[i] in items && items[i] in LiveItems(items, now);
    var found := WithPrefix(LiveItems(items, now), prefix);
    assert items[i] in found;
    var j :| 0 <= j < |found| && found[j] == items[i];
  }

  lemma {:induction false} PrefixIndex<V>(items: seq<Item<V>>, prefix: Bytes, i: nat) returns (j: nat)
    requires i < |WithPrefix(items, prefix)|
    ensures j < |items| && items[j] == WithPrefix(items, prefix)[i] && prefix <= items[j].key
  {
    j := |items| - 1;
    if i < |WithPrefix(items[..j], prefix)| {
      j := PrefixIndex(items[..j], prefix, i);
    }
  }

  lemma {:induction false} LiveIndex<V>(items: seq<Item<V>>, now: int, i: nat) returns (j: nat)
    requires i < |LiveItems(items, now)|
    ensures j < |items| && items[j] == LiveItems(items, now)[i] && IsLive(items[j].entry, now)
  {
    j := |items| - 1;
    if i < |LiveItems(items[..j], now)| {
      j := LiveIndex(items[..j], now, i);
    }
  }

  // The scanned items are live entries of the map, each under a key of its own.
  lemma ScanItem<V>(items: seq<Item<V>>, prefix: Bytes, now: int, i: nat)
    requires Sorted(items) && i < |WithPrefix(LiveItems(items, now), prefix)|
    ensures var x, m := WithPrefix(LiveItems(items, now), prefix)[i], Contents(items);
            x.key in m && m[x.key] == x.entry && IsLive(x.entry, now) && prefix <= x.key
  {
    var j := PrefixIndex(LiveItems(items, now), prefix, i);
    var k := LiveIndex(items, now, j);
    ContentsAt(items, k);
  }

  lemma ScanDistinct<V>(items: seq<Item<V>>, prefix: Bytes, now: int, i: nat, j: nat)
    requires Sorted(items) && i < j < |WithPrefix(LiveItems(items, now), prefix)|
    ensures var found := WithPrefix(LiveItems(items, now), prefix); found[i].key != found[j].key
  {
    var found := WithPrefix(LiveItems(items, now), prefix);
    LiveItemsOf(items, now);
    WithPrefixSorted(LiveItems(items, now), prefix);
    LessTotal(found[i].key, found[j].key);
  }

  lemma ScanIsSet<V>(items: seq<Item<V>>, prefix: Bytes, now: int)
    requires Sorted(items)
    ensures var m := Contents(items);
            |WithPrefix(LiveItems(items, now), prefix)| == |set k | k in m && IsLive(m[k], now) && prefix <= k|
  {
    LiveItemsOf(items, now);
    WithPrefixSorted(LiveItems(items, now), prefix);
    DistinctKeys(WithPrefix(LiveItems(items, now), prefix));
    ScanKeys(items, prefix, now);
  }

  lemma {:induction false} WithPrefixSorted<V>(items: seq<Item<V>>, prefix: Bytes)
    requires Sorted(items)
    ensures Sorted(WithPrefix(items, prefix))
    ensures forall k :: AllBefore(items, k) ==> AllBefore(WithPrefix(items, prefix), k)
  {
    if items != [] {
      var n := |items| - 1;
      SortedInit(items);
      WithPrefixSorted(items[..n], prefix);
      assert forall k :: AllBefore(items, k) ==> AllBefore(items[..n], k);
      if prefix <= items[n].key {
        SortedAppend(WithPrefix(items[..n], prefix), items[n]);
      }
    }
  }

  lemma {:induction false} DistinctKeys<V>(items: seq<Item<V>>)
    requires Sorted(items)
    ensures |KeysOf(items)| == |items|
  {
    if items != [] {
      var n := |items| - 1;
      DistinctKeys(items[..n]);
      forall i | 0 <= i < n ensures items[i].key != items[n].key {
        LessTotal(items[i].key, items[n].key);
      }
      assert KeysOf(items) == KeysOf(items[..n]) + {items[n].key};
    }
  }
}
