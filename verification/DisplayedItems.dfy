/** Which of the loaded items are displayed, and in which order. */
module DisplayedItems {
  import opened Sequences
  import opened ListOrder

  /** The first item with this key. */
  ghost predicate FirstAt<T>(items: seq<HostedItem<T>>, key: Key, i: nat) {
    i < |items| && ItemOrderKey(items[i]) == key && forall j | 0 <= j < i :: ItemOrderKey(items[j]) != key
  }

  /** No item after this one has its key. */
  ghost predicate LastAt<T>(items: seq<HostedItem<T>>, i: nat) {
    i < |items| && forall j | i < j < |items| :: ItemOrderKey(items[j]) != ItemOrderKey(items[i])
  }

  ghost predicate Earlier(order: seq<Key>, k: Key, l: Key) {
    forall a, b | 0 <= a < |order| && 0 <= b < |order| && order[a] == k && order[b] == l :: a < b
  }

  /** Two saved keys stand as they are saved, a saved one before any other, and two others as they first came. */
  ghost predicate Precedes<T>(items: seq<HostedItem<T>>, order: seq<Key>, k: Key, l: Key) {
    if k in order && l in order then Earlier(order, k, l)
    else if k !in order && l !in order then
      forall a, b | FirstAt(items, k, a) && FirstAt(items, l, b) :: a < b
    else k in order
  }

  lemma {:induction false} FilterPlaces(s: seq<Key>, keep: Key -> bool, i: nat, j: nat) returns (a: nat, b: nat)
    requires i < j < |Filter(s, keep)|
    ensures a < b < |s| && s[a] == Filter(s, keep)[i] && s[b] == Filter(s, keep)[j]
  {
    var rest := s[1..];
    if !keep(s[0]) {
      a, b := FilterPlaces(rest, keep, i, j);
      a, b := a + 1, b + 1;
    } else if i > 0 {
      a, b := FilterPlaces(rest, keep, i - 1, j - 1);
      a, b := a + 1, b + 1;
    } else {
      assert Filter(rest, keep)[j - 1] in rest;
      b :| b < |rest| && rest[b] == Filter(rest, keep)[j - 1];
      a, b := 0, b + 1;
    }
  }

  lemma KeyIsLoaded<T>(items: seq<HostedItem<T>>, a: nat)
    requires a < |items|
    ensures ItemOrderKey(items[a]) in LoadedKeys(items)
  {
    assert items[a] in items;
  }

  lemma FirstInFront<T>(items: seq<HostedItem<T>>, key: Key, a: nat)
    requires items != [] && FirstAt(items, key, a)
    ensures var front := items[..|items| - 1];
      if key in LoadedKeys(front) then FirstAt(front, key, a) else a == |front|
  {
    var front := items[..|items| - 1];
    if a < |front| {
      KeyIsLoaded(front, a);
    }
    if key in LoadedKeys(front) {
      var item :| item in front && ItemOrderKey(item) == key;
      var i :| 0 <= i < |front| && front[i] == item;
      assert items[i] == item;
    }
  }

  /** Keys are listed as they first appear. */
  lemma {:induction false} LoadedKeepOrder<T>(items: seq<HostedItem<T>>, i: nat, j: nat, a: nat, b: nat)
    requires i < j < |LoadedKeys(items)|
    requires FirstAt(items, LoadedKeys(items)[i], a) && FirstAt(items, LoadedKeys(items)[j], b)
    ensures a < b
    decreases |items|
  {
    var front := items[..|items| - 1];
    FirstInFront(items, LoadedKeys(items)[i], a);
    FirstInFront(items, LoadedKeys(items)[j], b);
    if j < |LoadedKeys(front)| {
      LoadedKeepOrder(front, i, j, a, b);
    }
  }

  lemma {:induction false} LatestIsLast<T>(items: seq<HostedItem<T>>, key: Key) returns (i: nat)
    requires key in LoadedKeys(items)
    ensures LastAt(items, i) && items[i] == Latest(items, key)
  {
    var n := |items| - 1;
    if ItemOrderKey(items[n]) == key {
      i := n;
    } else {
      i := LatestIsLast(items[..n], key);
    }
  }

  lemma LastIsLatest<T>(items: seq<HostedItem<T>>, i: nat)
    requires LastAt(items, i)
    ensures items[i] in items && items[i] == Latest(items, ItemOrderKey(items[i]))
  {
    var j := LatestIsLast(items, ItemOrderKey(items[i]));
    assert ItemOrderKey(items[j]) == ItemOrderKey(items[i]);
  }

  lemma SavedPrecede<T>(items: seq<HostedItem<T>>, order: seq<Key>, x: nat, y: nat)
    requires Distinct(order) && x < y < |Filter(order, Within(LoadedKeys(items)))|
    ensures var saved := Filter(order, Within(LoadedKeys(items))); Precedes(items, order, saved[x], saved[y])
  {
    var a, b := FilterPlaces(order, Within(LoadedKeys(items)), x, y);
  }

  lemma OthersPrecede<T>(items: seq<HostedItem<T>>, order: seq<Key>, x: nat, y: nat)
    requires x < y < |Filter(LoadedKeys(items), Outside(order))|
    ensures var others := Filter(LoadedKeys(items), Outside(order)); Precedes(items, order, others[x], others[y])
  {
    var loaded := LoadedKeys(items);
    var others := Filter(loaded, Outside(order));
    var i, j := FilterPlaces(loaded, Outside(order), x, y);
    assert others[x] in others && others[y] in others;
    forall a, b | FirstAt(items, others[x], a) && FirstAt(items, others[y], b) ensures a < b {
      LoadedKeepOrder(items, i, j, a, b);
    }
  }

  lemma SumIsOrdered<T>(a: seq<T>, b: seq<T>, before: (T, T) -> bool)
    requires forall x, y | 0 <= x < y < |a| :: before(a[x], a[y])
    requires forall x, y | 0 <= x < y < |b| :: before(b[x], b[y])
    requires forall x, y | 0 <= x < |a| && 0 <= y < |b| :: before(a[x], b[y])
    ensures forall x, y | 0 <= x < y < |a + b| :: before((a + b)[x], (a + b)[y])
  {
  }

  lemma VisiblePrecede<T>(items: seq<HostedItem<T>>, order: seq<Key>, before: (Key, Key) -> bool)
    requires Distinct(order)
    requires forall k, l :: before(k, l) == Precedes(items, order, k, l)
    ensures var keys := VisibleKeys(items, order); forall i, j | 0 <= i < j < |keys| :: before(keys[i], keys[j])
  {
    var saved := Filter(order, Within(LoadedKeys(items)));
    var others := Filter(LoadedKeys(items), Outside(order));
    OrderKeysIs(LoadedKeys(items), order);
    forall x, y | 0 <= x < y < |saved| ensures before(saved[x], saved[y]) {
      SavedPrecede(items, order, x, y);
    }
    forall x, y | 0 <= x < y < |others| ensures before(others[x], others[y]) {
      OthersPrecede(items, order, x, y);
    }
    forall x, y | 0 <= x < |saved| && 0 <= y < |others| ensures before(saved[x], others[y]) {
      FilterHas(order, Within(LoadedKeys(items)), x);
      FilterHas(LoadedKeys(items), Outside(order), y);
      SavedBeforeOthers(items, order, saved[x], others[y]);
    }
    SumIsOrdered(saved, others, before);
  }

  lemma FilterHas(s: seq<Key>, keep: Key -> bool, i: nat)
    requires i < |Filter(s, keep)|
    ensures Filter(s, keep)[i] in s && keep(Filter(s, keep)[i])
  {
    assert Filter(s, keep)[i] in Filter(s, keep);
  }

  lemma SavedBeforeOthers<T>(items: seq<HostedItem<T>>, order: seq<Key>, k: Key, l: Key)
    requires k in order && l !in order
    ensures Precedes(items, order, k, l)
  {
  }

  /**
   * Of the loaded items the last one with each key is displayed and no other, and they are ordered by the saved order
   * and then by where their keys first came.
   */
  lemma DisplayedAre<T>(items: seq<HostedItem<T>>, order: seq<Key>)
    requires Distinct(order)
    ensures AllLoaded(items, VisibleKeys(items, order))
    ensures var shown := ItemsAt(items, VisibleKeys(items, order));
      && (forall x :: x in shown <==> exists i: nat :: LastAt(items, i) && items[i] == x)
      && forall i: nat, j: nat | i < j < |shown| ::
           Precedes(items, order, ItemOrderKey(shown[i]), ItemOrderKey(shown[j]))
  {
    var keys := VisibleKeys(items, order);
    OrderKeysKeeps(LoadedKeys(items), order);
    var shown := ItemsAt(items, keys);
    var before := (k: Key, l: Key) => Precedes(items, order, k, l);
    forall x ensures x in shown <==> exists i: nat :: LastAt(items, i) && items[i] == x {
      if x in shown {
        var k :| 0 <= k < |shown| && shown[k] == x;
        var i := LatestIsLast(items, keys[k]);
      }
      if i: nat :| LastAt(items, i) && items[i] == x {
        LastIsLatest(items, i);
        var k :| 0 <= k < |keys| && keys[k] == ItemOrderKey(x);
        assert shown[k] == x;
      }
    }
    VisiblePrecede(items, order, before);
    forall i: nat, j: nat | i < j < |shown|
      ensures Precedes(items, order, ItemOrderKey(shown[i]), ItemOrderKey(shown[j]))
    {
      assert before(keys[i], keys[j]);
    }
  }
}
