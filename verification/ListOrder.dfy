/**
 * Saved ordering of lists: a persisted order of keys, which also holds keys of items that are not loaded,
 * is applied to the loaded items and edited by moving one item next to another.
 */
module ListOrder {
  import opened Options
  import opened Sequences

  /** A stored key: the serialized pair of an item, or any other text found in the preferences. */
  datatype Key = ItemKey(hostId: string, id: string) | OtherText(text: string)

  datatype HostedItem<T> = HostedItem(hostId: string, id: string, content: T)

  function ItemOrderKey<T>(item: HostedItem<T>): Key {
    ItemKey(item.hostId, item.id)
  }

  // ---------------------------------------------------------------- sequences of keys

  function Filter<T>(s: seq<T>, keep: T -> bool): (r: seq<T>)
    ensures forall x | x in r :: x in s && keep(x)
    ensures forall x | x in s && keep(x) :: x in r
    ensures |r| <= |s|
  {
    if s == [] then [] else (if keep(s[0]) then [s[0]] else []) + Filter(s[1..], keep)
  }

  function Not<T(==)>(x: T): T -> bool {
    y => y != x
  }

  function Drop<T(==)>(s: seq<T>, x: T): seq<T> {
    Filter(s, Not(x))
  }

  lemma {:induction false} FilterDistinct<T>(s: seq<T>, keep: T -> bool)
    requires Distinct(s)
    ensures Distinct(Filter(s, keep))
  {
    if s != [] {
      FilterDistinct(s[1..], keep);
    }
  }

  lemma {:induction false} FilterAll<T>(s: seq<T>, keep: T -> bool)
    requires forall x | x in s :: keep(x)
    ensures Filter(s, keep) == s
  {
    if s != [] {
      FilterAll(s[1..], keep);
      assert s == [s[0]] + s[1..];
    }
  }

  lemma {:induction false} FilterNone<T>(s: seq<T>, keep: T -> bool)
    requires forall x | x in s :: !keep(x)
    ensures Filter(s, keep) == []
  {
    if s != [] {
      FilterNone(s[1..], keep);
    }
  }

  lemma {:induction false} FilterCong<T>(s: seq<T>, f: T -> bool, g: T -> bool)
    requires forall x | x in s :: f(x) == g(x)
    ensures Filter(s, f) == Filter(s, g)
  {
    if s != [] {
      FilterCong(s[1..], f, g);
    }
  }

  // ---------------------------------------------------------------- moving one key

  function Insert<T>(s: seq<T>, i: nat, x: T): seq<T>
    requires i <= |s|
  {
    s[..i] + [x] + s[i..]
  }

  /** The insertion rule: `source` goes directly before or after `target`; stale keys change nothing. */
  function MoveItemKeys<T(==)>(keys: seq<T>, source: T, target: T, after: bool): seq<T> {
    if source == target || source !in keys || target !in keys then keys
    else
      var others := Drop(keys, source);
      var next := Insert(others, IndexOf(others, target) + (if after then 1 else 0), source);
      if next <= keys then keys else next
  }

  /** The order the message queue submits for a drag, written separately; None when it submits nothing. */
  function Reorder<T(==)>(expected: seq<T>, id: T, target: T, after: bool): Option<seq<T>> {
    if id !in expected || target !in expected then None
    else
      var others := Drop(expected, id);
      if target !in others || id == target then None
      else
        var order := Insert(others, IndexOf(others, target) + (if after then 1 else 0), id);
        if order <= expected then None else Some(order)
  }

  /** The queue submits exactly when the shared rule moves something, and submits exactly its result. */
  lemma ReorderAgrees<T>(keys: seq<T>, source: T, target: T, after: bool)
    ensures var moved := MoveItemKeys(keys, source, target, after);
      Reorder(keys, source, target, after) == if moved == keys then None else Some(moved)
  {
  }

  /** `source` stands directly before `target`, or directly after it. */
  ghost predicate Beside<T>(keys: seq<T>, source: T, target: T, after: bool) {
    exists i :: 0 <= i < |keys| - 1
                && (if after then keys[i] == target && keys[i + 1] == source
                    else keys[i] == source && keys[i + 1] == target)
  }

  predicate Moves<T(==)>(keys: seq<T>, source: T, target: T) {
    source != target && source in keys && target in keys
  }

  lemma {:induction false} DropLength<T>(s: seq<T>, x: T)
    requires Distinct(s) && x in s
    ensures |Drop(s, x)| == |s| - 1
  {
    if s[0] == x {
      FilterAll(s[1..], Not(x));
    } else {
      DropLength(s[1..], x);
    }
  }

  lemma {:induction false} DropInsert<T>(s: seq<T>, i: nat, x: T)
    requires x !in s && i <= |s|
    ensures Drop(Insert(s, i, x), x) == s
  {
    if i == 0 {
      assert Insert(s, 0, x) == [x] + s;
      FilterAll(s, Not(x));
    } else {
      assert Insert(s, i, x) == [s[0]] + Insert(s[1..], i - 1, x);
      DropInsert(s[1..], i - 1, x);
    }
  }

  lemma DistinctInsert<T>(s: seq<T>, i: nat, x: T)
    requires Distinct(s) && x !in s && i <= |s|
    ensures Distinct(Insert(s, i, x))
  {
  }

  /** The list a move aims at: it is the result even when nothing changes. */
  lemma MoveResult<T>(keys: seq<T>, source: T, target: T, after: bool) returns (others: seq<T>, at: nat)
    requires Distinct(keys) && Moves(keys, source, target)
    ensures others == Drop(keys, source) && source !in others && target in others && Distinct(others)
    ensures at == IndexOf(others, target) + (if after then 1 else 0)
    ensures MoveItemKeys(keys, source, target, after) == Insert(others, at, source)
  {
    others := Drop(keys, source);
    at := IndexOf(others, target) + (if after then 1 else 0);
    DropLength(keys, source);
    FilterDistinct(keys, Not(source));
    var next := Insert(others, at, source);
    assert |next| == |keys|;
    assert next <= keys ==> next == keys;
  }

  lemma InsertHas<T>(s: seq<T>, i: nat, x: T, k: T)
    requires i <= |s|
    ensures k in Insert(s, i, x) <==> k in s || k == x
  {
    assert s == s[..i] + s[i..];
  }

  lemma {:induction false} DropHas<T>(s: seq<T>, x: T, k: T)
    ensures k in Drop(s, x) <==> k in s && k != x
  {
    if s != [] {
      DropHas(s[1..], x, k);
      assert s == [s[0]] + s[1..];
    }
  }

  lemma MovedHas<T>(keys: seq<T>, source: T, at: nat, k: T)
    requires source in keys && at <= |Drop(keys, source)|
    ensures k in Insert(Drop(keys, source), at, source) <==> k in keys
  {
    InsertHas(Drop(keys, source), at, source, k);
    DropHas(keys, source, k);
  }

  lemma InsertBeside<T>(others: seq<T>, source: T, target: T, after: bool)
    requires target in others
    ensures Beside(Insert(others, IndexOf(others, target) + (if after then 1 else 0), source), source, target, after)
  {
    var t := IndexOf(others, target);
    var moved := Insert(others, t + (if after then 1 else 0), source);
    assert if after then moved[t] == target && moved[t + 1] == source else moved[t] == source && moved[t + 1] == target;
  }

  /** A move keeps the other keys in order, loses none, and puts the source right beside the target. */
  lemma MovePlaces<T>(keys: seq<T>, source: T, target: T, after: bool)
    requires Distinct(keys) && Moves(keys, source, target)
    ensures var moved := MoveItemKeys(keys, source, target, after);
      && Distinct(moved)
      && Drop(moved, source) == Drop(keys, source)
      && (forall k :: k in moved <==> k in keys)
      && Beside(moved, source, target, after)
  {
    var others, at := MoveResult(keys, source, target, after);
    DropInsert(others, at, source);
    DistinctInsert(others, at, source);
    InsertBeside(others, source, target, after);
    forall k ensures k in Insert(others, at, source) <==> k in keys {
      MovedHas(keys, source, at, k);
    }
  }

  lemma IndexOfDistinct<T>(s: seq<T>, i: nat)
    requires Distinct(s) && i < |s|
    ensures IndexOf(s, s[i]) == i
  {
  }

  lemma SplitAround<T>(keys: seq<T>, i: nat)
    requires Distinct(keys) && i < |keys|
    ensures keys[i] !in keys[..i] + keys[i + 1..]
    ensures Insert(keys[..i] + keys[i + 1..], i, keys[i]) == keys
    ensures Drop(keys, keys[i]) == keys[..i] + keys[i + 1..]
  {
    var rest := keys[..i] + keys[i + 1..];
    assert Insert(rest, i, keys[i]) == keys;
    DropInsert(rest, i, keys[i]);
  }

  lemma BesideAtIsInsert<T>(keys: seq<T>, i: nat, source: T, target: T, after: bool)
    requires Distinct(keys) && i < |keys| - 1
    requires if after then keys[i] == target && keys[i + 1] == source else keys[i] == source && keys[i + 1] == target
    ensures var others := Drop(keys, source);
      target in others && keys == Insert(others, IndexOf(others, target) + (if after then 1 else 0), source)
  {
    var s := if after then i + 1 else i;
    var others := keys[..s] + keys[s + 1..];
    SplitAround(keys, s);
    FilterDistinct(keys, Not(source));
    assert others[i] == target;
    IndexOfDistinct(others, i);
  }

  /** Taking the source out of a list and putting it back beside the target gives the list. */
  lemma BesideIsInsert<T>(keys: seq<T>, source: T, target: T, after: bool)
    requires Distinct(keys) && Beside(keys, source, target, after)
    ensures var others := Drop(keys, source);
      target in others && keys == Insert(others, IndexOf(others, target) + (if after then 1 else 0), source)
  {
    var i :| 0 <= i < |keys| - 1
             && (if after then keys[i] == target && keys[i + 1] == source
                 else keys[i] == source && keys[i + 1] == target);
    BesideAtIsInsert(keys, i, source, target, after);
  }

  /** The result is the only such list: same other keys in the same order, source beside target. */
  lemma MoveIsUnique<T>(keys: seq<T>, source: T, target: T, after: bool, other: seq<T>)
    requires Distinct(keys) && Moves(keys, source, target)
    requires Distinct(other) && Drop(other, source) == Drop(keys, source) && Beside(other, source, target, after)
    ensures other == MoveItemKeys(keys, source, target, after)
  {
    var others, at := MoveResult(keys, source, target, after);
    BesideIsInsert(other, source, target, after);
  }

  /** Moving again changes nothing. */
  lemma MoveIsIdempotent<T>(keys: seq<T>, source: T, target: T, after: bool)
    requires Distinct(keys)
    ensures var moved := MoveItemKeys(keys, source, target, after);
      MoveItemKeys(moved, source, target, after) == moved
  {
    if Moves(keys, source, target) {
      var moved := MoveItemKeys(keys, source, target, after);
      MovePlaces(keys, source, target, after);
      MoveIsUnique(moved, source, target, after, moved);
    }
  }

  // ---------------------------------------------------------------- applying an order

  /** The keys of the items, each once, where they first appear. */
  function LoadedKeys<T>(items: seq<HostedItem<T>>): (keys: seq<Key>)
    ensures forall item | item in items :: ItemOrderKey(item) in keys
    ensures forall k | k in keys :: exists item :: item in items && ItemOrderKey(item) == k
    ensures Distinct(keys)
  {
    if items == [] then []
    else
      var n := |items| - 1;
      assert items == items[..n] + [items[n]];
      var before := LoadedKeys(items[..n]);
      if ItemOrderKey(items[n]) in before then before else before + [ItemOrderKey(items[n])]
  }

  /** The last item with this key. */
  function Latest<T>(items: seq<HostedItem<T>>, key: Key): (item: HostedItem<T>)
    requires key in LoadedKeys(items)
    ensures item in items && ItemOrderKey(item) == key
  {
    var n := |items| - 1;
    if ItemOrderKey(items[n]) == key then items[n] else Latest(items[..n], key)
  }

  function Within<T(==)>(s: seq<T>): T -> bool {
    x => x in s
  }

  function Outside<T(==)>(s: seq<T>): T -> bool {
    x => x !in s
  }

  /** Saved keys that are still there come first, each once; the other keys follow as they are. */
  function OrderKeys(keys: seq<Key>, order: seq<Key>): seq<Key>
    decreases |order|
  {
    if order == [] then keys
    else if order[0] in keys then [order[0]] + OrderKeys(Drop(keys, order[0]), order[1..])
    else OrderKeys(keys, order[1..])
  }

  ghost predicate AllLoaded<T>(items: seq<HostedItem<T>>, keys: seq<Key>) {
    forall k | k in keys :: k in LoadedKeys(items)
  }

  function ItemsAt<T>(items: seq<HostedItem<T>>, keys: seq<Key>): (r: seq<HostedItem<T>>)
    requires AllLoaded(items, keys)
    ensures |r| == |keys| && forall i | 0 <= i < |keys| :: r[i] == Latest(items, keys[i])
  {
    seq(|keys|, i requires 0 <= i < |keys| => Latest(items, keys[i]))
  }

  /** The displayed order as a list of keys. */
  function VisibleKeys<T>(items: seq<HostedItem<T>>, order: seq<Key>): seq<Key> {
    OrderKeys(LoadedKeys(items), order)
  }

  // ---------------------------------------------------------------- the displayed keys

  lemma FilterCons<T>(x: T, rest: seq<T>, keep: T -> bool)
    ensures Filter([x] + rest, keep) == (if keep(x) then [x] else []) + Filter(rest, keep)
  {
    assert ([x] + rest)[1..] == rest;
  }

  lemma {:induction false} FilterFilter<T>(s: seq<T>, f: T -> bool, g: T -> bool, both: T -> bool)
    requires forall x | x in s :: both(x) == (f(x) && g(x))
    ensures Filter(Filter(s, f), g) == Filter(s, both)
  {
    if s != [] {
      var rest := s[1..];
      FilterFilter(rest, f, g, both);
      if f(s[0]) {
        FilterCons(s[0], Filter(rest, f), g);
      }
      assert !f(s[0]) ==> Filter(s, f) == Filter(rest, f);
    }
  }

  lemma SavedPart(keys: seq<Key>, head: Key, tail: seq<Key>)
    requires head !in tail
    ensures Filter([head] + tail, Within(keys))
            == if head in keys then [head] + Filter(tail, Within(Drop(keys, head))) else Filter(tail, Within(keys))
  {
    FilterCons(head, tail, Within(keys));
    if head in keys {
      FilterCong(tail, Within(Drop(keys, head)), Within(keys));
    }
  }

  lemma OtherPart(keys: seq<Key>, head: Key, tail: seq<Key>)
    ensures Filter(keys, Outside([head] + tail))
            == Filter(if head in keys then Drop(keys, head) else keys, Outside(tail))
  {
    if head in keys {
      FilterFilter(keys, Not(head), Outside(tail), Outside([head] + tail));
    } else {
      FilterCong(keys, Outside(tail), Outside([head] + tail));
    }
  }

  lemma OrderKeysCons(keys: seq<Key>, head: Key, tail: seq<Key>)
    ensures OrderKeys(keys, [head] + tail)
            == if head in keys then [head] + OrderKeys(Drop(keys, head), tail) else OrderKeys(keys, tail)
  {
    assert ([head] + tail)[1..] == tail;
  }

  /** Saved keys first, then the keys the order does not hold. */
  ghost predicate SavedFirst(keys: seq<Key>, order: seq<Key>) {
    OrderKeys(keys, order) == Filter(order, Within(keys)) + Filter(keys, Outside(order))
  }

  lemma SavedFirstTaken(keys: seq<Key>, head: Key, tail: seq<Key>)
    requires head !in tail && head in keys && SavedFirst(Drop(keys, head), tail)
    ensures SavedFirst(keys, [head] + tail)
  {
    OrderKeysCons(keys, head, tail);
    SavedPart(keys, head, tail);
    OtherPart(keys, head, tail);
    Associates([head], Filter(tail, Within(Drop(keys, head))), Filter(Drop(keys, head), Outside(tail)));
  }

  lemma SavedFirstSkipped(keys: seq<Key>, head: Key, tail: seq<Key>)
    requires head !in tail && head !in keys && SavedFirst(keys, tail)
    ensures SavedFirst(keys, [head] + tail)
  {
    OrderKeysCons(keys, head, tail);
    SavedPart(keys, head, tail);
    OtherPart(keys, head, tail);
  }

  /** For an order without repeats: its loaded keys in its order, then the loaded keys it does not hold. */
  lemma {:induction false} OrderKeysIs(keys: seq<Key>, order: seq<Key>)
    requires Distinct(order)
    ensures SavedFirst(keys, order)
    decreases |order|
  {
    if order == [] {
      FilterAll(keys, Outside(order));
    } else {
      var head, tail := order[0], order[1..];
      assert order == [head] + tail;
      if head in keys {
        OrderKeysIs(Drop(keys, head), tail);
        SavedFirstTaken(keys, head, tail);
      } else {
        OrderKeysIs(keys, tail);
        SavedFirstSkipped(keys, head, tail);
      }
    }
  }

  lemma {:induction false} OrderKeysKeeps(keys: seq<Key>, order: seq<Key>)
    requires Distinct(keys)
    ensures Distinct(OrderKeys(keys, order))
    ensures forall k | k in keys :: k in OrderKeys(keys, order)
    ensures forall k | k in OrderKeys(keys, order) :: k in keys
    decreases |order|
  {
    if order != [] {
      if order[0] in keys {
        FilterDistinct(keys, Not(order[0]));
        OrderKeysKeeps(Drop(keys, order[0]), order[1..]);
      } else {
        OrderKeysKeeps(keys, order[1..]);
      }
    }
  }

  // ---------------------------------------------------------------- editing the saved order

  /** Visible slots of the saved order take the new keys in turn; what is left over is appended. */
  function Fill(previous: seq<Key>, visible: seq<Key>, next: seq<Key>): seq<Key> {
    if previous == [] then next
    else if previous[0] in visible && next != [] then [next[0]] + Fill(previous[1..], visible, next[1..])
    else [previous[0]] + Fill(previous[1..], visible, next)
  }

  function MoveItemOrder<T>(
    previous: seq<Key>, items: seq<HostedItem<T>>, source: Key, target: Key, after: bool): seq<Key>
  {
    var keys := VisibleKeys(items, previous);
    var next := MoveItemKeys(keys, source, target, after);
    if next == keys then previous else Fill(previous, keys, next)
  }

  /** There are enough new keys for every visible slot. */
  ghost predicate Enough(previous: seq<Key>, visible: seq<Key>, next: seq<Key>) {
    |Filter(previous, Within(visible))| <= |next| && forall k | k in next :: k in visible
  }

  /** Read back through the visible keys, the filled order is the new list; slots of other keys are untouched. */
  lemma {:induction false} FillReadsBack(previous: seq<Key>, visible: seq<Key>, next: seq<Key>)
    requires Enough(previous, visible, next)
    ensures Filter(Fill(previous, visible, next), Within(visible)) == next
    ensures |Fill(previous, visible, next)| >= |previous|
    ensures forall i | 0 <= i < |previous| && previous[i] !in visible :: Fill(previous, visible, next)[i] == previous[i]
    ensures forall k | k in next :: k in Fill(previous, visible, next)
    ensures forall k | k in Fill(previous, visible, next) :: k in next || (k in previous && k !in visible)
    decreases |previous|
  {
    if previous == [] {
      FilterAll(next, Within(visible));
    } else if previous[0] in visible {
      assert next == [next[0]] + next[1..];
      FillReadsBack(previous[1..], visible, next[1..]);
    } else {
      FillReadsBack(previous[1..], visible, next);
    }
  }

  lemma DistinctCons(x: Key, rest: seq<Key>)
    requires x !in rest && Distinct(rest)
    ensures Distinct([x] + rest)
  {
  }

  lemma {:induction false} FillDistinct(previous: seq<Key>, visible: seq<Key>, next: seq<Key>)
    requires Enough(previous, visible, next) && Distinct(previous) && Distinct(next)
    ensures Distinct(Fill(previous, visible, next))
    decreases |previous|
  {
    if previous != [] {
      var first, rest := previous[0], previous[1..];
      if first in visible {
        var head, tail := next[0], next[1..];
        FillReadsBack(rest, visible, tail);
        FillDistinct(rest, visible, tail);
        assert head in next && head !in tail;
        DistinctCons(head, Fill(rest, visible, tail));
      } else {
        FillReadsBack(rest, visible, next);
        FillDistinct(rest, visible, next);
        DistinctCons(first, Fill(rest, visible, next));
      }
    }
  }

  lemma SameLength(a: seq<Key>, b: seq<Key>)
    requires Distinct(a) && Distinct(b) && (forall k | k in a :: k in b)
    ensures |a| <= |b|
  {
    SetSize(a);
    SetSize(b);
    var sa, sb := set k | k in a, set k | k in b;
    assert sa <= sb;
    SubsetSize(sa, sb);
  }

  lemma {:induction false} SetSize(a: seq<Key>)
    requires Distinct(a)
    ensures |set k | k in a| == |a|
  {
    if a != [] {
      SetSize(a[1..]);
      assert (set k | k in a) == (set k | k in a[1..]) + {a[0]};
    }
  }

  lemma {:induction false} SubsetSize(a: set<Key>, b: set<Key>)
    requires a <= b
    ensures |a| <= |b|
  {
    assert b == a + (b - a);
  }

  lemma MoveKeepsLength(keys: seq<Key>, source: Key, target: Key, after: bool)
    requires Distinct(keys)
    ensures var moved := MoveItemKeys(keys, source, target, after);
      Distinct(moved) && |moved| == |keys|
      && (forall k | k in moved :: k in keys) && (forall k | k in keys :: k in moved)
  {
    if Moves(keys, source, target) {
      MovePlaces(keys, source, target, after);
      SameLength(MoveItemKeys(keys, source, target, after), keys);
      SameLength(keys, MoveItemKeys(keys, source, target, after));
    }
  }

  lemma EnoughKeys(keys: seq<Key>, previous: seq<Key>, visible: seq<Key>, next: seq<Key>)
    requires Distinct(keys) && Distinct(previous) && visible == OrderKeys(keys, previous)
    requires |next| == |visible| && forall k | k in next :: k in visible
    ensures Enough(previous, visible, next)
  {
    OrderKeysKeeps(keys, previous);
    FilterDistinct(previous, Within(visible));
    SameLength(Filter(previous, Within(visible)), visible);
  }

  /** Applying a filled order gives back exactly the new list. */
  lemma FilledOrderIsShown(keys: seq<Key>, previous: seq<Key>, visible: seq<Key>, next: seq<Key>)
    requires Distinct(keys) && Enough(previous, visible, next) && Distinct(Fill(previous, visible, next))
    requires forall k | k in keys :: k in visible && k in next
    requires forall k | k in visible :: k in keys
    ensures OrderKeys(keys, Fill(previous, visible, next)) == next
  {
    var filled := Fill(previous, visible, next);
    FillReadsBack(previous, visible, next);
    OrderKeysIs(keys, filled);
    FilterCong(filled, Within(keys), Within(visible));
    FilterNone(keys, Outside(filled));
  }

  /**
   * Storing a move and reading it back shows exactly the moved list. Keys that are not loaded keep their
   * places in the stored order, and the stored order still holds no key twice.
   */
  lemma MoveIsStored<T>(previous: seq<Key>, items: seq<HostedItem<T>>, source: Key, target: Key, after: bool)
    requires Distinct(previous)
    ensures var stored := MoveItemOrder(previous, items, source, target, after);
      && VisibleKeys(items, stored) == MoveItemKeys(VisibleKeys(items, previous), source, target, after)
      && Distinct(stored)
      && |stored| >= |previous|
      && (forall i | 0 <= i < |previous| && previous[i] !in LoadedKeys(items) :: stored[i] == previous[i])
  {
    var loaded, keys := LoadedKeys(items), VisibleKeys(items, previous);
    var next := MoveItemKeys(keys, source, target, after);
    OrderKeysKeeps(loaded, previous);
    MoveKeepsLength(keys, source, target, after);
    if next != keys {
      EnoughKeys(loaded, previous, keys, next);
      FillReadsBack(previous, keys, next);
      FillDistinct(previous, keys, next);
      FilledOrderIsShown(loaded, previous, keys, next);
    }
  }

  // ---------------------------------------------------------------- the loops

  /** Reading keeps each stored key once, where it first appears. */
  function Unique(keys: seq<Key>): (r: seq<Key>)
    ensures Distinct(r)
    ensures forall k | k in keys :: k in r
    ensures forall k | k in r :: k in keys
  {
    if keys == [] then []
    else
      var n := |keys| - 1;
      assert keys == keys[..n] + [keys[n]];
      var before := Unique(keys[..n]);
      if keys[n] in before then before else before + [keys[n]]
  }

  lemma {:induction false} IndexOfGrows(s: seq<Key>, x: Key, y: Key)
    requires x in s || x == y
    ensures IndexOf(s + [y], x) == if x in s then IndexOf(s, x) else |s|
  {
    if s != [] && s[0] != x {
      assert (s + [y])[1..] == s[1..] + [y];
      IndexOfGrows(s[1..], x, y);
    }
  }

  /** The kept keys stand in the order in which the stored list first names them. */
  lemma {:induction false} UniqueKeepsOrder(keys: seq<Key>, i: nat, j: nat)
    requires i < j < |Unique(keys)|
    ensures IndexOf(keys, Unique(keys)[i]) < IndexOf(keys, Unique(keys)[j])
    decreases |keys|
  {
    var front, last := keys[..|keys| - 1], keys[|keys| - 1];
    assert keys == front + [last];
    IndexOfGrows(front, Unique(keys)[i], last);
    IndexOfGrows(front, Unique(keys)[j], last);
    if j < |Unique(front)| {
      UniqueKeepsOrder(front, i, j);
    }
  }

  method ReadOrder(stored: seq<Key>) returns (order: seq<Key>)
    ensures order == Unique(stored)
  {
    order := [];
    for i := 0 to |stored|
      invariant order == Unique(stored[..i])
    {
      assert stored[..i + 1][..i] == stored[..i];
      if stored[i] !in order {
        order := order + [stored[i]];
      }
    }
    assert stored[..|stored|] == stored;
  }

  /** A map that remembers the order in which its keys were first added. */
  class OrderedMap<T> {
    var keys: seq<Key>
    var values: map<Key, HostedItem<T>>

    ghost predicate Valid()
      reads this
    {
      Distinct(keys) && (forall k | k in keys :: k in values)
    }

    constructor ()
      ensures Valid() && keys == [] && values == map[]
    {
      keys, values := [], map[];
    }

    method Set(item: HostedItem<T>)
      requires Valid()
      modifies this
      ensures Valid()
      ensures keys == if ItemOrderKey(item) in old(keys) then old(keys) else old(keys) + [ItemOrderKey(item)]
      ensures values == old(values)[ItemOrderKey(item) := item]
    {
      var key := ItemOrderKey(item);
      values := values[key := item];
      if key !in keys {
        keys := keys + [key];
      }
    }

    method Delete(key: Key)
      requires Valid()
      modifies this`keys
      ensures Valid() && keys == Drop(old(keys), key)
    {
      FilterDistinct(keys, Not(key));
      keys := Drop(keys, key);
    }
  }

  /** The keys and the latest items of a list. */
  ghost predicate Loads<T>(items: seq<HostedItem<T>>, keys: seq<Key>, values: map<Key, HostedItem<T>>) {
    keys == LoadedKeys(items) && forall k | k in keys :: k in values && values[k] == Latest(items, k)
  }

  lemma LoadsMore<T>(items: seq<HostedItem<T>>, item: HostedItem<T>, keys: seq<Key>, values: map<Key, HostedItem<T>>)
    requires Loads(items, keys, values)
    ensures var key := ItemOrderKey(item);
      Loads(items + [item], if key in keys then keys else keys + [key], values[key := item])
  {
    assert (items + [item])[..|items|] == items;
  }

  method LoadItems<T>(items: seq<HostedItem<T>>) returns (remaining: OrderedMap<T>)
    ensures remaining.Valid() && fresh(remaining) && remaining.keys == LoadedKeys(items)
    ensures forall k | k in remaining.keys :: remaining.values[k] == Latest(items, k)
  {
    remaining := new OrderedMap<T>();
    for i := 0 to |items|
      invariant remaining.Valid() && Loads(items[..i], remaining.keys, remaining.values)
    {
      PrefixGrows(items, i);
      LoadsMore(items[..i], items[i], remaining.keys, remaining.values);
      remaining.Set(items[i]);
    }
    assert items[..|items|] == items;
  }

  /** Takes the saved keys that are still loaded, removing each from `remaining`. */
  method TakeOrdered<T>(remaining: OrderedMap<T>, order: seq<Key>, items: seq<HostedItem<T>>)
    returns (result: seq<HostedItem<T>>, ghost taken: seq<Key>)
    requires remaining.Valid() && AllLoaded(items, remaining.keys)
    requires forall k | k in remaining.keys :: remaining.values[k] == Latest(items, k)
    modifies remaining
    ensures remaining.Valid() && remaining.values == old(remaining.values)
    ensures taken + remaining.keys == OrderKeys(old(remaining.keys), order)
    ensures AllLoaded(items, taken) && result == ItemsAt(items, taken)
    ensures forall k | k in remaining.keys :: k in old(remaining.keys)
  {
    result, taken := [], [];
    for i := 0 to |order|
      invariant remaining.Valid() && remaining.values == old(remaining.values)
      invariant forall k | k in remaining.keys :: k in old(remaining.keys)
      invariant taken + OrderKeys(remaining.keys, order[i..]) == OrderKeys(old(remaining.keys), order)
      invariant AllLoaded(items, taken) && result == ItemsAt(items, taken)
    {
      var key := order[i];
      assert order[i..][1..] == order[i + 1..];
      if key in remaining.keys {
        ItemsSnoc(items, taken, key);
        result, taken := result + [remaining.values[key]], taken + [key];
        remaining.Delete(key);
      }
    }
  }

  lemma ItemsSnoc<T>(items: seq<HostedItem<T>>, keys: seq<Key>, key: Key)
    requires AllLoaded(items, keys) && key in LoadedKeys(items)
    ensures AllLoaded(items, keys + [key])
    ensures ItemsAt(items, keys + [key]) == ItemsAt(items, keys) + [Latest(items, key)]
  {
  }

  /** The loaded items in the saved order: each once, the latest under its key. */
  method OrderItems<T>(items: seq<HostedItem<T>>, order: seq<Key>) returns (result: seq<HostedItem<T>>)
    ensures AllLoaded(items, VisibleKeys(items, order)) && result == ItemsAt(items, VisibleKeys(items, order))
  {
    var remaining := LoadItems(items);
    ghost var taken;
    result, taken := TakeOrdered(remaining, order, items);
    var rest, values := remaining.keys, remaining.values;
    for i := 0 to |rest|
      invariant AllLoaded(items, taken + rest[..i]) && result == ItemsAt(items, taken + rest[..i])
    {
      assert rest[i] in rest;
      ItemsSnoc(items, taken + rest[..i], rest[i]);
      PrefixGrows(rest, i);
      Associates(taken, rest[..i], [rest[i]]);
      result := result + [values[rest[i]]];
    }
    assert rest[..|rest|] == rest;
  }

  /** `order` is filled and `rest` is not: with the keys `left` they give `filled`. */
  ghost predicate Filling(order: seq<Key>, rest: seq<Key>, visible: seq<Key>, left: seq<Key>, filled: seq<Key>) {
    |Filter(rest, Within(visible))| <= |left| && order + Fill(rest, visible, left) == filled
  }

  lemma FillVisible(order: seq<Key>, rest: seq<Key>, visible: seq<Key>, left: seq<Key>, filled: seq<Key>)
    requires Filling(order, rest, visible, left, filled) && rest != [] && rest[0] in visible
    ensures left != [] && Filling(order + [left[0]], rest[1..], visible, left[1..], filled)
  {
    assert Filter(rest, Within(visible)) == [rest[0]] + Filter(rest[1..], Within(visible));
  }

  lemma FillOther(order: seq<Key>, rest: seq<Key>, visible: seq<Key>, left: seq<Key>, filled: seq<Key>)
    requires Filling(order, rest, visible, left, filled) && rest != [] && rest[0] !in visible
    ensures Filling(order + [rest[0]], rest[1..], visible, left, filled)
  {
  }

  /** Replaces the visible slots one by one, shifting the new keys. */
  method FillSlots(previous: seq<Key>, visible: seq<Key>, next: seq<Key>) returns (order: seq<Key>)
    requires Enough(previous, visible, next)
    ensures order == Fill(previous, visible, next)
  {
    ghost var filled := Fill(previous, visible, next);
    var left := next;
    order := [];
    for i := 0 to |previous|
      invariant Filling(order, previous[i..], visible, left, filled)
    {
      assert previous[i..][1..] == previous[i + 1..];
      if previous[i] in visible {
        FillVisible(order, previous[i..], visible, left, filled);
        order, left := order + [left[0]], left[1..];
      } else {
        FillOther(order, previous[i..], visible, left, filled);
        order := order + [previous[i]];
      }
    }
    order := order + left;
  }

  method StoreMove<T>(previous: seq<Key>, items: seq<HostedItem<T>>, source: Key, target: Key, after: bool)
    returns (order: seq<Key>)
    requires Distinct(previous)
    ensures order == MoveItemOrder(previous, items, source, target, after)
  {
    var keys := VisibleKeys(items, previous);
    var next := MoveItemKeys(keys, source, target, after);
    if next == keys {
      return previous;
    }
    OrderKeysKeeps(LoadedKeys(items), previous);
    MoveKeepsLength(keys, source, target, after);
    EnoughKeys(LoadedKeys(items), previous, keys, next);
    order := FillSlots(previous, keys, next);
  }
}
