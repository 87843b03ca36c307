/**
 * The bounded history cache: an ordered map from conversation to event window, least recently used first,
 * limited both in entries and in total size.
 */
module HistoryCache {
  import opened Options

  /** An event list by identity, with the length of its serialized text when it is stored. */
  datatype Window = Window(id: nat, characters: nat)

  /** The cursor is a number that need not be whole. */
  datatype Entry = Entry(scope: string, events: Window, size: nat, hasEarlier: bool, before: Option<real>)

  /** The entries from least to most recently used. */
  type Entries = seq<Entry>

  function Total(entries: Entries): nat {
    if entries == [] then 0 else entries[0].size + Total(entries[1..])
  }

  ghost predicate DistinctScopes(entries: Entries) {
    forall i, j | 0 <= i < j < |entries| :: entries[i].scope != entries[j].scope
  }

  predicate Has(entries: Entries, scope: string) {
    exists e | e in entries :: e.scope == scope
  }

  function Find(entries: Entries, scope: string): (r: Option<Entry>)
    ensures r.Some? <==> Has(entries, scope)
    ensures r.Some? ==> r.value in entries && r.value.scope == scope
  {
    if entries == [] then None
    else if entries[0].scope == scope then Some(entries[0])
    else
      assert forall e | e in entries[1..] :: e in entries;
      Find(entries[1..], scope)
  }

  function Remove(entries: Entries, scope: string): (r: Entries)
    ensures forall e | e in r :: e in entries && e.scope != scope
    ensures forall e | e in entries && e.scope != scope :: e in r
    ensures |r| <= |entries|
  {
    if entries == [] then []
    else (if entries[0].scope == scope then [] else [entries[0]]) + Remove(entries[1..], scope)
  }

  lemma {:induction false} RemoveKeepsDistinct(entries: Entries, scope: string)
    requires DistinctScopes(entries)
    ensures DistinctScopes(Remove(entries, scope))
  {
    if entries != [] {
      RemoveKeepsDistinct(entries[1..], scope);
    }
  }

  lemma {:induction false} RemoveAbsent(entries: Entries, scope: string)
    requires !Has(entries, scope)
    ensures Remove(entries, scope) == entries
  {
    if entries != [] {
      assert entries[0] in entries;
      RemoveAbsent(entries[1..], scope);
    }
  }

  lemma {:induction false} RemoveTotal(entries: Entries, scope: string)
    requires DistinctScopes(entries)
    ensures Total(Remove(entries, scope))
            == Total(entries) - (if Has(entries, scope) then Find(entries, scope).value.size else 0)
  {
    if entries != [] {
      assert entries[0] in entries;
      if entries[0].scope == scope {
        RemoveAbsent(entries[1..], scope);
        assert Remove(entries, scope) == entries[1..];
      } else {
        RemoveTotal(entries[1..], scope);
        assert Remove(entries, scope)[1..] == Remove(entries[1..], scope);
      }
    }
  }

  lemma {:induction false} TotalAppend(a: Entries, b: Entries)
    ensures Total(a + b) == Total(a) + Total(b)
  {
    if a == [] {
      assert a + b == b;
    } else {
      assert (a + b)[1..] == a[1..] + b;
      TotalAppend(a[1..], b);
    }
  }

  // ---------------------------------------------------------------- the operations

  predicate Fits(entries: Entries, maxEntries: nat, maxSize: nat) {
    |entries| <= maxEntries && Total(entries) <= maxSize
  }

  function Touch(entries: Entries, scope: string): Entries {
    match Find(entries, scope)
    case None => entries
    case Some(e) => Remove(entries, scope) + [e]
  }

  predicate Unchanged(entries: Entries, scope: string, events: Window, hasEarlier: bool, before: Option<real>) {
    var previous := Find(entries, scope);
    previous.Some? && previous.value.events.id == events.id
    && previous.value.hasEarlier == hasEarlier && previous.value.before == before
  }

  /** Drops the oldest entries until the rest fits. */
  function Evict(entries: Entries, maxEntries: nat, maxSize: nat): (r: Entries)
    ensures Fits(r, maxEntries, maxSize)
  {
    if Fits(entries, maxEntries, maxSize) then entries
    else
      assert entries != [];
      Evict(entries[1..], maxEntries, maxSize)
  }

  function Store(
    entries: Entries, scope: string, events: Window, hasEarlier: bool, before: Option<real>,
    maxEntries: nat, maxSize: nat): Entries
  {
    var size := events.characters * 2;
    if Unchanged(entries, scope, events, hasEarlier, before) then entries
    else if size > maxSize then Remove(entries, scope)
    else Evict(Remove(entries, scope) + [Entry(scope, events, size, hasEarlier, before)], maxEntries, maxSize)
  }

  function WithoutHost(entries: Entries, host: string, hostOf: string -> string): (r: Entries)
    ensures forall e | e in r :: e in entries && hostOf(e.scope) != host
    ensures forall e | e in entries && hostOf(e.scope) != host :: e in r
    ensures |r| <= |entries|
  {
    if entries == [] then []
    else
      (if hostOf(entries[0].scope) == host then [] else [entries[0]]) + WithoutHost(entries[1..], host, hostOf)
  }

  // ---------------------------------------------------------------- eviction is minimal

  /** What stays is a suffix, and every longer suffix is too big: the most recent entries that fit, and all of them. */
  lemma {:induction false} EvictIsLongestSuffix(entries: Entries, maxEntries: nat, maxSize: nat) returns (k: nat)
    ensures k <= |entries| && Evict(entries, maxEntries, maxSize) == entries[k..]
    ensures forall j | 0 <= j < k :: !Fits(entries[j..], maxEntries, maxSize)
    decreases |entries|
  {
    if Fits(entries, maxEntries, maxSize) {
      k := 0;
    } else {
      var m := EvictIsLongestSuffix(entries[1..], maxEntries, maxSize);
      k := m + 1;
      forall j | 0 <= j < k ensures !Fits(entries[j..], maxEntries, maxSize) {
        assert j > 0 ==> entries[1..][j - 1..] == entries[j..];
      }
      assert entries[1..][m..] == entries[k..];
    }
  }

  /** The entry just stored is never evicted. */
  lemma StoreKeepsTheNewEntry(front: Entries, entry: Entry, maxEntries: nat, maxSize: nat)
    requires maxEntries >= 1 && entry.size <= maxSize
    ensures var kept := Evict(front + [entry], maxEntries, maxSize);
      kept != [] && kept[|kept| - 1] == entry
  {
    var all := front + [entry];
    assert all[|front|..] == [entry];
    assert Fits(all[|front|..], maxEntries, maxSize);
    var k := EvictIsLongestSuffix(all, maxEntries, maxSize);
    assert k <= |front|;
  }

  // ---------------------------------------------------------------- runs

  datatype Op =
    | Get(scope: string)
    | Set(scope: string, events: Window, hasEarlier: bool, before: Option<real>)
    | ClearHost(host: string)

  datatype Limits = Limits(maxEntries: nat, maxSize: nat, hostOf: string -> string)

  function Next(entries: Entries, op: Op, l: Limits): Entries {
    match op
    case Get(scope) => Touch(entries, scope)
    case Set(scope, events, hasEarlier, before) =>
      Store(entries, scope, events, hasEarlier, before, l.maxEntries, l.maxSize)
    case ClearHost(host) => WithoutHost(entries, host, l.hostOf)
  }

  function After(ops: seq<Op>, l: Limits): Entries {
    if ops == [] then [] else Next(After(ops[..|ops| - 1], l), ops[|ops| - 1], l)
  }

  ghost predicate Bounded(entries: Entries, l: Limits) {
    DistinctScopes(entries) && Fits(entries, l.maxEntries, l.maxSize)
  }

  lemma {:induction false} WithoutHostDistinct(entries: Entries, host: string, hostOf: string -> string)
    requires DistinctScopes(entries)
    ensures DistinctScopes(WithoutHost(entries, host, hostOf))
  {
    if entries != [] {
      WithoutHostDistinct(entries[1..], host, hostOf);
    }
  }

  lemma {:induction false} WithoutHostTotal(entries: Entries, host: string, hostOf: string -> string)
    ensures Total(WithoutHost(entries, host, hostOf)) <= Total(entries)
  {
    if entries != [] {
      WithoutHostTotal(entries[1..], host, hostOf);
      if hostOf(entries[0].scope) == host {
        assert WithoutHost(entries, host, hostOf) == WithoutHost(entries[1..], host, hostOf);
      } else {
        assert WithoutHost(entries, host, hostOf)[1..] == WithoutHost(entries[1..], host, hostOf);
      }
    }
  }

  lemma TouchKeepsValid(entries: Entries, scope: string, l: Limits)
    requires Bounded(entries, l)
    ensures Bounded(Touch(entries, scope), l)
    ensures Total(Touch(entries, scope)) == Total(entries)
  {
    var found := Find(entries, scope);
    if found.Some? {
      RemoveKeepsDistinct(entries, scope);
      RemoveTotal(entries, scope);
      RemoveShrinks(entries, scope);
      TotalAppend(Remove(entries, scope), [found.value]);
    }
  }

  lemma {:induction false} RemoveShrinks(entries: Entries, scope: string)
    requires Has(entries, scope)
    ensures |Remove(entries, scope)| < |entries|
  {
    if entries[0].scope != scope {
      assert Has(entries[1..], scope);
      RemoveShrinks(entries[1..], scope);
    }
  }

  lemma EvictDistinct(front: Entries, e: Entry, maxEntries: nat, maxSize: nat)
    requires DistinctScopes(front) && forall f | f in front :: f.scope != e.scope
    ensures DistinctScopes(Evict(front + [e], maxEntries, maxSize))
  {
    var all := front + [e];
    var k := EvictIsLongestSuffix(all, maxEntries, maxSize);
    assert forall i | 0 <= i < |all| - k :: all[k..][i] == all[i + k];
  }

  lemma StoreKeepsValid(entries: Entries, op: Op, l: Limits)
    requires Bounded(entries, l) && op.Set?
    ensures Bounded(Next(entries, op, l), l)
  {
    var size := op.events.characters * 2;
    RemoveKeepsDistinct(entries, op.scope);
    RemoveTotal(entries, op.scope);
    EvictDistinct(
      Remove(entries, op.scope), Entry(op.scope, op.events, size, op.hasEarlier, op.before), l.maxEntries, l.maxSize);
  }

  lemma NextKeepsValid(entries: Entries, op: Op, l: Limits)
    requires Bounded(entries, l)
    ensures Bounded(Next(entries, op, l), l)
  {
    match op
    case Get(scope) => TouchKeepsValid(entries, scope, l);
    case Set(_, _, _, _) => StoreKeepsValid(entries, op, l);
    case ClearHost(host) =>
      WithoutHostDistinct(entries, host, l.hostOf);
      WithoutHostTotal(entries, host, l.hostOf);
  }

  lemma {:induction false} RunStaysValid(ops: seq<Op>, l: Limits)
    ensures Bounded(After(ops, l), l)
  {
    if ops != [] {
      RunStaysValid(ops[..|ops| - 1], l);
      NextKeepsValid(After(ops[..|ops| - 1], l), ops[|ops| - 1], l);
    }
  }

  // ---------------------------------------------------------------- never stale

  /** The last window stored for a conversation, whether or not it was retained. */
  function LastSet(ops: seq<Op>, scope: string): Option<Op> {
    if ops == [] then None
    else if ops[|ops| - 1].Set? && ops[|ops| - 1].scope == scope then Some(ops[|ops| - 1])
    else LastSet(ops[..|ops| - 1], scope)
  }

  /** An entry that says what the last `set` of its conversation said. */
  ghost predicate Current(ops: seq<Op>, e: Entry) {
    var last := LastSet(ops, e.scope);
    last.Some? && last.value.Set? && last.value.events.id == e.events.id
    && last.value.hasEarlier == e.hasEarlier && last.value.before == e.before
  }

  lemma NextComesFrom(entries: Entries, op: Op, l: Limits, e: Entry)
    requires DistinctScopes(entries) && e in Next(entries, op, l)
    ensures e in entries
            || (op.Set? && e == Entry(op.scope, op.events, op.events.characters * 2, op.hasEarlier, op.before))
    ensures op.Set? && e.scope == op.scope ==>
      e.events.id == op.events.id && e.hasEarlier == op.hasEarlier && e.before == op.before
  {
    if op.Set? {
      if Unchanged(entries, op.scope, op.events, op.hasEarlier, op.before) {
        FindIs(entries, e);
      } else {
        var added := Entry(op.scope, op.events, op.events.characters * 2, op.hasEarlier, op.before);
        var all := Remove(entries, op.scope) + [added];
        var k := EvictIsLongestSuffix(all, l.maxEntries, l.maxSize);
      }
    }
  }

  lemma {:induction false} FindIs(entries: Entries, e: Entry)
    requires DistinctScopes(entries) && e in entries
    ensures Find(entries, e.scope) == Some(e)
  {
    if entries[0] != e {
      assert e in entries[1..];
      FindIs(entries[1..], e);
    }
  }

  /** In every run, whatever is still cached for a conversation is what was stored last for it. */
  lemma {:induction false} CacheIsNeverStale(ops: seq<Op>, l: Limits, e: Entry)
    requires e in After(ops, l)
    ensures Current(ops, e)
  {
    var n := |ops| - 1;
    RunStaysValid(ops[..n], l);
    NextComesFrom(After(ops[..n], l), ops[n], l, e);
    if e in After(ops[..n], l) {
      CacheIsNeverStale(ops[..n], l, e);
    }
  }

  // ---------------------------------------------------------------- the cache

  class Cache {
    const maxEntries: nat
    const maxSize: nat
    const hostOf: string -> string
    var entries: Entries
    var size: int

    ghost predicate Valid()
      reads this
    {
      Bounded(entries, Limits(maxEntries, maxSize, hostOf)) && size == Total(entries)
    }

    constructor (maxEntries: nat, maxSize: nat, hostOf: string -> string)
      ensures Valid() && entries == []
      ensures this.maxEntries == maxEntries && this.maxSize == maxSize && this.hostOf == hostOf
    {
      this.maxEntries, this.maxSize, this.hostOf := maxEntries, maxSize, hostOf;
      entries, size := [], 0;
    }

    method Get(scope: string) returns (events: Option<Window>)
      requires Valid()
      modifies this`entries
      ensures Valid() && entries == Touch(old(entries), scope)
      ensures events == (match Find(old(entries), scope) case None => None case Some(e) => Some(e.events))
    {
      var entry := Find(entries, scope);
      if entry == None {
        return None;
      }
      TouchKeepsValid(entries, scope, Limits(maxEntries, maxSize, hostOf));
      entries := Remove(entries, scope);
      entries := entries + [entry.value];
      return Some(entry.value.events);
    }

    method Set(scope: string, events: Window, hasEarlier: bool, before: Option<real>)
      requires Valid()
      modifies this
      ensures Valid()
      ensures entries == Store(old(entries), scope, events, hasEarlier, before, maxEntries, maxSize)
    {
      var previous := Find(entries, scope);
      if previous.Some? && previous.value.events.id == events.id && previous.value.hasEarlier == hasEarlier
         && previous.value.before == before {
        return;
      }
      ghost var was := entries;
      RemoveTotal(entries, scope);
      RemoveKeepsDistinct(entries, scope);
      StoreKeepsValid(entries, Op.Set(scope, events, hasEarlier, before), Limits(maxEntries, maxSize, hostOf));
      size := size - (if previous.Some? then previous.value.size else 0);
      entries := Remove(entries, scope);
      var added := events.characters * 2;
      if added > maxSize {
        return;
      }
      TotalAppend(entries, [Entry(scope, events, added, hasEarlier, before)]);
      entries := entries + [Entry(scope, events, added, hasEarlier, before)];
      size := size + added;
      while |entries| > maxEntries || size > maxSize
        invariant size == Total(entries)
        invariant Evict(entries, maxEntries, maxSize)
                  == Store(was, scope, events, hasEarlier, before, maxEntries, maxSize)
        decreases |entries|
      {
        size := size - entries[0].size;
        entries := entries[1..];
      }
    }

    method ClearHost(host: string)
      requires Valid()
      modifies this
      ensures Valid() && entries == WithoutHost(old(entries), host, hostOf)
    {
      NextKeepsValid(entries, Op.ClearHost(host), Limits(maxEntries, maxSize, hostOf));
      entries, size := DropHost(entries, size, host, hostOf);
    }
  }

  method DropHost(all: Entries, total: int, host: string, hostOf: string -> string) returns (kept: Entries, size: int)
    requires total == Total(all)
    ensures kept == WithoutHost(all, host, hostOf) && size == Total(kept)
  {
    kept, size := [], total;
    for i := 0 to |all|
      invariant kept + WithoutHost(all[i..], host, hostOf) == WithoutHost(all, host, hostOf)
      invariant size == Total(kept) + Total(all[i..])
    {
      assert all[i..][1..] == all[i + 1..];
      WithoutHostStep(kept, all[i..], host, hostOf);
      if hostOf(all[i].scope) == host {
        size := size - all[i].size;
      } else {
        TotalAppend(kept, [all[i]]);
        kept := kept + [all[i]];
      }
    }
  }

  lemma WithoutHostStep(kept: Entries, rest: Entries, host: string, hostOf: string -> string)
    requires rest != []
    ensures kept + WithoutHost(rest, host, hostOf)
            == (if hostOf(rest[0].scope) == host then kept else kept + [rest[0]]) + WithoutHost(rest[1..], host, hostOf)
  {
  }
}
