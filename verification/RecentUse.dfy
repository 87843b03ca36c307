/**
 * The order of the history cache: entries stand in the order of their last use, so what a `set` evicts was used
 * less recently than everything it keeps.
 */
module RecentUse {
  import opened Options
  import opened HistoryCache

  // ---------------------------------------------------------------- uses

  /** The entry that a `set` makes. */
  function Made(op: Op): Entry
    requires op.Set?
  {
    Entry(op.scope, op.events, op.events.characters * 2, op.hasEarlier, op.before)
  }

  /** The entries hold this conversation. */
  ghost predicate Holds(entries: Entries, scope: string) {
    exists e :: e in entries && e.scope == scope
  }

  /** The entries hold this conversation with the same window, cursor and flag. */
  ghost predicate Repeats(entries: Entries, op: Op)
    requires op.Set?
  {
    exists e :: e in entries && e.scope == op.scope && e.events.id == op.events.id
                && e.hasEarlier == op.hasEarlier && e.before == op.before
  }

  /** Operation `t` of the run uses the conversation: it finds it, or stores something new under it. */
  ghost predicate Uses(ops: seq<Op>, l: Limits, scope: string, t: nat)
    requires t < |ops|
  {
    match ops[t]
    case Get(s) => s == scope && Holds(After(ops[..t], l), scope)
    case Set(s, _, _, _) => s == scope && !Repeats(After(ops[..t], l), ops[t])
    case ClearHost(_) => false
  }

  ghost predicate IsLastUse(ops: seq<Op>, l: Limits, scope: string, t: nat) {
    t < |ops| && Uses(ops, l, scope, t) && forall u | t < u < |ops| :: !Uses(ops, l, scope, u)
  }

  /** The number of operations up to the last use, 0 without one. */
  ghost function Rank(ops: seq<Op>, l: Limits, scope: string): (r: nat)
    ensures r <= |ops|
  {
    if ops == [] then 0
    else if Uses(ops, l, scope, |ops| - 1) then |ops|
    else Rank(ops[..|ops| - 1], l, scope)
  }

  lemma UsesPrefix(ops: seq<Op>, l: Limits, scope: string, t: nat, n: nat)
    requires t < n <= |ops|
    ensures Uses(ops[..n], l, scope, t) <==> Uses(ops, l, scope, t)
  {
    assert ops[..n][..t] == ops[..t];
  }

  lemma LastUseBefore(ops: seq<Op>, l: Limits, scope: string, t: nat)
    requires t < |ops| - 1 && IsLastUse(ops, l, scope, t)
    ensures IsLastUse(ops[..|ops| - 1], l, scope, t) && !Uses(ops, l, scope, |ops| - 1)
  {
    var n := |ops| - 1;
    UsesPrefix(ops, l, scope, t, n);
    forall u | t < u < n ensures !Uses(ops[..n], l, scope, u) {
      UsesPrefix(ops, l, scope, u, n);
    }
  }

  lemma {:induction false} RankIs(ops: seq<Op>, l: Limits, scope: string, t: nat)
    requires IsLastUse(ops, l, scope, t)
    ensures Rank(ops, l, scope) == t + 1
    decreases |ops|
  {
    if t < |ops| - 1 {
      LastUseBefore(ops, l, scope, t);
      RankIs(ops[..|ops| - 1], l, scope, t);
    }
  }

  lemma LastUseStays(ops: seq<Op>, l: Limits, scope: string, t: nat)
    requires ops != [] && IsLastUse(ops[..|ops| - 1], l, scope, t) && !Uses(ops, l, scope, |ops| - 1)
    ensures IsLastUse(ops, l, scope, t)
  {
    var n := |ops| - 1;
    UsesPrefix(ops, l, scope, t, n);
    forall u | t < u < |ops| ensures !Uses(ops, l, scope, u) {
      if u < n {
        UsesPrefix(ops, l, scope, u, n);
      }
    }
  }

  lemma {:induction false} LastUseAt(ops: seq<Op>, l: Limits, scope: string) returns (t: nat)
    requires Rank(ops, l, scope) > 0
    ensures IsLastUse(ops, l, scope, t) && Rank(ops, l, scope) == t + 1
    decreases |ops|
  {
    var n := |ops| - 1;
    if Uses(ops, l, scope, n) {
      t := n;
    } else {
      t := LastUseAt(ops[..n], l, scope);
      LastUseStays(ops, l, scope, t);
    }
  }

  // ---------------------------------------------------------------- ordered entries

  /** The ranks grow strictly down the entries. */
  ghost predicate Ordered(entries: Entries, rank: string -> nat) {
    && (forall e | e in entries :: rank(e.scope) > 0)
    && (forall i, j | 0 <= i < j < |entries| :: rank(entries[i].scope) < rank(entries[j].scope))
  }

  ghost function RankIn(ops: seq<Op>, l: Limits): string -> nat {
    scope => Rank(ops, l, scope)
  }

  lemma OrderedCons(e: Entry, rest: Entries, rank: string -> nat)
    requires Ordered(rest, rank) && rank(e.scope) > 0
    requires forall f | f in rest :: rank(e.scope) < rank(f.scope)
    ensures Ordered([e] + rest, rank)
  {
    var all := [e] + rest;
    forall i, j | 0 <= i < j < |all| ensures rank(all[i].scope) < rank(all[j].scope) {
      assert all[j] == rest[j - 1];
    }
  }

  lemma OrderedTail(entries: Entries, rank: string -> nat)
    requires Ordered(entries, rank) && entries != []
    ensures Ordered(entries[1..], rank)
    ensures forall f | f in entries[1..] :: rank(entries[0].scope) < rank(f.scope)
  {
    var rest := entries[1..];
    assert forall i | 0 <= i < |rest| :: rest[i] == entries[i + 1];
  }

  lemma {:induction false} RemoveKeepsOrder(entries: Entries, scope: string, rank: string -> nat)
    requires Ordered(entries, rank)
    ensures Ordered(Remove(entries, scope), rank)
  {
    if entries != [] {
      OrderedTail(entries, rank);
      RemoveKeepsOrder(entries[1..], scope, rank);
      if entries[0].scope != scope {
        OrderedCons(entries[0], Remove(entries[1..], scope), rank);
      } else {
        assert Remove(entries, scope) == Remove(entries[1..], scope);
      }
    }
  }

  lemma {:induction false} WithoutHostKeepsOrder(
    entries: Entries, host: string, hostOf: string -> string, rank: string -> nat)
    requires Ordered(entries, rank)
    ensures Ordered(WithoutHost(entries, host, hostOf), rank)
  {
    if entries != [] {
      OrderedTail(entries, rank);
      WithoutHostKeepsOrder(entries[1..], host, hostOf, rank);
      if hostOf(entries[0].scope) != host {
        OrderedCons(entries[0], WithoutHost(entries[1..], host, hostOf), rank);
      } else {
        assert WithoutHost(entries, host, hostOf) == WithoutHost(entries[1..], host, hostOf);
      }
    }
  }

  lemma OrderedSnoc(front: Entries, e: Entry, rank: string -> nat)
    requires Ordered(front, rank) && rank(e.scope) > 0 && forall f | f in front :: rank(f.scope) < rank(e.scope)
    ensures Ordered(front + [e], rank)
  {
  }

  lemma OrderedSuffix(entries: Entries, k: nat, rank: string -> nat)
    requires Ordered(entries, rank) && k <= |entries|
    ensures Ordered(entries[k..], rank)
  {
    assert forall i | 0 <= i < |entries| - k :: entries[k..][i] == entries[i + k];
  }

  lemma OrderedSame(entries: Entries, rank: string -> nat, next: string -> nat)
    requires Ordered(entries, rank) && forall e | e in entries :: next(e.scope) == rank(e.scope)
    ensures Ordered(entries, next)
  {
  }

  // ---------------------------------------------------------------- one operation

  lemma RankNext(ops: seq<Op>, l: Limits, scope: string)
    requires ops != []
    ensures Rank(ops, l, scope)
            == if Uses(ops, l, scope, |ops| - 1) then |ops| else Rank(ops[..|ops| - 1], l, scope)
  {
  }

  /** The rank of every other conversation stays. */
  lemma OthersKeepRank(ops: seq<Op>, l: Limits, entries: Entries)
    requires ops != []
    requires forall e | e in entries :: !Uses(ops, l, e.scope, |ops| - 1)
    requires Ordered(entries, RankIn(ops[..|ops| - 1], l))
    ensures Ordered(entries, RankIn(ops, l))
  {
    forall e | e in entries ensures RankIn(ops, l)(e.scope) == RankIn(ops[..|ops| - 1], l)(e.scope) {
      RankNext(ops, l, e.scope);
    }
    OrderedSame(entries, RankIn(ops[..|ops| - 1], l), RankIn(ops, l));
  }

  lemma UsedComesLast(ops: seq<Op>, l: Limits, front: Entries, e: Entry)
    requires ops != [] && Ordered(front, RankIn(ops[..|ops| - 1], l)) && Uses(ops, l, e.scope, |ops| - 1)
    requires forall f | f in front :: f.scope != e.scope
    ensures Ordered(front + [e], RankIn(ops, l))
  {
    OthersKeepRank(ops, l, front);
    forall f | f in front ensures RankIn(ops, l)(f.scope) < RankIn(ops, l)(e.scope) {
      RankNext(ops, l, f.scope);
    }
    OrderedSnoc(front, e, RankIn(ops, l));
  }

  lemma GetKeepsOrder(ops: seq<Op>, l: Limits)
    requires ops != [] && ops[|ops| - 1].Get? && Ordered(After(ops[..|ops| - 1], l), RankIn(ops[..|ops| - 1], l))
    ensures Ordered(After(ops, l), RankIn(ops, l))
  {
    var before, scope := After(ops[..|ops| - 1], l), ops[|ops| - 1].scope;
    var found := Find(before, scope);
    if found.Some? {
      RemoveKeepsOrder(before, scope, RankIn(ops[..|ops| - 1], l));
      assert Holds(before, scope);
      UsedComesLast(ops, l, Remove(before, scope), found.value);
    } else {
      OthersKeepRank(ops, l, before);
    }
  }

  lemma RepeatsIff(entries: Entries, op: Op)
    requires op.Set? && DistinctScopes(entries)
    ensures Repeats(entries, op) <==> Unchanged(entries, op.scope, op.events, op.hasEarlier, op.before)
  {
    if e :| e in entries && e.scope == op.scope && e.events.id == op.events.id
            && e.hasEarlier == op.hasEarlier && e.before == op.before {
      FindIs(entries, e);
    }
  }

  lemma SetKeepsOrder(ops: seq<Op>, l: Limits)
    requires ops != [] && ops[|ops| - 1].Set? && Ordered(After(ops[..|ops| - 1], l), RankIn(ops[..|ops| - 1], l))
    ensures Ordered(After(ops, l), RankIn(ops, l))
  {
    var before, op := After(ops[..|ops| - 1], l), ops[|ops| - 1];
    RunStaysValid(ops[..|ops| - 1], l);
    RepeatsIff(before, op);
    if Repeats(before, op) {
      OthersKeepRank(ops, l, before);
    } else {
      RemoveKeepsOrder(before, op.scope, RankIn(ops[..|ops| - 1], l));
      var kept := Remove(before, op.scope);
      if op.events.characters * 2 > l.maxSize {
        OthersKeepRank(ops, l, kept);
      } else {
        var e := Entry(op.scope, op.events, op.events.characters * 2, op.hasEarlier, op.before);
        UsedComesLast(ops, l, kept, e);
        var k := EvictIsLongestSuffix(kept + [e], l.maxEntries, l.maxSize);
        OrderedSuffix(kept + [e], k, RankIn(ops, l));
      }
    }
  }

  lemma {:induction false} RunIsOrdered(ops: seq<Op>, l: Limits)
    ensures Ordered(After(ops, l), RankIn(ops, l))
  {
    if ops != [] {
      var front, op := ops[..|ops| - 1], ops[|ops| - 1];
      RunIsOrdered(front, l);
      match op
      case Get(_) => GetKeepsOrder(ops, l);
      case Set(_, _, _, _) => SetKeepsOrder(ops, l);
      case ClearHost(host) =>
        WithoutHostKeepsOrder(After(front, l), host, l.hostOf, RankIn(front, l));
        OthersKeepRank(ops, l, WithoutHost(After(front, l), host, l.hostOf));
    }
  }

  // ---------------------------------------------------------------- what the order means

  /** After every run each entry has been used, and entries stand in the order of their last use. */
  lemma EntriesStandByUse(ops: seq<Op>, l: Limits, i: nat, j: nat) returns (t: nat, u: nat)
    requires i < j < |After(ops, l)|
    ensures IsLastUse(ops, l, After(ops, l)[i].scope, t) && IsLastUse(ops, l, After(ops, l)[j].scope, u) && t < u
  {
    RunIsOrdered(ops, l);
    var entries := After(ops, l);
    assert RankIn(ops, l)(entries[i].scope) < RankIn(ops, l)(entries[j].scope);
    assert entries[i] in entries && entries[j] in entries;
    t := LastUseAt(ops, l, entries[i].scope);
    u := LastUseAt(ops, l, entries[j].scope);
  }

  /** What the last `set` made room with: entries of other conversations that are gone. */
  ghost predicate IsEvicted(ops: seq<Op>, l: Limits, e: Entry) {
    && ops != [] && ops[|ops| - 1].Set? && e.scope != ops[|ops| - 1].scope
    && e in After(ops[..|ops| - 1], l) && e !in After(ops, l)
  }

  lemma InFrontOrBehind(all: Entries, k: nat, e: Entry)
    requires k <= |all| && e in all
    ensures e in all[..k] || e in all[k..]
  {
    assert all == all[..k] + all[k..];
  }

  lemma EvictedStoodBefore(all: Entries, k: nat, e: Entry, f: Entry, rank: string -> nat)
    requires Ordered(all, rank) && k <= |all| && e in all && e !in all[k..] && f in all[k..]
    ensures rank(e.scope) < rank(f.scope)
  {
    InFrontOrBehind(all, k, e);
    var i :| 0 <= i < k && all[..k][i] == e;
    var j :| 0 <= j < |all| - k && all[k..][j] == f;
    assert all[i] == e && all[k + j] == f;
  }

  /** Where the last `set` cut, when it evicted something: what it keeps is not empty. */
  lemma SetCut(ops: seq<Op>, l: Limits, e: Entry) returns (all: Entries, k: nat)
    requires IsEvicted(ops, l, e)
    ensures all == Remove(After(ops[..|ops| - 1], l), ops[|ops| - 1].scope) + [Made(ops[|ops| - 1])]
    ensures k < |all| && After(ops, l) == all[k..] && e in all && Ordered(all, RankIn(ops, l))
    ensures forall j | 0 <= j < k :: !Fits(all[j..], l.maxEntries, l.maxSize)
  {
    var before, op := After(ops[..|ops| - 1], l), ops[|ops| - 1];
    RunIsOrdered(ops[..|ops| - 1], l);
    RunStaysValid(ops[..|ops| - 1], l);
    RepeatsIff(before, op);
    RemoveKeepsOrder(before, op.scope, RankIn(ops[..|ops| - 1], l));
    UsedComesLast(ops, l, Remove(before, op.scope), Made(op));
    all := Remove(before, op.scope) + [Made(op)];
    k := EvictIsLongestSuffix(all, l.maxEntries, l.maxSize);
    StoreKeepsTheNewEntry(Remove(before, op.scope), Made(op), l.maxEntries, l.maxSize);
  }

  /** Least recently used: a conversation that a `set` evicts was last used before every one that it keeps. */
  lemma EvictedWasLeastRecent(ops: seq<Op>, l: Limits, e: Entry, f: Entry) returns (t: nat, u: nat)
    requires IsEvicted(ops, l, e) && f in After(ops, l)
    ensures IsLastUse(ops, l, e.scope, t) && IsLastUse(ops, l, f.scope, u) && t < u
  {
    var all, k := SetCut(ops, l, e);
    EvictedStoodBefore(all, k, e, f, RankIn(ops, l));
    assert f in all;
    t := LastUseAt(ops, l, e.scope);
    u := LastUseAt(ops, l, f.scope);
  }

  // ---------------------------------------------------------------- nothing else goes

  lemma {:induction false} TouchHas(entries: Entries, scope: string, e: Entry)
    requires DistinctScopes(entries)
    ensures e in Touch(entries, scope) <==> e in entries
  {
    var found := Find(entries, scope);
    if found.Some? {
      var rest := Remove(entries, scope);
      assert e in rest + [found.value] <==> e in rest || e == found.value;
      if e in entries && e.scope == scope {
        FindIs(entries, e);
      }
    }
  }

  /** Reading drops nothing and adds nothing, and clearing a host drops exactly its conversations. */
  lemma ReadingKeepsAll(entries: Entries, op: Op, l: Limits, e: Entry)
    requires DistinctScopes(entries) && !op.Set?
    ensures e in Next(entries, op, l)
            <==> e in entries && (op.ClearHost? ==> l.hostOf(e.scope) != op.host)
  {
    if op.Get? {
      TouchHas(entries, op.scope, e);
    }
  }

  /** Room for the last `set` could not be made with this entry kept. */
  ghost predicate IsInTheWay(kept: Entries, e: Entry, l: Limits) {
    |kept| + 1 > l.maxEntries || Total(kept) + e.size > l.maxSize
  }

  lemma CutIsNeeded(all: Entries, k: nat, l: Limits)
    requires 0 < k <= |all| && !Fits(all[k - 1..], l.maxEntries, l.maxSize)
    ensures IsInTheWay(all[k..], all[k - 1], l)
  {
    assert all[k - 1..][1..] == all[k..];
  }

  /** The entry before the cut is the last of those in front of it, and does not stand behind it. */
  lemma BeforeTheCut(all: Entries, k: nat, e: Entry, rank: string -> nat) returns (last: Entry)
    requires Ordered(all, rank) && k < |all| && e in all && e !in all[k..]
    ensures k > 0 && last == all[k - 1] && last !in all[k..] && last in all[..|all| - 1]
    ensures rank(e.scope) <= rank(last.scope)
  {
    InFrontOrBehind(all, k, e);
    var i :| 0 <= i < k && all[..k][i] == e;
    last := all[k - 1];
    assert all[..|all| - 1][k - 1] == last;
    assert i < k - 1 ==> rank(all[i].scope) < rank(last.scope);
    forall f | f in all[k..] ensures f != last {
      var j :| 0 <= j < |all| - k && all[k..][j] == f;
      assert rank(last.scope) < rank(all[k + j].scope);
    }
  }

  lemma CutIsEvicted(ops: seq<Op>, l: Limits, all: Entries, k: nat, e: Entry, last: Entry)
    requires IsEvicted(ops, l, e) && k <= |all| && After(ops, l) == all[k..] && last !in all[k..]
    requires all == Remove(After(ops[..|ops| - 1], l), ops[|ops| - 1].scope) + [Made(ops[|ops| - 1])]
    requires last in all[..|all| - 1]
    ensures IsEvicted(ops, l, last)
  {
    assert all[..|all| - 1] == Remove(After(ops[..|ops| - 1], l), ops[|ops| - 1].scope);
  }

  /**
   * A `set` evicts only what it must: if it evicts anything, what it keeps does not fit together with the most
   * recently used of the entries evicted.
   */
  lemma EvictsOnlyForRoom(ops: seq<Op>, l: Limits, e: Entry, u: nat) returns (last: Entry, t: nat)
    requires IsEvicted(ops, l, e) && IsLastUse(ops, l, e.scope, u)
    ensures IsEvicted(ops, l, last) && IsInTheWay(After(ops, l), last, l)
    ensures IsLastUse(ops, l, last.scope, t) && u <= t
  {
    var all, k := SetCut(ops, l, e);
    var rank := RankIn(ops, l);
    last := BeforeTheCut(all, k, e, rank);
    CutIsNeeded(all, k, l);
    CutIsEvicted(ops, l, all, k, e, last);
    RankIs(ops, l, e.scope, u);
    assert rank(last.scope) >= rank(e.scope) > 0;
    t := LastUseAt(ops, l, last.scope);
  }

  // ---------------------------------------------------------------- what a set does

  ghost predicate IsMostRecent(entries: Entries, scope: string) {
    entries != [] && entries[|entries| - 1].scope == scope
  }

  /** What is stored: a window that fits becomes the last entry, one that does not fit leaves its conversation out. */
  lemma SetStores(entries: Entries, op: Op, l: Limits)
    requires DistinctScopes(entries) && op.Set? && !Repeats(entries, op) && l.maxEntries >= 1
    ensures var next := Next(entries, op, l);
      if op.events.characters * 2 <= l.maxSize then next != [] && next[|next| - 1] == Made(op)
      else !Holds(next, op.scope) && forall e :: e in next <==> e in entries && e.scope != op.scope
  {
    RepeatsIff(entries, op);
    if op.events.characters * 2 <= l.maxSize {
      StoreKeepsTheNewEntry(Remove(entries, op.scope), Made(op), l.maxEntries, l.maxSize);
    }
  }

  /**
   * Storing the window that is already cached is not a use: a `set` of a window that fits makes its conversation the
   * most recent one if and only if it stores something new, or the conversation was the most recent already.
   */
  lemma SetIsUseIff(entries: Entries, op: Op, l: Limits)
    requires DistinctScopes(entries) && op.Set? && l.maxEntries >= 1 && op.events.characters * 2 <= l.maxSize
    ensures IsMostRecent(Next(entries, op, l), op.scope)
            <==> !Repeats(entries, op) || IsMostRecent(entries, op.scope)
  {
    RepeatsIff(entries, op);
    if !Repeats(entries, op) {
      SetStores(entries, op, l);
    }
  }

  /** One run: the conversation stored again last is the one that goes. */
  lemma RepeatedSetIsNoUseOnce(l: Limits)
    requires l.maxEntries == 2 && l.maxSize >= 12
    ensures var a, b, c := Set("a", Window(1, 1), false, None), Set("b", Window(2, 1), false, None),
                           Set("c", Window(3, 1), false, None);
      !Holds(After([a, b, a, c], l), "a") && Holds(After([a, b, a, c], l), "b")
  {
    var a, b, c := Set("a", Window(1, 1), false, None), Set("b", Window(2, 1), false, None),
                   Set("c", Window(3, 1), false, None);
    AfterTwo(l);
    assert [a, b, a, c][..3] == [a, b, a] && [a, b, a][..2] == [a, b];
    var two := [Made(a), Made(b)];
    assert Find(two, "a") == Some(Made(a));
    assert After([a, b, a], l) == two;
    AddThird(l);
  }

  lemma AfterTwo(l: Limits)
    requires l.maxEntries == 2 && l.maxSize >= 12
    ensures var a, b := Set("a", Window(1, 1), false, None), Set("b", Window(2, 1), false, None);
      After([a, b], l) == [Made(a), Made(b)]
  {
    var a, b := Set("a", Window(1, 1), false, None), Set("b", Window(2, 1), false, None);
    assert [a, b][..1] == [a] && [a][..0] == [];
    assert Find([], "a") == None && Remove([], "a") == [];
    assert [] + [Made(a)] == [Made(a)] && Fits([Made(a)], 2, l.maxSize);
    assert After([a], l) == [Made(a)];
    assert Find([Made(a)], "b") == None;
    RemoveAbsent([Made(a)], "b");
    assert [Made(a)] + [Made(b)] == [Made(a), Made(b)];
    TotalAppend([Made(a)], [Made(b)]);
    assert Fits([Made(a), Made(b)], 2, l.maxSize);
  }

  lemma AddThird(l: Limits)
    requires l.maxEntries == 2 && l.maxSize >= 12
    ensures var a, b, c := Set("a", Window(1, 1), false, None), Set("b", Window(2, 1), false, None),
                           Set("c", Window(3, 1), false, None);
      Next([Made(a), Made(b)], c, l) == [Made(b), Made(c)]
  {
    var a, b, c := Set("a", Window(1, 1), false, None), Set("b", Window(2, 1), false, None),
                   Set("c", Window(3, 1), false, None);
    var two, three := [Made(a), Made(b)], [Made(a), Made(b), Made(c)];
    assert !Has(two, "c");
    RemoveAbsent(two, "c");
    assert two + [Made(c)] == three && three[1..] == [Made(b), Made(c)];
    TotalAppend([Made(b)], [Made(c)]);
    assert [Made(b)] + [Made(c)] == three[1..];
    assert !Fits(three, 2, l.maxSize) && Fits(three[1..], 2, l.maxSize);
    assert Evict(three, 2, l.maxSize) == Evict(three[1..], 2, l.maxSize) == three[1..];
    assert !Unchanged(two, "c", Window(3, 1), false, None);
    assert Made(c) == Entry("c", Window(3, 1), 2, false, None);
  }
}
