/**
 * Turn boundaries, pending calls and the ends of calls, read off the log alone: from the positions of the
 * terminal states and from the items, with no state of the pass.
 */
module OpenCalls {
  import opened Options
  import opened Protocol
  import opened Projection
  import opened ProjectionTheorems
  import opened CallOutcome

  // ---------------------------------------------------------------- boundaries

  /** A turn that is open at `from` ends at or directly before the item. */
  ghost predicate EndsBy(terminal: seq<nat>, from: nat, item: Item) {
    EndsTurn(item) || exists t :: t in terminal && from < t <= item.key
  }

  /** The terminal states before `index` are those up to `from`. */
  ghost predicate SplitsAt(terminal: seq<nat>, index: nat, from: nat) {
    && index <= |terminal|
    && (forall x | 0 <= x < index :: terminal[x] <= from)
    && (forall x | index <= x < |terminal| :: terminal[x] > from)
  }

  lemma {:induction false} SkipSplits(terminal: seq<nat>, index: nat, key: nat)
    requires Increasing(terminal) && index <= |terminal| && forall x | 0 <= x < index :: terminal[x] <= key
    ensures SplitsAt(terminal, SkipTerminals(terminal, index, key), key)
    decreases |terminal| - index
  {
    if index < |terminal| {
      if terminal[index] <= key {
        SkipSplits(terminal, index + 1, key);
      }
    }
  }

  lemma PlaceKeepsIndex(st: Projection, item: Item)
    ensures Place(st, item).terminalIndex == st.terminalIndex
  {
  }

  /** After `n` items the pass has passed exactly the terminal states up to the last of them. */
  lemma {:induction false} RunSplits(terminal: seq<nat>, items: seq<Item>, n: nat)
    requires Increasing(terminal) && KeysIncrease(items) && 0 < n <= |items|
    ensures SplitsAt(terminal, Run(terminal, EMPTY, items[..n]).terminalIndex, items[n - 1].key)
    decreases n
  {
    var before := Run(terminal, EMPTY, items[..n - 1]);
    RunSnoc(terminal, items, n - 1);
    PlaceKeepsIndex(Open(terminal, before, items[n - 1]), items[n - 1]);
    if n > 1 {
      RunSplits(terminal, items, n - 1);
      assert items[n - 2].key < items[n - 1].key;
    } else {
      assert items[..0] == [];
    }
    SkipSplits(terminal, before.terminalIndex, items[n - 1].key);
  }

  lemma ReadySplits(terminal: seq<nat>, items: seq<Item>, k: nat)
    requires Increasing(terminal) && KeysIncrease(items) && k < |items|
    ensures SplitsAt(terminal, ProjectionTheorems.Ready(terminal, items, k).terminalIndex, items[k].key)
  {
    RunSplits(terminal, items, k + 1);
    RunSnoc(terminal, items, k);
    PlaceKeepsIndex(ProjectionTheorems.Ready(terminal, items, k), items[k]);
  }

  lemma BoundaryIff(terminal: seq<nat>, index: nat, from: nat, item: Item)
    requires Increasing(terminal) && SplitsAt(terminal, index, from)
    ensures Boundary(terminal, index, item) <==> EndsBy(terminal, from, item)
  {
    if index < |terminal| && terminal[index] <= item.key {
      assert terminal[index] in terminal;
    }
    if t :| t in terminal && from < t <= item.key {
      var x :| 0 <= x < |terminal| && terminal[x] == t;
      assert index <= x;
    }
  }

  // ---------------------------------------------------------------- how calls end

  /** After this item nothing can be put to, or answer, the call with this id made at `from`. */
  ghost predicate StopsAt(terminal: seq<nat>, from: nat, id: string, item: Item) {
    EndsBy(terminal, from, item) || Answers(item, id) || TakesId(item, id)
  }

  /** The items from the call at `k` up to `e` leave it open, and item `e`, if there is one, stops it. */
  ghost predicate OpenUntil(terminal: seq<nat>, items: seq<Item>, k: nat, id: string, e: nat)
    requires k < |items|
  {
    && k < e <= |items|
    && (forall m | k < m < e :: !StopsAt(terminal, items[k].key, id, items[m]))
    && (e < |items| ==> StopsAt(terminal, items[k].key, id, items[e]))
  }

  /** A terminal state comes after the call, or a message that is no hand-off. */
  ghost predicate TurnCloses(terminal: seq<nat>, items: seq<Item>, k: nat)
    requires k < |items|
  {
    (exists t :: t in terminal && t > items[k].key) || exists m :: k < m < |items| && EndsTurn(items[m])
  }

  lemma ClosedIff(terminal: seq<nat>, items: seq<Item>, k: nat)
    requires Increasing(terminal) && KeysIncrease(items) && k < |items|
    ensures Closed(terminal, ProjectionTheorems.Ready(terminal, items, k).terminalIndex, items[k + 1..])
            <==> TurnCloses(terminal, items, k)
  {
    var rest := items[k + 1..];
    var index := ProjectionTheorems.Ready(terminal, items, k).terminalIndex;
    ReadySplits(terminal, items, k);
    if index < |terminal| {
      assert terminal[index] in terminal;
    }
    if t :| t in terminal && t > items[k].key {
      var x :| 0 <= x < |terminal| && terminal[x] == t;
      assert index <= x;
    }
    if m :| 0 <= m < |rest| && Boundary(terminal, index, rest[m]) {
      BoundaryIff(terminal, index, items[k].key, rest[m]);
      assert rest[m] == items[k + 1 + m];
    }
    if m :| k < m < |items| && EndsTurn(items[m]) {
      assert rest[m - k - 1] == items[m];
    }
  }

  lemma WindowIs(terminal: seq<nat>, items: seq<Item>, k: nat, id: string, n: nat)
    requires Increasing(terminal) && KeysIncrease(items) && k < |items|
    requires IsWindow(terminal, ProjectionTheorems.Ready(terminal, items, k).terminalIndex, id, items[k + 1..], n)
    ensures OpenUntil(terminal, items, k, id, k + 1 + n)
  {
    var rest := items[k + 1..];
    var index := ProjectionTheorems.Ready(terminal, items, k).terminalIndex;
    ReadySplits(terminal, items, k);
    forall m | k < m < |items|
      ensures Boundary(terminal, index, items[m]) <==> EndsBy(terminal, items[k].key, items[m])
    {
      BoundaryIff(terminal, index, items[k].key, items[m]);
    }
    assert forall m | k < m < |items| :: items[m] == rest[m - k - 1];
  }

  /** The result at `e`, if that is what stops the call. */
  ghost function AnswerOf(terminal: seq<nat>, items: seq<Item>, k: nat, id: string, e: nat): (answer: Option<Item>)
    requires k < |items|
    ensures answer.Some? ==> Answers(answer.value, id)
  {
    if e < |items| && !EndsBy(terminal, items[k].key, items[e]) && Answers(items[e], id) then Some(items[e]) else None
  }

  /**
   * How the call at `k` ends, from the log alone. It is open up to item `e`: its result, the next call under its
   * id, or the end of its turn. The last approval or question about it before `e`, whether `e` is its result, and
   * whether its turn closes at all decide the status and output that the pass leaves.
   */
  lemma CallEndsByLog(terminal: seq<nat>, items: seq<Item>, k: nat) returns (e: nat, t: nat)
    requires Increasing(terminal) && KeysIncrease(items)
    requires k < |items| && IsCall(items[k]) && items[k].value.id != ""
    ensures var id := items[k].value.id;
      && OpenUntil(terminal, items, k, id, e)
      && t < |Project(terminal, items).tools|
      && EndsAs(NewTool(items[k]), LastAsk(items[k + 1..e], id), AnswerOf(terminal, items, k, id, e),
                TurnCloses(terminal, items, k), Project(terminal, items).tools[t])
  {
    var id, rest := items[k].value.id, items[k + 1..];
    var index := ProjectionTheorems.Ready(terminal, items, k).terminalIndex;
    var n := CallEnds(terminal, items, k);
    e, t := k + 1 + n, |ProjectionTheorems.Ready(terminal, items, k).tools|;
    WindowIs(terminal, items, k, id, n);
    ClosedIff(terminal, items, k);
    assert rest[..n] == items[k + 1..e];
    if e < |items| {
      ReadySplits(terminal, items, k);
      BoundaryIff(terminal, index, items[k].key, items[e]);
      assert rest[n] == items[e];
    }
  }

  // ---------------------------------------------------------------- which calls are pending

  /** Call `k` holds this id when the first `n` items have been placed. */
  ghost predicate HoldsId(terminal: seq<nat>, items: seq<Item>, k: nat, n: nat, id: string)
    requires n <= |items|
  {
    && k < n && IsCall(items[k]) && items[k].value.id == id
    && forall m | k < m < n :: !StopsAt(terminal, items[k].key, id, items[m])
  }

  ghost predicate IsHeld(terminal: seq<nat>, items: seq<Item>, n: nat, id: string)
    requires n <= |items|
  {
    id != "" && exists k: nat :: HoldsId(terminal, items, k, n, id)
  }

  /** The same once the boundary before item `n` has been handled. */
  ghost predicate StaysHeld(terminal: seq<nat>, items: seq<Item>, n: nat, id: string)
    requires n < |items|
  {
    id != "" && exists k: nat :: HoldsId(terminal, items, k, n, id) && !EndsBy(terminal, items[k].key, items[n])
  }

  /** Between the call and the last item placed there is no terminal state. */
  lemma SameBoundary(terminal: seq<nat>, items: seq<Item>, k: nat, n: nat, id: string)
    requires n < |items| && KeysIncrease(items) && HoldsId(terminal, items, k, n, id)
    ensures EndsBy(terminal, items[n - 1].key, items[n]) <==> EndsBy(terminal, items[k].key, items[n])
  {
    if k < n - 1 {
      assert !StopsAt(terminal, items[k].key, id, items[n - 1]);
      assert items[k].key < items[n - 1].key;
    }
  }

  lemma HoldsNext(terminal: seq<nat>, items: seq<Item>, k: nat, n: nat, id: string)
    requires n < |items| && k < n
    ensures HoldsId(terminal, items, k, n + 1, id)
            <==> HoldsId(terminal, items, k, n, id) && !StopsAt(terminal, items[k].key, id, items[n])
  {
  }

  lemma OpenPending(terminal: seq<nat>, items: seq<Item>, n: nat, id: string)
    requires Increasing(terminal) && KeysIncrease(items) && n < |items|
    requires id in Run(terminal, EMPTY, items[..n]).pending <==> IsHeld(terminal, items, n, id)
    ensures id in ProjectionTheorems.Ready(terminal, items, n).pending <==> StaysHeld(terminal, items, n, id)
  {
    var st := Run(terminal, EMPTY, items[..n]);
    if n > 0 {
      RunSplits(terminal, items, n);
      BoundaryIff(terminal, st.terminalIndex, items[n - 1].key, items[n]);
      forall k: nat | HoldsId(terminal, items, k, n, id)
        ensures EndsBy(terminal, items[n - 1].key, items[n]) <==> EndsBy(terminal, items[k].key, items[n])
      {
        SameBoundary(terminal, items, k, n, id);
      }
    } else {
      assert items[..0] == [];
    }
  }

  lemma PlacePending(st: Projection, item: Item, id: string)
    requires Valid(st)
    ensures id in Place(st, item).pending
            <==> id != "" && (TakesId(item, id) || (id in st.pending && !Answers(item, id)))
  {
  }

  lemma {:induction false} RunPending(terminal: seq<nat>, items: seq<Item>, n: nat, id: string)
    requires Increasing(terminal) && KeysIncrease(items) && n <= |items|
    ensures id in Run(terminal, EMPTY, items[..n]).pending <==> IsHeld(terminal, items, n, id)
    decreases n
  {
    if n == 0 {
      assert items[..0] == [];
    } else {
      var m := n - 1;
      RunPending(terminal, items, m, id);
      OpenPending(terminal, items, m, id);
      RunKeepsValid(terminal, EMPTY, items[..m]);
      OpenKeepsValid(terminal, Run(terminal, EMPTY, items[..m]), items[m]);
      PlacePending(ProjectionTheorems.Ready(terminal, items, m), items[m], id);
      RunSnoc(terminal, items, m);
      HeldNext(terminal, items, m, id);
    }
  }

  lemma HeldNext(terminal: seq<nat>, items: seq<Item>, n: nat, id: string)
    requires n < |items|
    ensures IsHeld(terminal, items, n + 1, id)
            <==> id != "" && (TakesId(items[n], id) || (StaysHeld(terminal, items, n, id) && !Answers(items[n], id)))
  {
    forall k: nat | k < n
      ensures HoldsId(terminal, items, k, n + 1, id)
              <==> HoldsId(terminal, items, k, n, id) && !StopsAt(terminal, items[k].key, id, items[n])
    {
      HoldsNext(terminal, items, k, n, id);
    }
    if TakesId(items[n], id) {
      assert HoldsId(terminal, items, n, n + 1, id);
    }
  }

  /**
   * When item `n` comes, an id is pending if and only if some call before it took the id and nothing in between
   * has answered it, taken the id over or ended the turn.
   */
  lemma PendingIff(terminal: seq<nat>, items: seq<Item>, n: nat, id: string)
    requires Increasing(terminal) && KeysIncrease(items) && n < |items|
    ensures id in ProjectionTheorems.Ready(terminal, items, n).pending <==> StaysHeld(terminal, items, n, id)
  {
    RunPending(terminal, items, n, id);
    OpenPending(terminal, items, n, id);
  }
}
