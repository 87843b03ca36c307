/** Which dialogs are open, in which order, and what each of them holds, told from the openings and closings alone. */
module OpenDialogs {
  import opened Sequences
  import opened Modal

  /** The dialog was opened by operation `i` and has not been closed by any of the first `n` since. */
  ghost predicate OpenSince(ops: seq<Op>, n: nat, i: nat, dialog: nat)
    requires n <= |ops|
  {
    && i < n && ops[i].Opened? && ops[i].dialog == dialog
    && forall j | i < j < n :: ops[j] != Closed(dialog)
  }

  /** The k-th dialog of the stack has been open since operation `since[k]`. */
  ghost predicate StandsAt(ops: seq<Op>, n: nat, p: Page, since: seq<nat>, k: nat)
    requires n <= |ops| && k < |since| == |p.stack|
  {
    && OpenSince(ops, n, since[k], p.stack[k])
    && p.stack[k] in p.leases && p.leases[p.stack[k]] == ops[since[k]].nodes
  }

  ghost predicate Increasing(since: seq<nat>) {
    forall a, b | 0 <= a < b < |since| :: since[a] < since[b]
  }

  /** The stack holds the open dialogs, the one opened first at the bottom, and each its own nodes. */
  ghost predicate IsStack(ops: seq<Op>, n: nat, p: Page, since: seq<nat>)
    requires n <= |ops|
  {
    && |since| == |p.stack| && Increasing(since)
    && (forall k: nat | k < |since| :: StandsAt(ops, n, p, since, k))
    && (forall d, i | OpenSince(ops, n, i, d) :: d in p.stack)
  }

  lemma OpenNext(ops: seq<Op>, n: nat, i: nat, d: nat)
    requires n < |ops|
    ensures OpenSince(ops, n + 1, i, d)
            <==> (OpenSince(ops, n, i, d) && ops[n] != Closed(d))
                 || (i == n && ops[n].Opened? && ops[n].dialog == d)
  {
  }

  lemma OpenedOne(ops: seq<Op>, n: nat, next: nat, p: Page, since: seq<nat>) returns (later: seq<nat>)
    requires n < |ops| && next == n + 1
    requires ops[n].Opened? && IsStack(ops, n, p, since) && Enabled(p, ops[n])
    ensures IsStack(ops, next, Next(p, ops[n]), later)
  {
    var r := Next(p, ops[n]);
    LeaseAllKeeps(p, ops[n].nodes);
    later := since + [n];
    forall k: nat | k < |later| ensures StandsAt(ops, next, r, later, k) {
      OpenNext(ops, n, later[k], r.stack[k]);
      if k < |since| {
        assert StandsAt(ops, n, p, since, k);
      }
    }
    forall a, b | 0 <= a < b < |later| ensures later[a] < later[b] {
      assert StandsAt(ops, n, p, since, a);
    }
    forall d, i | OpenSince(ops, next, i, d) ensures d in r.stack {
      OpenNext(ops, n, i, d);
    }
  }

  lemma IncreasingWithout(since: seq<nat>, i: nat)
    requires Increasing(since) && i < |since|
    ensures Increasing(since[..i] + since[i + 1..])
  {
  }

  lemma StaysAt(ops: seq<Op>, n: nat, next: nat, p: Page, since: seq<nat>, was: nat, r: Page, later: seq<nat>, k: nat)
    requires n < |ops| && next == n + 1 && was < |since| == |p.stack| && k < |later| == |r.stack|
    requires StandsAt(ops, n, p, since, was) && ops[n] != Closed(p.stack[was])
    requires later[k] == since[was] && r.stack[k] == p.stack[was]
    requires p.stack[was] in r.leases && r.leases[p.stack[was]] == p.leases[p.stack[was]]
    ensures StandsAt(ops, next, r, later, k)
  {
    OpenNext(ops, n, later[k], r.stack[k]);
  }

  lemma ClosedOne(ops: seq<Op>, n: nat, next: nat, p: Page, since: seq<nat>) returns (later: seq<nat>)
    requires n < |ops| && next == n + 1
    requires ops[n].Closed? && IsStack(ops, n, p, since) && Distinct(p.stack) && Enabled(p, ops[n])
    ensures IsStack(ops, next, Next(p, ops[n]), later)
  {
    var r, dialog := Next(p, ops[n]), ops[n].dialog;
    var i := IndexOf(p.stack, dialog);
    ReleaseAllKeeps(p, p.leases[dialog]);
    WithoutIs(p.stack, dialog);
    later := since[..i] + since[i + 1..];
    IncreasingWithout(since, i);
    forall k: nat | k < |later| ensures StandsAt(ops, next, r, later, k) {
      var was := if k < i then k else k + 1;
      StaysAt(ops, n, next, p, since, was, r, later, k);
    }
    forall d, j | OpenSince(ops, next, j, d) ensures d in r.stack {
      OpenNext(ops, n, j, d);
    }
  }

  /**
   * In every run the stack holds exactly the dialogs that were opened and not closed since, in the order in which
   * they were opened, and each holds the nodes it was opened with: the top one is the one opened last.
   */
  lemma {:induction false} StackIsOpenDialogs(pages: seq<Page>, ops: seq<Op>, base: set<Node>, n: nat)
    returns (since: seq<nat>)
    requires Run(pages, ops) && pages[0] == Page([], map[], base, map[]) && n <= |ops|
    ensures IsStack(ops, n, pages[n], since)
    decreases n
  {
    if n == 0 {
      since := [];
    } else {
      since := StackIsOpenDialogs(pages, ops, base, n - 1);
      assert pages[n - 1 + 1] == Next(pages[n - 1], ops[n - 1]);
      if ops[n - 1].Opened? {
        since := OpenedOne(ops, n - 1, n, pages[n - 1], since);
      } else {
        StackIsDistinct(pages, ops, base, n - 1);
        since := ClosedOne(ops, n - 1, n, pages[n - 1], since);
      }
    }
  }

  lemma StackIsDistinct(pages: seq<Page>, ops: seq<Op>, base: set<Node>, n: nat)
    requires Run(pages, ops) && pages[0] == Page([], map[], base, map[]) && n <= |ops|
    ensures Distinct(pages[n].stack)
  {
    var p, o := pages[..n + 1], ops[..n];
    assert Run(p, o) by {
      forall i | 0 <= i < |o| ensures Enabled(p[i], o[i]) && p[i + 1] == Next(p[i], o[i]) {
        assert o[i] == ops[i];
      }
    }
    RunKeepsInv(p, o, base);
  }

  /** A dialog is open after a run if and only if it was opened and not closed since. */
  lemma OpenIff(pages: seq<Page>, ops: seq<Op>, base: set<Node>, dialog: nat)
    requires Run(pages, ops) && pages[0] == Page([], map[], base, map[])
    ensures dialog in pages[|ops|].stack <==> exists i: nat :: OpenSince(ops, |ops|, i, dialog)
  {
    var since := StackIsOpenDialogs(pages, ops, base, |ops|);
    if dialog in pages[|ops|].stack {
      var k: nat := IndexOf(pages[|ops|].stack, dialog);
      assert StandsAt(ops, |ops|, pages[|ops|], since, k);
    }
  }
}
