/**
 * Modal dialogs suspend the page around them. Several dialogs may suspend the same node, so each node
 * counts its leases and regains its own state when the last dialog that suspended it closes.
 */
module Modal {
  import opened Sequences

  /** Page elements, numbered. */
  type Node = nat

  datatype Owner = Owner(count: nat, previous: bool)

  /** `leases` is what each open dialog suspended, kept by its clean-up function. */
  datatype Page = Page(stack: seq<nat>, owners: map<Node, Owner>, inert: set<Node>, leases: map<nat, seq<Node>>)

  // ---------------------------------------------------------------- one node

  function Lease(p: Page, n: Node): Page {
    var owner := if n in p.owners then p.owners[n] else Owner(0, n in p.inert);
    p.(owners := p.owners[n := owner.(count := owner.count + 1)], inert := p.inert + {n})
  }

  /** The last release gives the node its earlier state back, unless something else has cleared it. */
  function Release(p: Page, n: Node): Page
    requires n in p.owners && p.owners[n].count > 0
  {
    var owner := p.owners[n];
    if owner.count == 1 then
      p.(owners := p.owners - {n}, inert := if n in p.inert && !owner.previous then p.inert - {n} else p.inert)
    else p.(owners := p.owners[n := owner.(count := owner.count - 1)])
  }

  function LeaseAll(p: Page, nodes: seq<Node>): Page {
    if nodes == [] then p else Lease(LeaseAll(p, nodes[..|nodes| - 1]), nodes[|nodes| - 1])
  }

  ghost predicate Leased(p: Page, nodes: seq<Node>) {
    Distinct(nodes) && forall n | n in nodes :: n in p.owners && p.owners[n].count > 0
  }

  function ReleaseAll(p: Page, nodes: seq<Node>): (r: Page)
    requires Leased(p, nodes)
    ensures forall n | n !in nodes ::
              (n in r.owners <==> n in p.owners) && (n in p.owners ==> r.owners[n] == p.owners[n])
  {
    if nodes == [] then p
    else
      var front, last := nodes[..|nodes| - 1], nodes[|nodes| - 1];
      assert nodes == front + [last];
      Release(ReleaseAll(p, front), last)
  }

  // ---------------------------------------------------------------- dialogs

  function Open(p: Page, dialog: nat, nodes: seq<Node>): Page {
    LeaseAll(p, nodes).(stack := p.stack + [dialog], leases := p.leases[dialog := nodes])
  }

  function Without(s: seq<nat>, x: nat): seq<nat>
    requires x in s
  {
    var i := IndexOf(s, x);
    s[..i] + s[i + 1..]
  }

  lemma WithoutIs(s: seq<nat>, x: nat)
    requires x in s && Distinct(s)
    ensures Distinct(Without(s, x)) && forall d :: d in Without(s, x) <==> d in s && d != x
  {
    var i := IndexOf(s, x);
    assert s == s[..i] + [x] + s[i + 1..];
  }

  function Close(p: Page, dialog: nat): Page
    requires dialog in p.stack && dialog in p.leases && Leased(p, p.leases[dialog])
  {
    ReleaseAll(p, p.leases[dialog]).(stack := Without(p.stack, dialog), leases := p.leases - {dialog})
  }

  // ---------------------------------------------------------------- invariant

  /** How many of these dialogs suspended the node. */
  function Holders(dialogs: seq<nat>, leases: map<nat, seq<Node>>, n: Node): nat {
    if dialogs == [] then 0
    else
      Holders(dialogs[1..], leases, n)
      + (if dialogs[0] in leases && n in leases[dialogs[0]] then 1 else 0)
  }

  function CountOf(p: Page, n: Node): nat {
    if n in p.owners then p.owners[n].count else 0
  }

  /** `base` holds the nodes that are inert by themselves. */
  ghost predicate Inv(p: Page, base: set<Node>) {
    && Distinct(p.stack)
    && (forall d :: d in p.stack <==> d in p.leases)
    && (forall d | d in p.leases :: Distinct(p.leases[d]))
    && (forall n :: CountOf(p, n) == Holders(p.stack, p.leases, n))
    && (forall n | n in p.owners :: p.owners[n].count > 0 && p.owners[n].previous == (n in base))
    && p.inert == base + p.owners.Keys
  }

  lemma {:induction false} HoldersFrame(dialogs: seq<nat>, a: map<nat, seq<Node>>, b: map<nat, seq<Node>>, n: Node)
    requires forall d | d in dialogs :: (d in a <==> d in b) && (d in a ==> a[d] == b[d])
    ensures Holders(dialogs, a, n) == Holders(dialogs, b, n)
  {
    if dialogs != [] {
      HoldersFrame(dialogs[1..], a, b, n);
    }
  }

  lemma {:induction false} HoldersAppend(a: seq<nat>, b: seq<nat>, leases: map<nat, seq<Node>>, n: Node)
    ensures Holders(a + b, leases, n) == Holders(a, leases, n) + Holders(b, leases, n)
  {
    if a == [] {
      assert a + b == b;
    } else {
      assert (a + b)[1..] == a[1..] + b;
      HoldersAppend(a[1..], b, leases, n);
    }
  }

  /** A holder is counted: a suspended node of an open dialog has a positive count. */
  lemma {:induction false} HolderCounts(dialogs: seq<nat>, leases: map<nat, seq<Node>>, d: nat, n: Node)
    requires d in dialogs && d in leases && n in leases[d]
    ensures Holders(dialogs, leases, n) > 0
  {
    if dialogs[0] != d {
      HolderCounts(dialogs[1..], leases, d, n);
    }
  }

  lemma {:induction false} LeaseAllIs(p: Page, nodes: seq<Node>, base: set<Node>)
    requires Distinct(nodes)
    requires forall n | n in p.owners :: p.owners[n].previous == (n in base)
    requires p.inert == base + p.owners.Keys
    ensures var r := LeaseAll(p, nodes);
      && (forall n :: CountOf(r, n) == CountOf(p, n) + (if n in nodes then 1 else 0))
      && (forall n | n in r.owners :: r.owners[n].previous == (n in base) && (n in p.owners || r.owners[n].count > 0))
      && r.inert == base + r.owners.Keys
  {
    if nodes != [] {
      var front, last := nodes[..|nodes| - 1], nodes[|nodes| - 1];
      LeaseAllIs(p, front, base);
      assert nodes == front + [last];
    }
  }

  lemma {:induction false} LeaseAllKeeps(p: Page, nodes: seq<Node>)
    ensures LeaseAll(p, nodes).stack == p.stack && LeaseAll(p, nodes).leases == p.leases
  {
    if nodes != [] {
      LeaseAllKeeps(p, nodes[..|nodes| - 1]);
    }
  }

  lemma ReleaseIs(p: Page, n: Node, base: set<Node>)
    requires n in p.owners
    requires forall m | m in p.owners :: p.owners[m].count > 0 && p.owners[m].previous == (m in base)
    requires p.inert == base + p.owners.Keys
    ensures var r := Release(p, n);
      && CountOf(r, n) == CountOf(p, n) - 1
      && (forall m | m != n :: CountOf(r, m) == CountOf(p, m))
      && (forall m | m in r.owners :: r.owners[m].count > 0 && r.owners[m].previous == (m in base))
      && r.inert == base + r.owners.Keys
  {
  }

  lemma {:induction false} ReleaseAllIs(p: Page, nodes: seq<Node>, base: set<Node>)
    requires Leased(p, nodes)
    requires forall n | n in p.owners :: p.owners[n].count > 0 && p.owners[n].previous == (n in base)
    requires p.inert == base + p.owners.Keys
    ensures var r := ReleaseAll(p, nodes);
      && (forall n :: CountOf(r, n) == CountOf(p, n) - (if n in nodes then 1 else 0))
      && (forall n | n in r.owners :: r.owners[n].count > 0 && r.owners[n].previous == (n in base))
      && r.inert == base + r.owners.Keys
  {
    if nodes != [] {
      var front, last := nodes[..|nodes| - 1], nodes[|nodes| - 1];
      assert nodes == front + [last];
      ReleaseAllIs(p, front, base);
      ReleaseIs(ReleaseAll(p, front), last, base);
    }
  }

  lemma {:induction false} ReleaseAllKeeps(p: Page, nodes: seq<Node>)
    requires Leased(p, nodes)
    ensures ReleaseAll(p, nodes).stack == p.stack && ReleaseAll(p, nodes).leases == p.leases
  {
    if nodes != [] {
      ReleaseAllKeeps(p, nodes[..|nodes| - 1]);
    }
  }

  // ---------------------------------------------------------------- every run

  lemma OpenKeepsInv(p: Page, dialog: nat, nodes: seq<Node>, base: set<Node>)
    requires Inv(p, base) && dialog !in p.stack && Distinct(nodes)
    ensures Inv(Open(p, dialog, nodes), base)
  {
    var r := Open(p, dialog, nodes);
    LeaseAllIs(p, nodes, base);
    forall n ensures CountOf(r, n) == Holders(r.stack, r.leases, n) {
      HoldersAppend(p.stack, [dialog], r.leases, n);
      HoldersFrame(p.stack, p.leases, r.leases, n);
      assert Holders([], r.leases, n) == 0;
    }
    forall n | n in r.owners ensures r.owners[n].count > 0 {
      assert CountOf(r, n) == CountOf(p, n) + (if n in nodes then 1 else 0);
    }
  }

  lemma OpenDialogsAreLeased(p: Page, dialog: nat, base: set<Node>)
    requires Inv(p, base) && dialog in p.stack
    ensures dialog in p.leases && Leased(p, p.leases[dialog])
  {
    forall n | n in p.leases[dialog] ensures n in p.owners {
      HolderCounts(p.stack, p.leases, dialog, n);
      assert CountOf(p, n) > 0;
    }
  }

  lemma HoldersWithout(p: Page, dialog: nat, base: set<Node>, n: Node)
    requires Inv(p, base) && dialog in p.stack
    ensures Holders(Without(p.stack, dialog), p.leases - {dialog}, n)
            == Holders(p.stack, p.leases, n) - (if n in p.leases[dialog] then 1 else 0)
  {
    var i := IndexOf(p.stack, dialog);
    var before, after, fewer := p.stack[..i], p.stack[i + 1..], p.leases - {dialog};
    assert p.stack == before + ([dialog] + after);
    HoldersAppend(before, [dialog] + after, p.leases, n);
    HoldersAppend([dialog], after, p.leases, n);
    assert Holders([], p.leases, n) == 0;
    HoldersAppend(before, after, fewer, n);
    HoldersFrame(before, p.leases, fewer, n);
    HoldersFrame(after, p.leases, fewer, n);
  }

  lemma CloseKeepsInv(p: Page, dialog: nat, base: set<Node>)
    requires Inv(p, base) && dialog in p.stack
    ensures dialog in p.leases && Leased(p, p.leases[dialog]) && Inv(Close(p, dialog), base)
  {
    OpenDialogsAreLeased(p, dialog, base);
    var r := Close(p, dialog);
    ReleaseAllIs(p, p.leases[dialog], base);
    WithoutIs(p.stack, dialog);
    forall n ensures CountOf(r, n) == Holders(r.stack, r.leases, n) {
      HoldersWithout(p, dialog, base, n);
    }
  }

  datatype Op = Opened(dialog: nat, nodes: seq<Node>) | Closed(dialog: nat)

  ghost predicate Enabled(p: Page, op: Op) {
    match op
    case Opened(dialog, nodes) => dialog !in p.stack && Distinct(nodes)
    case Closed(dialog) => dialog in p.stack && dialog in p.leases && Leased(p, p.leases[dialog])
  }

  ghost function Next(p: Page, op: Op): Page
    requires Enabled(p, op)
  {
    match op
    case Opened(dialog, nodes) => Open(p, dialog, nodes)
    case Closed(dialog) => Close(p, dialog)
  }

  ghost predicate Run(pages: seq<Page>, ops: seq<Op>) {
    && |pages| == |ops| + 1
    && forall i | 0 <= i < |ops| :: Enabled(pages[i], ops[i]) && pages[i + 1] == Next(pages[i], ops[i])
  }

  lemma {:induction false} RunKeepsInv(pages: seq<Page>, ops: seq<Op>, base: set<Node>)
    requires Run(pages, ops) && Inv(pages[0], base)
    ensures Inv(pages[|ops|], base)
    decreases |ops|
  {
    if ops != [] {
      assert pages[1] == Next(pages[0], ops[0]);
      match ops[0] {
        case Opened(dialog, nodes) => OpenKeepsInv(pages[0], dialog, nodes, base);
        case Closed(dialog) => CloseKeepsInv(pages[0], dialog, base);
      }
      assert forall i | 0 <= i < |ops| - 1 :: ops[1..][i] == ops[i + 1];
      RunKeepsInv(pages[1..], ops[1..], base);
    }
  }

  /**
   * Dialogs opened and closed in any order: at every moment a node is inert exactly if it was so by itself
   * or an open dialog suspends it, its count is the number of those dialogs, and after the last dialog
   * closes the page is exactly as before the first opened.
   */
  lemma LeasesRestoreThePage(pages: seq<Page>, ops: seq<Op>, base: set<Node>, n: Node)
    requires Run(pages, ops) && pages[0] == Page([], map[], base, map[])
    ensures var p := pages[|ops|];
      && CountOf(p, n) == Holders(p.stack, p.leases, n)
      && (n in p.inert <==> n in base || exists d :: d in p.stack && d in p.leases && n in p.leases[d])
      && (p.stack == [] ==> p.inert == base && p.owners == map[])
  {
    RunKeepsInv(pages, ops, base);
    var p := pages[|ops|];
    HoldersIsSome(p.stack, p.leases, n);
    if p.stack == [] {
      forall m ensures m !in p.owners {
        assert CountOf(p, m) == 0;
      }
    }
  }

  lemma {:induction false} HoldersIsSome(dialogs: seq<nat>, leases: map<nat, seq<Node>>, n: Node)
    ensures Holders(dialogs, leases, n) > 0 <==> exists d :: d in dialogs && d in leases && n in leases[d]
  {
    if dialogs != [] {
      HoldersIsSome(dialogs[1..], leases, n);
    }
  }

  // ---------------------------------------------------------------- the page

  /** The module-level stack and owner map, and the inert flags of the page's nodes. */
  class ModalPage {
    var stack: seq<nat>
    var owners: map<Node, Owner>
    const inert: array<bool>
    ghost var leases: map<nat, seq<Node>>

    ghost function InertNodes(): set<Node>
      reads inert
    {
      set n | 0 <= n < inert.Length && inert[n]
    }

    ghost function State(): Page
      reads this, inert
    {
      Page(stack, owners, InertNodes(), leases)
    }

    constructor (inert: array<bool>)
      ensures this.inert == inert && stack == [] && owners == map[] && leases == map[]
    {
      this.inert, stack, owners, leases := inert, [], map[], map[];
    }

    method LeaseNode(n: Node)
      requires n < inert.Length
      modifies this`owners, inert
      ensures State() == Lease(old(State()), n)
    {
      var owner := if n in owners then owners[n] else Owner(0, inert[n]);
      owners := owners[n := owner.(count := owner.count + 1)];
      inert[n] := true;
    }

    method ReleaseNode(n: Node)
      requires n < inert.Length && n in owners && owners[n].count > 0
      modifies this`owners, inert
      ensures State() == Release(old(State()), n)
    {
      var owner := owners[n];
      var count := owner.count - 1;
      owners := owners[n := owner.(count := count)];
      if count == 0 {
        if inert[n] {
          inert[n] := owner.previous;
        }
        owners := owners - {n};
      }
    }

    method LeaseNodes(nodes: seq<Node>)
      requires forall n | n in nodes :: n < inert.Length
      modifies this`owners, inert
      ensures State() == LeaseAll(old(State()), nodes)
    {
      for i := 0 to |nodes|
        invariant State() == LeaseAll(old(State()), nodes[..i])
      {
        assert nodes[..i + 1][..i] == nodes[..i] && nodes[i] in nodes;
        LeaseNode(nodes[i]);
      }
      assert nodes[..|nodes|] == nodes;
    }

    method ReleaseNodes(nodes: seq<Node>)
      requires forall n | n in nodes :: n < inert.Length
      requires Leased(State(), nodes)
      modifies this`owners, inert
      ensures State() == ReleaseAll(old(State()), nodes)
    {
      for i := 0 to |nodes|
        invariant Leased(old(State()), nodes[..i])
        invariant State() == ReleaseAll(old(State()), nodes[..i])
      {
        assert nodes[..i + 1][..i] == nodes[..i] && nodes[i] in nodes && nodes[i] !in nodes[..i];
        ReleaseNode(nodes[i]);
      }
      assert nodes[..|nodes|] == nodes;
    }

    method OpenDialog(dialog: nat, nodes: seq<Node>)
      requires forall n | n in nodes :: n < inert.Length
      modifies this, inert
      ensures State() == Open(old(State()), dialog, nodes)
    {
      stack := stack + [dialog];
      LeaseAllCommutes(old(State()), State(), nodes);
      LeaseAllKeeps(old(State()), nodes);
      LeaseNodes(nodes);
      leases := leases[dialog := nodes];
    }

    /** The clean-up of a dialog; `nodes` is what its own opening suspended. */
    method CloseDialog(dialog: nat, nodes: seq<Node>)
      requires forall n | n in nodes :: n < inert.Length
      requires dialog in stack && dialog in leases && leases[dialog] == nodes && Leased(State(), nodes)
      modifies this, inert
      ensures State() == Close(old(State()), dialog)
    {
      var at := IndexOf(stack, dialog);
      stack := stack[..at] + stack[at + 1..];
      ReleaseAllCommutes(old(State()), State(), nodes);
      ReleaseAllKeeps(old(State()), nodes);
      ReleaseNodes(nodes);
      leases := leases - {dialog};
    }
  }

  /** Leasing does not look at the stack. */
  lemma {:induction false} LeaseAllCommutes(a: Page, b: Page, nodes: seq<Node>)
    requires b == a.(stack := b.stack)
    ensures LeaseAll(b, nodes) == LeaseAll(a, nodes).(stack := b.stack)
  {
    if nodes != [] {
      LeaseAllCommutes(a, b, nodes[..|nodes| - 1]);
    }
  }

  lemma {:induction false} ReleaseAllCommutes(a: Page, b: Page, nodes: seq<Node>)
    requires b == a.(stack := b.stack) && Leased(a, nodes)
    ensures Leased(b, nodes) && ReleaseAll(b, nodes) == ReleaseAll(a, nodes).(stack := b.stack)
  {
    if nodes != [] {
      ReleaseAllCommutes(a, b, nodes[..|nodes| - 1]);
    }
  }
}
