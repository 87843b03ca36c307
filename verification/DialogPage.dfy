/**
 * Dialogs on a page: each dialog suspends the nodes around its own place, and leases on shared nodes are
 * counted. This puts the climb of Suspension and the leases of Modal together.
 */
module DialogPage {
  import opened Suspension
  import opened Modal

  /** The page does not change during a run: every node has a number and every dialog a place. */
  datatype Layout = Layout(shape: Shape, number: Path -> Node, place: nat -> Path)

  ghost predicate Numbered(l: Layout) {
    forall a: Path, b: Path :: l.number(a) == l.number(b) ==> a == b
  }

  function Numbers(l: Layout, paths: seq<Path>): (nodes: seq<Node>)
    ensures |nodes| == |paths| && forall i | 0 <= i < |paths| :: nodes[i] == l.number(paths[i])
  {
    seq(|paths|, i requires 0 <= i < |paths| => l.number(paths[i]))
  }

  /** What a dialog leases when it opens. */
  function Around(l: Layout, dialog: nat): seq<Node> {
    Numbers(l, Suspended(l.shape, l.place(dialog)))
  }

  /** Every dialog of the run leases what is around its place. */
  ghost predicate Placed(l: Layout, ops: seq<Op>) {
    forall i | 0 <= i < |ops| && ops[i].Opened? :: ops[i].nodes == Around(l, ops[i].dialog)
  }

  lemma NumbersHas(l: Layout, paths: seq<Path>, path: Path)
    requires Numbered(l)
    ensures l.number(path) in Numbers(l, paths) <==> path in paths
  {
    if path in paths {
      var i :| 0 <= i < |paths| && paths[i] == path;
      assert Numbers(l, paths)[i] == l.number(path);
    }
  }

  /** A dialog that is not open may always be opened at its place. */
  lemma OpeningIsEnabled(l: Layout, p: Page, dialog: nat)
    requires Numbered(l) && dialog !in p.stack
    ensures Modal.Enabled(p, Opened(dialog, Around(l, dialog)))
  {
    SuspendedDistinct(l.shape, l.place(dialog));
  }

  lemma StepLeases(l: Layout, p: Page, op: Op)
    requires Modal.Enabled(p, op) && (op.Opened? ==> op.nodes == Around(l, op.dialog))
    requires forall d | d in p.leases :: p.leases[d] == Around(l, d)
    ensures forall d | d in Modal.Next(p, op).leases :: Modal.Next(p, op).leases[d] == Around(l, d)
  {
    match op
    case Opened(dialog, nodes) => LeaseAllKeeps(p, nodes);
    case Closed(dialog) => ReleaseAllKeeps(p, p.leases[dialog]);
  }

  lemma {:induction false} LeasesAreAround(l: Layout, pages: seq<Page>, ops: seq<Op>, n: nat)
    requires Modal.Run(pages, ops) && Placed(l, ops) && n <= |ops|
    requires pages[0].leases == map[]
    ensures forall d | d in pages[n].leases :: pages[n].leases[d] == Around(l, d)
    decreases n
  {
    if n > 0 {
      LeasesAreAround(l, pages, ops, n - 1);
      assert pages[n - 1 + 1] == Modal.Next(pages[n - 1], ops[n - 1]);
      StepLeases(l, pages[n - 1], ops[n - 1]);
    }
  }

  /** A node or one of its ancestors is inert. */
  ghost predicate Unreachable(l: Layout, inert: set<Node>, node: Path) {
    exists k :: 0 <= k <= |node| && InertAt(l, inert, node, k)
  }

  ghost predicate InertAt(l: Layout, inert: set<Node>, node: Path, k: nat)
    requires k <= |node|
  {
    l.number(node[..k]) in inert
  }

  lemma HeldIsSuspended(l: Layout, p: Page, d: nat, path: Path)
    requires Numbered(l) && d in p.leases && p.leases[d] == Around(l, d)
    ensures l.number(path) in p.leases[d] <==> path in Suspended(l.shape, l.place(d))
  {
    NumbersHas(l, Suspended(l.shape, l.place(d)), path);
  }

  /** An open dialog suspends this prefix of the node. */
  ghost predicate CutAtPrefix(l: Layout, p: Page, node: Path, k: nat)
    requires k <= |node|
  {
    exists d :: d in p.stack && node[..k] in Suspended(l.shape, l.place(d))
  }

  lemma InertIff(l: Layout, pages: seq<Page>, ops: seq<Op>, base: set<Node>, node: Path, k: nat)
    requires Numbered(l) && Modal.Run(pages, ops) && Placed(l, ops) && pages[0] == Page([], map[], base, map[])
    requires k <= |node|
    ensures InertAt(l, pages[|ops|].inert, node, k)
            <==> InertAt(l, base, node, k) || CutAtPrefix(l, pages[|ops|], node, k)
  {
    var p := pages[|ops|];
    LeasesAreAround(l, pages, ops, |ops|);
    LeasesRestoreThePage(pages, ops, base, l.number(node[..k]));
    Modal.RunKeepsInv(pages, ops, base);
    forall d | d in p.stack
      ensures d in p.leases
      ensures l.number(node[..k]) in p.leases[d] <==> node[..k] in Suspended(l.shape, l.place(d))
    {
      HeldIsSuspended(l, p, d, node[..k]);
    }
  }

  /**
   * After any run of dialogs opened and closed in any order a node of the page cannot be reached if and only if it
   * could not be reached before the first dialog, or one of the dialogs still open cuts it off.
   */
  lemma OpenDialogsCutOff(l: Layout, pages: seq<Page>, ops: seq<Op>, base: set<Node>, node: Path)
    requires Numbered(l) && Modal.Run(pages, ops) && Placed(l, ops) && pages[0] == Page([], map[], base, map[])
    ensures Unreachable(l, pages[|ops|].inert, node)
            <==> Unreachable(l, base, node)
                 || exists d :: d in pages[|ops|].stack && Cut(l.shape, l.place(d), node)
  {
    var p := pages[|ops|];
    if k :| 0 <= k <= |node| && InertAt(l, p.inert, node, k) {
      InertIff(l, pages, ops, base, node, k);
    }
    if k :| 0 <= k <= |node| && InertAt(l, base, node, k) {
      InertIff(l, pages, ops, base, node, k);
    }
    if d :| d in p.stack && Cut(l.shape, l.place(d), node) {
      var k :| 0 <= k <= |node| && node[..k] in Suspended(l.shape, l.place(d));
      InertIff(l, pages, ops, base, node, k);
    }
  }
}
