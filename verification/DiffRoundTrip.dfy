/**
 * Printing an edit script as a unified diff (POSIX.1-2017, utility diff, section "Diff -u or -U Output
 * Format") and reading it back: every line comes back with its text, and its numbers name that very line
 * of the two files.
 */
module DiffRoundTrip {
  import opened Options
  import opened Text
  import opened GitDiff
  import opened Sequences

  // ---------------------------------------------------------------- edit scripts

  datatype Op = Keep(text: string) | Delete(text: string) | Insert(text: string) | NoNewline

  /** Lines the diff leaves out, or a hunk with the text after its header. */
  datatype Piece = Skip(lines: seq<string>) | Hunk(ops: seq<Op>, heading: string)

  function OldText(op: Op): seq<string> {
    match op
    case Keep(t) => [t]
    case Delete(t) => [t]
    case _ => []
  }

  function NewText(op: Op): seq<string> {
    match op
    case Keep(t) => [t]
    case Insert(t) => [t]
    case _ => []
  }

  function OldOf(ops: seq<Op>): seq<string> {
    if ops == [] then [] else OldOf(ops[..|ops| - 1]) + OldText(ops[|ops| - 1])
  }

  function NewOf(ops: seq<Op>): seq<string> {
    if ops == [] then [] else NewOf(ops[..|ops| - 1]) + NewText(ops[|ops| - 1])
  }

  function OldPiece(piece: Piece): seq<string> {
    match piece
    case Skip(lines) => lines
    case Hunk(ops, _) => OldOf(ops)
  }

  function NewPiece(piece: Piece): seq<string> {
    match piece
    case Skip(lines) => lines
    case Hunk(ops, _) => NewOf(ops)
  }

  /** The file before the edit. */
  function OldFile(script: seq<Piece>): seq<string> {
    if script == [] then [] else OldPiece(script[0]) + OldFile(script[1..])
  }

  /** The file after the edit. */
  function NewFile(script: seq<Piece>): seq<string> {
    if script == [] then [] else NewPiece(script[0]) + NewFile(script[1..])
  }

  // ---------------------------------------------------------------- the printer

  const NO_NEWLINE := " No newline at end of file"

  function PrintOp(op: Op): string {
    match op
    case Keep(t) => [' '] + t
    case Delete(t) => ['-'] + t
    case Insert(t) => ['+'] + t
    case NoNewline => ['\\'] + NO_NEWLINE
  }

  function PrintOps(ops: seq<Op>): (raws: seq<string>)
    ensures |raws| == |ops| && forall i | 0 <= i < |ops| :: raws[i] == PrintOp(ops[i])
  {
    if ops == [] then [] else PrintOps(ops[..|ops| - 1]) + [PrintOp(ops[|ops| - 1])]
  }

  /** `before` lines precede the range; an empty range names the line before it, a single line omits its count. */
  function PrintRange(before: nat, count: nat): string {
    if count == 1 then ToDecimal(before + 1)
    else ToDecimal(StartOf(before, count)) + "," + ToDecimal(count)
  }

  function StartOf(before: nat, count: nat): nat {
    if count == 0 then before else before + 1
  }

  function PrintHeader(o: nat, n: nat, ops: seq<Op>, heading: string): string {
    "@@ -" + PrintRange(o, |OldOf(ops)|) + " +" + PrintRange(n, |NewOf(ops)|) + " @@" + heading
  }

  /** The lines of one piece, where `o` and `n` lines of the files come before it. */
  function PrintPiece(piece: Piece, o: nat, n: nat): seq<string> {
    match piece
    case Skip(_) => []
    case Hunk(ops, heading) => [PrintHeader(o, n, ops, heading)] + PrintOps(ops)
  }

  function PrintScript(script: seq<Piece>, o: nat, n: nat): seq<string>
    decreases |script|
  {
    if script == [] then []
    else
      PrintPiece(script[0], o, n)
      + PrintScript(script[1..], o + |OldPiece(script[0])|, n + |NewPiece(script[0])|)
  }

  // ---------------------------------------------------------------- what reading should give

  function ShownOp(op: Op, o: nat, n: nat): DiffLine {
    match op
    case Keep(t) => DiffLine(Context, t, Some(o + 1), Some(n + 1))
    case Delete(t) => DiffLine(Removed, t, Some(o + 1), None)
    case Insert(t) => DiffLine(Added, t, None, Some(n + 1))
    case NoNewline => DiffLine(Meta, PrintOp(op), None, None)
  }

  function ShownOps(ops: seq<Op>, o: nat, n: nat): seq<DiffLine>
    decreases |ops|
  {
    if ops == [] then []
    else
      var front, last := ops[..|ops| - 1], ops[|ops| - 1];
      ShownOps(front, o, n) + [ShownOp(last, o + |OldOf(front)|, n + |NewOf(front)|)]
  }

  function ShownPiece(piece: Piece, o: nat, n: nat): seq<DiffLine> {
    match piece
    case Skip(_) => []
    case Hunk(ops, heading) => [DiffLine(HunkHead, PrintHeader(o, n, ops, heading), None, None)] + ShownOps(ops, o, n)
  }

  function Shown(script: seq<Piece>, o: nat, n: nat): seq<DiffLine>
    decreases |script|
  {
    if script == [] then []
    else
      ShownPiece(script[0], o, n)
      + Shown(script[1..], o + |OldPiece(script[0])|, n + |NewPiece(script[0])|)
  }

  // ---------------------------------------------------------------- headers

  lemma SkipCountAfter(rest: string)
    requires rest != "" && rest[0] == ' '
    ensures SkipCount(rest) == rest
  {
  }

  lemma SkipCountOver(count: nat, rest: string)
    requires rest != "" && !IsDigit(rest[0])
    ensures SkipCount("," + ToDecimal(count) + rest) == rest
  {
    var text := "," + ToDecimal(count) + rest;
    assert text[1..] == ToDecimal(count) + rest;
    DigitRunOf(ToDecimal(count), rest);
  }

  lemma Regroup<T>(a: seq<T>, b: seq<T>, c: seq<T>, d: seq<T>)
    ensures (a + b + c) + d == a + (b + c + d)
  {
  }

  lemma StartReads(start: nat, tail: string, rest: string)
    requires tail != "" && !IsDigit(tail[0]) && SkipCount(tail) == rest
    ensures ParseStart(ToDecimal(start) + tail) == Some((start, rest))
  {
    var digits := ToDecimal(start);
    var text := digits + tail;
    DecimalRoundTrip(start);
    DigitRunOf(digits, tail);
    assert text[..|digits|] == digits && text[|digits|..] == tail;
  }

  /** Reading a printed range: its start, and then whatever follows. */
  lemma RangeReads(before: nat, count: nat, rest: string)
    requires rest != "" && rest[0] == ' '
    ensures ParseStart(PrintRange(before, count) + rest) == Some((StartOf(before, count), rest))
  {
    var start := StartOf(before, count);
    if count == 1 {
      SkipCountAfter(rest);
      StartReads(start, rest, rest);
    } else {
      SkipCountOver(count, rest);
      StartReads(start, "," + ToDecimal(count) + rest, rest);
      Regroup(ToDecimal(start), ",", ToDecimal(count), rest);
    }
  }

  lemma SecondReads(first: nat, before: nat, count: nat, heading: string)
    ensures ParseSecond(first, " +" + (PrintRange(before, count) + (" @@" + heading)))
            == Some((first, StartOf(before, count)))
  {
    var tail := " @@" + heading;
    var text := " +" + (PrintRange(before, count) + tail);
    RangeReads(before, count, tail);
    assert text[2..] == PrintRange(before, count) + tail;
  }

  lemma HeaderReads(o: nat, n: nat, ops: seq<Op>, heading: string)
    ensures ParseHunk(PrintHeader(o, n, ops, heading)) == Some((StartOf(o, |OldOf(ops)|), StartOf(n, |NewOf(ops)|)))
  {
    RangesRead(o, |OldOf(ops)|, n, |NewOf(ops)|, heading);
  }

  lemma RangesRead(o: nat, oldCount: nat, n: nat, newCount: nat, heading: string)
    ensures ParseHunk("@@ -" + PrintRange(o, oldCount) + " +" + PrintRange(n, newCount) + " @@" + heading)
            == Some((StartOf(o, oldCount), StartOf(n, newCount)))
  {
    var raw := "@@ -" + PrintRange(o, oldCount) + " +" + PrintRange(n, newCount) + " @@" + heading;
    var second := " +" + (PrintRange(n, newCount) + (" @@" + heading));
    assert raw == "@@ -" + (PrintRange(o, oldCount) + second);
    assert raw[4..] == PrintRange(o, oldCount) + second;
    RangeReads(o, oldCount, second);
    SecondReads(StartOf(o, oldCount), n, newCount, heading);
  }

  // ---------------------------------------------------------------- reading back

  lemma ReadSnoc(r: Reader, raws: seq<string>, raw: string)
    ensures Read(r, raws + [raw]) == ReadLine(Read(r, raws), raw)
  {
    assert (raws + [raw])[..|raws|] == raws;
  }

  lemma {:induction false} ReadAppend(r: Reader, a: seq<string>, b: seq<string>)
    ensures Read(r, a + b) == Read(Read(r, a), b)
    decreases |b|
  {
    if b == [] {
      assert a + b == a;
    } else {
      var front, last := b[..|b| - 1], b[|b| - 1];
      ReadAppend(r, a, front);
      ReadSnoc(r, a + front, last);
      ReadSnoc(Read(r, a), front, last);
      LastSplits(b);
      Associates(a, front, [last]);
    }
  }

  lemma ReadOne(r: Reader, raw: string)
    ensures Read(r, [raw]) == ReadLine(r, raw)
  {
    assert Read(r, []) == r;
  }

  /** A line that does not start like a header is not one. */
  lemma NotAHeader(raw: string)
    requires raw != "" && raw[0] != '@'
    ensures ParseHunk(raw) == None
  {
  }

  lemma ReadMarked(r: Reader, mark: char, text: string)
    requires r.inHunk && mark in ['+', '-', ' ', '\\']
    ensures var next := ReadLine(r, [mark] + text);
      match mark
      case '+' => next == r.(lines := r.lines + [DiffLine(Added, text, None, Some(r.newLine))],
                             newLine := r.newLine + 1)
      case '-' => next == r.(lines := r.lines + [DiffLine(Removed, text, Some(r.oldLine), None)],
                             oldLine := r.oldLine + 1)
      case ' ' => next == r.(lines := r.lines + [DiffLine(Context, text, Some(r.oldLine), Some(r.newLine))],
                             oldLine := r.oldLine + 1, newLine := r.newLine + 1)
      case _ => next == r.(lines := r.lines + [DiffLine(Meta, [mark] + text, None, None)])
  {
    var raw := [mark] + text;
    assert raw[0] == mark && raw[1..] == text;
    NotAHeader(raw);
  }

  lemma ReadOp(r: Reader, op: Op, o: nat, n: nat)
    requires r.inHunk
    requires OldText(op) != [] ==> r.oldLine == o + 1
    requires NewText(op) != [] ==> r.newLine == n + 1
    ensures ReadLine(r, PrintOp(op))
            == Reader(r.lines + [ShownOp(op, o, n)], r.oldLine + |OldText(op)|, r.newLine + |NewText(op)|, true)
  {
    match op
    case Keep(t) => ReadMarked(r, ' ', t);
    case Delete(t) => ReadMarked(r, '-', t);
    case Insert(t) => ReadMarked(r, '+', t);
    case NoNewline => ReadMarked(r, '\\', NO_NEWLINE);
  }

  /** The counters name the next line of each file that has lines in these operations. */
  ghost predicate Aligned(r: Reader, ops: seq<Op>, o: nat, n: nat) {
    r.inHunk && (OldOf(ops) != [] ==> r.oldLine == o + 1) && (NewOf(ops) != [] ==> r.newLine == n + 1)
  }

  /** The reader after these operations. */
  function After(r: Reader, ops: seq<Op>, o: nat, n: nat): Reader {
    Reader(r.lines + ShownOps(ops, o, n), r.oldLine + |OldOf(ops)|, r.newLine + |NewOf(ops)|, true)
  }

  lemma AlignedPrefix(r: Reader, ops: seq<Op>, o: nat, n: nat)
    requires ops != [] && Aligned(r, ops, o, n)
    ensures Aligned(r, ops[..|ops| - 1], o, n)
    ensures OldText(ops[|ops| - 1]) != [] ==> r.oldLine == o + 1
    ensures NewText(ops[|ops| - 1]) != [] ==> r.newLine == n + 1
  {
  }

  lemma ShownSnoc(lines: seq<DiffLine>, ops: seq<Op>, o: nat, n: nat)
    requires ops != []
    ensures var front, last := ops[..|ops| - 1], ops[|ops| - 1];
      lines + ShownOps(ops, o, n)
      == (lines + ShownOps(front, o, n)) + [ShownOp(last, o + |OldOf(front)|, n + |NewOf(front)|)]
  {
  }

  lemma CountSnoc(ops: seq<Op>)
    requires ops != []
    ensures |OldOf(ops)| == |OldOf(ops[..|ops| - 1])| + |OldText(ops[|ops| - 1])|
    ensures |NewOf(ops)| == |NewOf(ops[..|ops| - 1])| + |NewText(ops[|ops| - 1])|
  {
  }

  lemma AfterOne(r: Reader, ops: seq<Op>, o: nat, n: nat, last: DiffLine)
    requires ops != []
    requires var front := ops[..|ops| - 1];
      last == ShownOp(ops[|ops| - 1], o + |OldOf(front)|, n + |NewOf(front)|)
    ensures var mid, op := After(r, ops[..|ops| - 1], o, n), ops[|ops| - 1];
      After(r, ops, o, n)
      == Reader(mid.lines + [last], mid.oldLine + |OldText(op)|, mid.newLine + |NewText(op)|, true)
  {
    ShownSnoc(r.lines, ops, o, n);
    CountSnoc(ops);
  }

  lemma AfterSnoc(r: Reader, ops: seq<Op>, o: nat, n: nat)
    requires ops != [] && Aligned(r, ops, o, n)
    ensures ReadLine(After(r, ops[..|ops| - 1], o, n), PrintOp(ops[|ops| - 1])) == After(r, ops, o, n)
  {
    var front, last := ops[..|ops| - 1], ops[|ops| - 1];
    var o', n' := o + |OldOf(front)|, n + |NewOf(front)|;
    AlignedPrefix(r, ops, o, n);
    AfterOne(r, ops, o, n, ShownOp(last, o', n'));
    ReadOp(After(r, front, o, n), last, o', n');
  }

  /** Reading follows any chain of states that steps by `ReadLine`. */
  lemma {:induction false} ReadFollows(raws: seq<string>, states: seq<Reader>)
    requires |states| == |raws| + 1
    requires forall i | 0 <= i < |raws| :: ReadLine(states[i], raws[i]) == states[i + 1]
    ensures Read(states[0], raws) == states[|raws|]
    decreases |raws|
  {
    if raws != [] {
      var n := |raws| - 1;
      ReadFollows(raws[..n], states[..n + 1]);
      assert ReadLine(states[n], raws[n]) == states[n + 1];
    }
  }

  lemma {:induction false} PrefixAligned(r: Reader, ops: seq<Op>, o: nat, n: nat, i: nat)
    requires Aligned(r, ops, o, n) && i <= |ops|
    ensures Aligned(r, ops[..i], o, n)
    decreases |ops|
  {
    if i == |ops| {
      assert ops[..i] == ops;
    } else {
      AlignedPrefix(r, ops, o, n);
      PrefixAligned(r, ops[..|ops| - 1], o, n, i);
      assert ops[..|ops| - 1][..i] == ops[..i];
    }
  }

  lemma AfterNext(r: Reader, ops: seq<Op>, o: nat, n: nat, i: nat)
    requires Aligned(r, ops, o, n) && i < |ops|
    ensures ReadLine(After(r, ops[..i], o, n), PrintOp(ops[i])) == After(r, ops[..i + 1], o, n)
  {
    PrefixAligned(r, ops, o, n, i + 1);
    assert ops[..i + 1][..i] == ops[..i];
    AfterSnoc(r, ops[..i + 1], o, n);
  }

  lemma Chain(r: Reader, ops: seq<Op>, o: nat, n: nat) returns (states: seq<Reader>)
    requires Aligned(r, ops, o, n)
    ensures |states| == |ops| + 1
    ensures forall i | 0 <= i < |ops| :: ReadLine(states[i], PrintOp(ops[i])) == states[i + 1]
    ensures states[0] == After(r, ops[..0], o, n) && states[|ops|] == After(r, ops[..|ops|], o, n)
  {
    states := seq(|ops| + 1, i requires 0 <= i <= |ops| => After(r, ops[..i], o, n));
    forall i | 0 <= i < |ops| ensures ReadLine(states[i], PrintOp(ops[i])) == states[i + 1] {
      AfterNext(r, ops, o, n, i);
    }
  }

  lemma ReadOps(r: Reader, ops: seq<Op>, o: nat, n: nat)
    requires Aligned(r, ops, o, n)
    ensures Read(r, PrintOps(ops)) == After(r, ops, o, n)
  {
    var states := Chain(r, ops, o, n);
    ReadFollows(PrintOps(ops), states);
    assert ops[..|ops|] == ops;
    assert r.lines + [] == r.lines;
  }

  /** Wherever the reader stands, these lines add exactly that to the result. */
  ghost predicate ReadsAs(raws: seq<string>, shown: seq<DiffLine>) {
    forall r: Reader :: Read(r, raws).lines == r.lines + shown
  }

  lemma ReadsAsJoin(a: seq<string>, x: seq<DiffLine>, b: seq<string>, y: seq<DiffLine>)
    requires ReadsAs(a, x) && ReadsAs(b, y)
    ensures ReadsAs(a + b, x + y)
  {
    forall r: Reader ensures Read(r, a + b).lines == r.lines + (x + y) {
      ReadAppend(r, a, b);
      assert Read(Read(r, a), b).lines == Read(r, a).lines + y;
      assert (r.lines + x) + y == r.lines + (x + y);
    }
  }

  lemma ReadHeader(r: Reader, ops: seq<Op>, heading: string, o: nat, n: nat) returns (start: Reader)
    ensures var header := PrintHeader(o, n, ops, heading);
      Read(r, [header]) == start && start.lines == r.lines + [DiffLine(HunkHead, header, None, None)]
    ensures Aligned(start, ops, o, n)
  {
    HeaderReads(o, n, ops, heading);
    ReadOne(r, PrintHeader(o, n, ops, heading));
    start := Read(r, [PrintHeader(o, n, ops, heading)]);
  }

  lemma ReadHunk(r: Reader, ops: seq<Op>, heading: string, o: nat, n: nat)
    ensures var header := PrintHeader(o, n, ops, heading);
      Read(r, [header] + PrintOps(ops)).lines
      == r.lines + ([DiffLine(HunkHead, header, None, None)] + ShownOps(ops, o, n))
  {
    var header := PrintHeader(o, n, ops, heading);
    var start := ReadHeader(r, ops, heading, o, n);
    ReadAppend(r, [header], PrintOps(ops));
    ReadOps(start, ops, o, n);
    Associates(r.lines, [DiffLine(HunkHead, header, None, None)], ShownOps(ops, o, n));
  }

  lemma ReadPiece(piece: Piece, o: nat, n: nat)
    ensures ReadsAs(PrintPiece(piece, o, n), ShownPiece(piece, o, n))
  {
    forall r: Reader ensures Read(r, PrintPiece(piece, o, n)).lines == r.lines + ShownPiece(piece, o, n) {
      if piece.Hunk? {
        ReadHunk(r, piece.ops, piece.heading, o, n);
      }
    }
  }

  lemma {:induction false} ReadScript(script: seq<Piece>, o: nat, n: nat)
    ensures ReadsAs(PrintScript(script, o, n), Shown(script, o, n))
    decreases |script|
  {
    if script == [] {
      ReadPiece(Skip([]), o, n);
    } else {
      var o', n' := o + |OldPiece(script[0])|, n + |NewPiece(script[0])|;
      ReadPiece(script[0], o, n);
      ReadScript(script[1..], o', n');
      ReadsAsJoin(PrintPiece(script[0], o, n), ShownPiece(script[0], o, n),
                  PrintScript(script[1..], o', n'), Shown(script[1..], o', n'));
    }
  }

  // ---------------------------------------------------------------- the round trip

  /** Lines that may stand before the first hunk: no line break, and not a hunk header. */
  ghost predicate Preamble(lines: seq<string>) {
    forall l | l in lines :: '\n' !in l && ParseHunk(l) == None
  }

  ghost predicate Printable(script: seq<Piece>) {
    forall p | p in script :: PrintablePiece(p)
  }

  function ShownPreamble(lines: seq<string>): seq<DiffLine> {
    if lines == [] then []
    else
      ShownPreamble(lines[..|lines| - 1])
      + (if lines[|lines| - 1] == "" then [] else [DiffLine(Meta, lines[|lines| - 1], None, None)])
  }

  lemma {:induction false} ReadPreamble(lines: seq<string>)
    requires Preamble(lines)
    ensures Read(START, lines) == START.(lines := ShownPreamble(lines))
  {
    if lines != [] {
      var n := |lines| - 1;
      assert lines[n] in lines;
      ReadPreamble(lines[..n]);
    }
  }

  lemma RangeIsPlain(before: nat, count: nat)
    ensures '\n' !in PrintRange(before, count)
  {
  }

  lemma OpIsPlain(op: Op)
    requires !op.NoNewline? ==> '\n' !in op.text
    ensures '\n' !in PrintOp(op)
  {
    assert '\n' !in NO_NEWLINE by {
      var text := NO_NEWLINE;
      assert forall i | 0 <= i < |text| :: text[i] != '\n';
    }
  }

  lemma {:induction false} OpsArePlain(ops: seq<Op>)
    requires forall op | op in ops && !op.NoNewline? :: '\n' !in op.text
    ensures forall l | l in PrintOps(ops) :: '\n' !in l
  {
    if ops != [] {
      var front, last := ops[..|ops| - 1], ops[|ops| - 1];
      assert last in ops && forall op | op in front :: op in ops;
      OpsArePlain(front);
      OpIsPlain(last);
    }
  }

  ghost predicate Plain(lines: seq<string>) {
    forall l | l in lines :: '\n' !in l
  }

  ghost predicate PrintablePiece(p: Piece) {
    p.Hunk? ==> '\n' !in p.heading && forall op | op in p.ops && !op.NoNewline? :: '\n' !in op.text
  }

  lemma PieceIsPlain(piece: Piece, o: nat, n: nat)
    requires PrintablePiece(piece)
    ensures Plain(PrintPiece(piece, o, n))
  {
    if piece.Hunk? {
      OpsArePlain(piece.ops);
      RangeIsPlain(o, |OldOf(piece.ops)|);
      RangeIsPlain(n, |NewOf(piece.ops)|);
    }
  }

  lemma PlainJoin(a: seq<string>, b: seq<string>)
    requires Plain(a) && Plain(b)
    ensures Plain(a + b)
  {
  }

  lemma PrintableParts(script: seq<Piece>)
    requires Printable(script) && script != []
    ensures PrintablePiece(script[0]) && Printable(script[1..])
  {
  }

  lemma {:induction false} ScriptIsPlain(script: seq<Piece>, o: nat, n: nat)
    requires Printable(script)
    ensures Plain(PrintScript(script, o, n))
    decreases |script|
  {
    if script != [] {
      var o', n' := o + |OldPiece(script[0])|, n + |NewPiece(script[0])|;
      PrintableParts(script);
      PieceIsPlain(script[0], o, n);
      ScriptIsPlain(script[1..], o', n');
      PlainJoin(PrintPiece(script[0], o, n), PrintScript(script[1..], o', n'));
    }
  }

  /** The diff as text: the preamble, the hunks and the final line break. */
  function Print(preamble: seq<string>, script: seq<Piece>): string {
    Join(preamble + PrintScript(script, 0, 0) + [""], '\n')
  }

  /**
   * Round trip: for every edit script, reading the printed diff gives back the preamble and then, for each
   * hunk, its header and each of its lines with its text and its place in the two files.
   */
  lemma ReadingBack(preamble: seq<string>, script: seq<Piece>)
    requires Preamble(preamble) && Printable(script)
    ensures AllLines(Print(preamble, script)) == ShownPreamble(preamble) + Shown(script, 0, 0)
  {
    var raws := preamble + PrintScript(script, 0, 0) + [""];
    ScriptIsPlain(script, 0, 0);
    SplitJoin(raws, '\n');
    ReadPreamble(preamble);
    ReadAppend(START, preamble, PrintScript(script, 0, 0));
    ReadScript(script, 0, 0);
    ReadAppend(START, preamble + PrintScript(script, 0, 0), [""]);
    ReadOne(Read(START, preamble + PrintScript(script, 0, 0)), "");
  }

  // ---------------------------------------------------------------- the numbers are right

  /** `line` is numbered after the files: number k names the k-th line, and context is the same in both. */
  ghost predicate Names(line: DiffLine, oldFile: seq<string>, newFile: seq<string>) {
    && (line.oldLine.Some? ==> 1 <= line.oldLine.value <= |oldFile| && oldFile[line.oldLine.value - 1] == line.text)
    && (line.newLine.Some? ==> 1 <= line.newLine.value <= |newFile| && newFile[line.newLine.value - 1] == line.text)
  }

  ghost predicate AllNamed(lines: seq<DiffLine>, oldFile: seq<string>, newFile: seq<string>) {
    forall l | l in lines :: Names(l, oldFile, newFile)
  }

  lemma NamedJoin(a: seq<DiffLine>, b: seq<DiffLine>, oldFile: seq<string>, newFile: seq<string>)
    requires AllNamed(a, oldFile, newFile) && AllNamed(b, oldFile, newFile)
    ensures AllNamed(a + b, oldFile, newFile)
  {
  }

  /** A part of a file, with what precedes and what follows it. */
  datatype Cut = Cut(before: seq<string>, part: seq<string>, after: seq<string>)

  ghost predicate Cuts(c: Cut, file: seq<string>) {
    file == c.before + c.part + c.after
  }

  /** The cuts around the two halves of a part. */
  lemma CutAgain(c: Cut, a: seq<string>, b: seq<string>, file: seq<string>) returns (x: Cut, y: Cut)
    requires Cuts(c, file) && c.part == a + b
    ensures Cuts(x, file) && x.before == c.before && x.part == a
    ensures Cuts(y, file) && |y.before| == |c.before| + |a| && y.part == b
  {
    x, y := Cut(c.before, a, b + c.after), Cut(c.before + a, b, c.after);
  }

  lemma OpIsNamed(op: Op, was: Cut, now: Cut, oldFile: seq<string>, newFile: seq<string>)
    requires Cuts(was, oldFile) && Cuts(now, newFile) && was.part == OldText(op) && now.part == NewText(op)
    ensures Names(ShownOp(op, |was.before|, |now.before|), oldFile, newFile)
  {
  }

  lemma {:induction false} OpsAreNamed(ops: seq<Op>, was: Cut, now: Cut, oldFile: seq<string>, newFile: seq<string>)
    requires Cuts(was, oldFile) && Cuts(now, newFile) && was.part == OldOf(ops) && now.part == NewOf(ops)
    ensures AllNamed(ShownOps(ops, |was.before|, |now.before|), oldFile, newFile)
    decreases |ops|
  {
    if ops != [] {
      var front, last := ops[..|ops| - 1], ops[|ops| - 1];
      var a, b := CutAgain(was, OldOf(front), OldText(last), oldFile);
      var c, d := CutAgain(now, NewOf(front), NewText(last), newFile);
      OpsAreNamed(front, a, c, oldFile, newFile);
      OpIsNamed(last, b, d, oldFile, newFile);
      NamedJoin(ShownOps(front, |a.before|, |c.before|), [ShownOp(last, |b.before|, |d.before|)], oldFile, newFile);
    }
  }

  lemma PieceIsNamed(piece: Piece, was: Cut, now: Cut, oldFile: seq<string>, newFile: seq<string>)
    requires Cuts(was, oldFile) && Cuts(now, newFile) && was.part == OldPiece(piece) && now.part == NewPiece(piece)
    ensures AllNamed(ShownPiece(piece, |was.before|, |now.before|), oldFile, newFile)
  {
    if piece.Hunk? {
      var o, n := |was.before|, |now.before|;
      OpsAreNamed(piece.ops, was, now, oldFile, newFile);
      NamedJoin([DiffLine(HunkHead, PrintHeader(o, n, piece.ops, piece.heading), None, None)],
                ShownOps(piece.ops, o, n), oldFile, newFile);
    }
  }

  lemma {:induction false} ScriptIsNamed(
    script: seq<Piece>, was: Cut, now: Cut, oldFile: seq<string>, newFile: seq<string>)
    requires Cuts(was, oldFile) && Cuts(now, newFile) && was.part == OldFile(script) && now.part == NewFile(script)
    ensures AllNamed(Shown(script, |was.before|, |now.before|), oldFile, newFile)
    decreases |script|
  {
    if script != [] {
      var a, b := CutAgain(was, OldPiece(script[0]), OldFile(script[1..]), oldFile);
      var c, d := CutAgain(now, NewPiece(script[0]), NewFile(script[1..]), newFile);
      PieceIsNamed(script[0], a, c, oldFile, newFile);
      ScriptIsNamed(script[1..], b, d, oldFile, newFile);
      NamedJoin(ShownPiece(script[0], |a.before|, |c.before|), Shown(script[1..], |b.before|, |d.before|),
                oldFile, newFile);
    }
  }

  lemma WholeScriptIsNamed(script: seq<Piece>)
    ensures AllNamed(Shown(script, 0, 0), OldFile(script), NewFile(script))
  {
    ScriptIsNamed(script, Cut([], OldFile(script), []), Cut([], NewFile(script), []), OldFile(script), NewFile(script));
  }

  /** Whatever the edit and however it is cut into hunks, every number read names its line in its file. */
  lemma NumbersNameTheirLines(preamble: seq<string>, script: seq<Piece>, line: DiffLine)
    requires Preamble(preamble) && Printable(script)
    requires line in AllLines(Print(preamble, script))
    ensures Names(line, OldFile(script), NewFile(script))
  {
    ReadingBack(preamble, script);
    WholeScriptIsNamed(script);
    PreambleHasNoNumbers(preamble);
  }

  lemma {:induction false} PreambleHasNoNumbers(lines: seq<string>)
    ensures forall l | l in ShownPreamble(lines) :: l.oldLine == None && l.newLine == None
  {
    if lines != [] {
      PreambleHasNoNumbers(lines[..|lines| - 1]);
    }
  }

  // ---------------------------------------------------------------- two files in one text

  /** A line that hunk mode takes for a changed or unchanged line of a file. */
  predicate Marked(raw: string) {
    "+" <= raw || "-" <= raw || " " <= raw
  }

  lemma InsideHunk(r: Reader, raw: string)
    requires r.inHunk && ParseHunk(raw) == None
    ensures ReadLine(r, raw).inHunk
    ensures ReadLine(r, raw).lines == r.lines + (if raw == "" then [] else [DiffLine(Meta, raw, None, None)])
            <==> !Marked(raw)
  {
    var lines := ReadLine(r, raw).lines;
    if raw == "" {
      assert lines == r.lines + [];
    } else {
      assert lines == r.lines + [lines[|r.lines|]];
      assert lines[|r.lines|] == DiffLine(Meta, raw, None, None) <==> !Marked(raw);
    }
  }

  lemma SameEnds<T>(a: seq<T>, b: seq<T>, x: seq<T>, y: seq<T>)
    requires |a| == |b| && |x| == |y|
    ensures a + x == b + y <==> a == b && x == y
  {
    if a + x == b + y {
      assert a == (a + x)[..|a|] && x == (a + x)[|a|..];
    }
  }

  lemma {:induction false} PreambleInsideHunk(r: Reader, lines: seq<string>)
    requires r.inHunk && Preamble(lines)
    ensures Read(r, lines).inHunk
    ensures |Read(r, lines).lines| == |r.lines| + |ShownPreamble(lines)|
    ensures Read(r, lines).lines == r.lines + ShownPreamble(lines) <==> forall l | l in lines :: !Marked(l)
  {
    if lines != [] {
      var n := |lines| - 1;
      var front, last := lines[..n], lines[n];
      var before := Read(r, front);
      assert lines == front + [last];
      PreambleInsideHunk(r, front);
      InsideHunk(before, last);
      ReadLineGrows(before, last);
      var shown := if last == "" then [] else [DiffLine(Meta, last, None, None)];
      var added := ReadLine(before, last).lines[|before.lines|..];
      assert ReadLine(before, last).lines == before.lines + added;
      SameEnds(before.lines, r.lines + ShownPreamble(front), added, shown);
      SameEnds(before.lines, before.lines, added, shown);
      assert r.lines + ShownPreamble(lines) == r.lines + ShownPreamble(front) + shown;
    }
  }

  lemma {:induction false} HunkModeStays(r: Reader, raws: seq<string>)
    requires r.inHunk
    ensures Read(r, raws).inHunk
    decreases |raws|
  {
    if raws != [] {
      HunkModeStays(r, raws[..|raws| - 1]);
    }
  }

  /**
   * Hunk mode is never left. So when the diff of a second file follows in the same text, its lines come
   * back right if and only if no line of its own header starts like a line of a hunk.
   */
  lemma SecondFileReadsBack(front: seq<string>, preamble: seq<string>, script: seq<Piece>)
    requires Preamble(preamble) && Read(START, front).inHunk
    ensures Read(START, front + preamble + PrintScript(script, 0, 0)).lines
              == Read(START, front).lines + ShownPreamble(preamble) + Shown(script, 0, 0)
            <==> forall l | l in preamble :: !Marked(l)
  {
    var r := Read(START, front);
    ReadAppend(START, front, preamble);
    ReadAppend(START, front + preamble, PrintScript(script, 0, 0));
    PreambleInsideHunk(r, preamble);
    ReadScript(script, 0, 0);
    SameEnds(Read(r, preamble).lines, r.lines + ShownPreamble(preamble), Shown(script, 0, 0), Shown(script, 0, 0));
  }

  /** The usual header of a second file does start like that: it is taken for a removed line. */
  lemma SecondFileHeaderIsMisread(r: Reader)
    requires r.inHunk
    ensures Marked("--- a/x")
    ensures ReadLine(r, "--- a/x").lines == r.lines + [DiffLine(Removed, "-- a/x", Some(r.oldLine), None)]
  {
    assert "--- a/x" == ['-'] + "-- a/x";
    ReadMarked(r, '-', "-- a/x");
  }

  lemma ReadLast(r: Reader, raw: string)
    ensures Read(r, [raw, ""]).lines == ReadLine(r, raw).lines
  {
    assert [raw, ""][..1] == [raw] && [raw, ""][1] == "";
    ReadOne(r, raw);
    ReadLineGrows(ReadLine(r, raw), "");
  }

  lemma TextReads(front: seq<string>, raw: string)
    requires Plain(front) && '\n' !in raw
    ensures AllLines(Join(front + [raw, ""], '\n')) == ReadLine(Read(START, front), raw).lines
  {
    SplitJoin(front + [raw, ""], '\n');
    ReadAppend(START, front, [raw, ""]);
    ReadLast(Read(START, front), raw);
  }

  /** The text of the lines of one file and the first header line of another. */
  function TwoFiles(front: seq<string>, raw: string): string {
    Join(front + [raw, ""], '\n')
  }

  lemma MinusIsMisread(front: seq<string>, rest: string) returns (n: nat)
    requires Plain(front) && '\n' !in rest && Read(START, front).inHunk
    ensures DiffLine(Removed, rest, Some(n), None) in AllLines(TwoFiles(front, ['-'] + rest))
  {
    var r := Read(START, front);
    n := r.oldLine;
    TextReads(front, ['-'] + rest);
    ReadMarked(r, '-', rest);
    var lines := ReadLine(r, ['-'] + rest).lines;
    assert lines[|lines| - 1] == DiffLine(Removed, rest, Some(n), None);
  }

  lemma SplitMark(raw: string)
    requires raw != ""
    ensures raw == [raw[0]] + raw[1..]
  {
  }

  /** Wherever hunk mode is on, a header line that starts with a minus comes back as a removed line with a number. */
  lemma HeaderIsMisread(front: seq<string>, raw: string) returns (n: nat)
    requires Plain(front) && raw != "" && raw[0] == '-' && '\n' !in raw && Read(START, front).inHunk
    ensures DiffLine(Removed, raw[1..], Some(n), None) in AllLines(TwoFiles(front, raw))
  {
    var rest := raw[1..];
    SplitMark(raw);
    n := MinusIsMisread(front, rest);
  }

  /** One changed line. */
  const ONE_CHANGE := [Delete("a"), Insert("b")]

  function FirstFile(): seq<string> {
    [PrintHeader(0, 0, ONE_CHANGE, "")] + PrintOps(ONE_CHANGE)
  }

  lemma FirstFileIsPlain()
    ensures Plain(FirstFile())
  {
    assert PrintablePiece(Hunk(ONE_CHANGE, ""));
    PieceIsPlain(Hunk(ONE_CHANGE, ""), 0, 0);
  }

  lemma FirstFileEndsInHunk()
    ensures Read(START, FirstFile()).inHunk
  {
    var start := ReadHeader(START, ONE_CHANGE, "", 0, 0);
    ReadAppend(START, [PrintHeader(0, 0, ONE_CHANGE, "")], PrintOps(ONE_CHANGE));
    HunkModeStays(start, PrintOps(ONE_CHANGE));
  }

  /** So it goes when the diff of one changed line is followed by the header of another file. */
  lemma SecondFileIsMisreadOnce() returns (n: nat)
    ensures DiffLine(Removed, "--- a/y"[1..], Some(n), None) in AllLines(TwoFiles(FirstFile(), "--- a/y"))
  {
    var raw := "--- a/y";
    FirstFileIsPlain();
    FirstFileEndsInHunk();
    n := HeaderIsMisread(FirstFile(), raw);
  }
}
