/** Reading a unified diff with running line numbers, and laying it out in two columns. */
module GitDiff {
  import opened Options
  import opened Text

  datatype Kind = Context | Added | Removed | HunkHead | Meta
  datatype DiffLine = DiffLine(kind: Kind, text: string, oldLine: Option<nat>, newLine: Option<nat>)

  // ---------------------------------------------------------------- hunk headers

  function SkipCount(text: string): string {
    if "," <= text && DigitRun(text[1..]) > 0 then text[1 + DigitRun(text[1..])..] else text
  }

  /** A start line with its optional count, and the text after them. */
  function ParseStart(text: string): Option<(nat, string)> {
    var n := DigitRun(text);
    if n == 0 then None else Some((FromDecimal(text[..n]), SkipCount(text[n..])))
  }

  /** The second half of a hunk header: the start line in the new file. */
  function ParseSecond(first: nat, text: string): Option<(nat, nat)> {
    if !(" +" <= text) then None
    else
      var second := ParseStart(text[2..]);
      if second.Some? && " @@" <= second.value.1 then Some((first, second.value.0)) else None
  }

  /** The two start lines of a hunk header, or None for any other line. */
  function ParseHunk(raw: string): Option<(nat, nat)> {
    if !("@@ -" <= raw) then None
    else
      var first := ParseStart(raw[4..]);
      if first.Some? then ParseSecond(first.value.0, first.value.1) else None
  }

  // ---------------------------------------------------------------- reading

  datatype Reader = Reader(lines: seq<DiffLine>, oldLine: nat, newLine: nat, inHunk: bool)

  const START := Reader([], 0, 0, false)

  function ReadLine(r: Reader, raw: string): Reader {
    match ParseHunk(raw)
    case Some((o, n)) => Reader(r.lines + [DiffLine(HunkHead, raw, None, None)], o, n, true)
    case None =>
      if r.inHunk && "+" <= raw then
        r.(lines := r.lines + [DiffLine(Added, raw[1..], None, Some(r.newLine))], newLine := r.newLine + 1)
      else if r.inHunk && "-" <= raw then
        r.(lines := r.lines + [DiffLine(Removed, raw[1..], Some(r.oldLine), None)], oldLine := r.oldLine + 1)
      else if r.inHunk && " " <= raw then
        r.(lines := r.lines + [DiffLine(Context, raw[1..], Some(r.oldLine), Some(r.newLine))],
           oldLine := r.oldLine + 1, newLine := r.newLine + 1)
      else if raw != "" then r.(lines := r.lines + [DiffLine(Meta, raw, None, None)])
      else r
  }

  function Read(r: Reader, raws: seq<string>): Reader
    decreases |raws|
  {
    if raws == [] then r else ReadLine(Read(r, raws[..|raws| - 1]), raws[|raws| - 1])
  }

  /** Every line of the diff, with no limit. */
  function AllLines(content: string): seq<DiffLine> {
    Read(START, Split(content, '\n')).lines
  }

  /** How many of the raw lines are not empty. */
  function NonEmpty(raws: seq<string>): nat {
    if raws == [] then 0 else NonEmpty(raws[..|raws| - 1]) + (if raws[|raws| - 1] == "" then 0 else 1)
  }

  /** The lines before the last line break fill the limit already. No limit at all is never filled. */
  predicate CutAt(content: string, limit: Option<nat>) {
    var raws := Split(content, '\n');
    limit.Some? && NonEmpty(raws[..|raws| - 1]) >= limit.value
  }

  /** As much of the lines as the limit allows. */
  function Within(lines: seq<DiffLine>, limit: Option<nat>): seq<DiffLine> {
    if limit.Some? && limit.value <= |lines| then lines[..limit.value] else lines
  }

  /** Every line but an empty one adds exactly one line to the result. */
  lemma ReadLineGrows(r: Reader, raw: string)
    ensures r.lines <= ReadLine(r, raw).lines
    ensures |ReadLine(r, raw).lines| == |r.lines| + (if raw == "" then 0 else 1)
  {
  }

  lemma {:induction false} ReadGrows(r: Reader, raws: seq<string>, k: nat)
    requires k <= |raws|
    ensures Read(r, raws[..k]).lines <= Read(r, raws).lines
    decreases |raws|
  {
    if k == |raws| {
      assert raws[..k] == raws;
    } else {
      var n := |raws| - 1;
      ReadGrows(r, raws[..n], k);
      assert raws[..n][..k] == raws[..k];
      ReadLineGrows(Read(r, raws[..n]), raws[n]);
    }
  }

  lemma ReadNext(r: Reader, raws: seq<string>, i: nat)
    requires i < |raws|
    ensures Read(r, raws[..i + 1]) == ReadLine(Read(r, raws[..i]), raws[i])
  {
    assert raws[..i + 1][..i] == raws[..i];
  }

  lemma {:induction false} ReadCounts(r: Reader, raws: seq<string>)
    ensures |Read(r, raws).lines| == |r.lines| + NonEmpty(raws)
    decreases |raws|
  {
    if raws != [] {
      ReadCounts(r, raws[..|raws| - 1]);
      ReadLineGrows(Read(r, raws[..|raws| - 1]), raws[|raws| - 1]);
    }
  }

  /** The diff has one line for every raw line that is not empty. */
  lemma LinesAreCounted(content: string)
    ensures |AllLines(content)| == NonEmpty(Split(content, '\n'))
  {
    ReadCounts(START, Split(content, '\n'));
  }

  /** The flag is set although no line is missing exactly if the limit is met and the content ends with a line break. */
  lemma FlagIsFalseIff(content: string, limit: nat)
    ensures CutAt(content, Some(limit)) && |AllLines(content)| <= limit
            <==> |AllLines(content)| == limit && (content == "" || content[|content| - 1] == '\n')
  {
    LinesAreCounted(content);
    SplitEnds(content, '\n');
  }

  /** One line and its line break, with room for one line. */
  lemma FlagIsFalseOnce()
    ensures CutAt("x\n", Some(1)) && |AllLines("x\n")| == 1
  {
    SplitAt("x", "", '\n');
    assert "x" + ['\n'] + "" == "x\n";
    assert Split("x\n", '\n') == ["x", ""] && ["x", ""][..1] == ["x"] && ["x"][..0] == [];
    assert NonEmpty(["x"]) == NonEmpty(["x"][..0]) + 1;
    LinesAreCounted("x\n");
  }

  lemma StopsHere(raws: seq<string>, i: nat, limit: nat)
    requires i < |raws| && |Read(START, raws[..i]).lines| == limit
    ensures Within(Read(START, raws).lines, Some(limit)) == Read(START, raws[..i]).lines
    ensures NonEmpty(raws[..|raws| - 1]) >= limit
  {
    ReadGrows(START, raws, i);
    ReadGrows(START, raws[..|raws| - 1], i);
    ReadCounts(START, raws[..|raws| - 1]);
    assert raws[..|raws| - 1][..i] == raws[..i];
  }

  /** One step of the loop, with its four running variables. */
  method AddLine(lines: seq<DiffLine>, oldLine: nat, newLine: nat, inHunk: bool, raw: string)
    returns (lines': seq<DiffLine>, oldLine': nat, newLine': nat, inHunk': bool)
    ensures Reader(lines', oldLine', newLine', inHunk') == ReadLine(Reader(lines, oldLine, newLine, inHunk), raw)
  {
    lines', oldLine', newLine', inHunk' := lines, oldLine, newLine, inHunk;
    var hunk := ParseHunk(raw);
    if hunk.Some? {
      oldLine', newLine' := hunk.value.0, hunk.value.1;
      inHunk' := true;
      lines' := lines + [DiffLine(HunkHead, raw, None, None)];
    } else if inHunk && "+" <= raw {
      lines' := lines + [DiffLine(Added, raw[1..], None, Some(newLine))];
      newLine' := newLine + 1;
    } else if inHunk && "-" <= raw {
      lines' := lines + [DiffLine(Removed, raw[1..], Some(oldLine), None)];
      oldLine' := oldLine + 1;
    } else if inHunk && " " <= raw {
      lines' := lines + [DiffLine(Context, raw[1..], Some(oldLine), Some(newLine))];
      oldLine', newLine' := oldLine + 1, newLine + 1;
    } else if raw != "" {
      lines' := lines + [DiffLine(Meta, raw, None, None)];
    }
  }

  method ReadUpTo(raws: seq<string>, limit: Option<nat>) returns (lines: seq<DiffLine>, truncated: bool)
    requires raws != []
    ensures lines == Within(Read(START, raws).lines, limit)
    ensures truncated <==> limit.Some? && NonEmpty(raws[..|raws| - 1]) >= limit.value
  {
    lines, truncated := [], false;
    var oldLine: nat, newLine: nat, inHunk := 0, 0, false;
    for i := 0 to |raws|
      invariant limit.Some? ==> |lines| <= limit.value
      invariant Read(START, raws[..i]) == Reader(lines, oldLine, newLine, inHunk)
      invariant i == |raws| && limit.Some? ==> NonEmpty(raws[..|raws| - 1]) < limit.value
    {
      if limit.Some? && |lines| >= limit.value {
        StopsHere(raws, i, limit.value);
        return lines, true;
      }
      ReadNext(START, raws, i);
      ReadCounts(START, raws[..i]);
      ReadLineGrows(Read(START, raws[..i]), raws[i]);
      lines, oldLine, newLine, inHunk := AddLine(lines, oldLine, newLine, inHunk, raws[i]);
    }
    assert raws[..|raws|] == raws;
  }

  /**
   * The result is the first `limit` lines of the diff, or all of them without a limit. The flag is set when the
   * lines before the last line break fill the limit.
   */
  method ParseDiff(content: string, limit: Option<nat>) returns (lines: seq<DiffLine>, truncated: bool)
    ensures lines == Within(AllLines(content), limit)
    ensures truncated <==> CutAt(content, limit)
  {
    lines, truncated := ReadUpTo(Split(content, '\n'), limit);
  }
}
