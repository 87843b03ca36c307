/** Which lines of a diff are hunk headers, whoever wrote them, and what every other line is read as. */
module DiffHeaders {
  import opened Options
  import opened Text
  import opened GitDiff
  import opened Sequences

  ghost predicate Digits(text: string) {
    text != "" && forall c | c in text :: IsDigit(c)
  }

  /** A start line with the count that may follow it. */
  ghost predicate Range(text: string, start: string, count: string) {
    && text == start + count
    && Digits(start)
    && (count == "" || (count[0] == ',' && Digits(count[1..])))
  }

  /** "@@ -", a range of the old file, " +", a range of the new file, " @@", and then anything. */
  ghost predicate Spelled(raw: string, was: string, now: string, rest: string) {
    raw == "@@ -" + (was + (" +" + (now + (" @@" + rest))))
  }

  ghost predicate IsHeader(raw: string, first: nat, second: nat) {
    exists was, wasStart, wasCount, now, nowStart, nowCount, rest ::
      && Spelled(raw, was, now, rest)
      && Range(was, wasStart, wasCount) && FromDecimal(wasStart) == first
      && Range(now, nowStart, nowCount) && FromDecimal(nowStart) == second
  }

  // ---------------------------------------------------------------- ranges

  lemma CountIsSkipped(count: string, rest: string)
    requires count == "" || (count[0] == ',' && Digits(count[1..]))
    requires rest != "" && rest[0] == ' '
    ensures SkipCount(count + rest) == rest
    ensures count + rest != "" && !IsDigit((count + rest)[0])
  {
    var text := count + rest;
    if count == "" {
      assert text == rest;
    } else {
      var digits := count[1..];
      assert text[1..] == digits + rest;
      DigitRunOf(digits, rest);
      assert text[1 + |digits|..] == rest;
    }
  }

  lemma RangeIsRead(range: string, start: string, count: string, rest: string)
    requires Range(range, start, count) && rest != "" && rest[0] == ' '
    ensures ParseStart(range + rest) == Some((FromDecimal(start), rest))
  {
    var text := range + rest;
    var tail := count + rest;
    assert text == start + tail;
    CountIsSkipped(count, rest);
    DigitRunOf(start, tail);
    assert text[..|start|] == start && text[|start|..] == tail;
  }

  lemma CountWas(text: string) returns (count: string)
    ensures text == count + SkipCount(text)
    ensures count == "" || (count[0] == ',' && Digits(count[1..]))
  {
    if "," <= text && DigitRun(text[1..]) > 0 {
      var n := DigitRun(text[1..]);
      count := text[..1 + n];
      assert count[1..] == text[1..][..n];
    } else {
      count := "";
    }
  }

  lemma RangeWas(text: string) returns (range: string, start: string, count: string)
    requires ParseStart(text).Some?
    ensures Range(range, start, count)
    ensures ParseStart(text).value.0 == FromDecimal(start) && text == range + ParseStart(text).value.1
  {
    var n := DigitRun(text);
    start := text[..n];
    var tail := text[n..];
    count := CountWas(tail);
    range := start + count;
    assert text == start + tail;
    Associates(start, count, SkipCount(tail));
  }

  // ---------------------------------------------------------------- headers

  lemma PrefixTaken(prefix: string, rest: string)
    ensures prefix <= prefix + rest && (prefix + rest)[|prefix|..] == rest
  {
  }

  lemma SecondIsRead(first: nat, now: string, start: string, count: string, rest: string)
    requires Range(now, start, count)
    ensures ParseSecond(first, " +" + (now + (" @@" + rest))) == Some((first, FromDecimal(start)))
  {
    var third := " @@" + rest;
    RangeIsRead(now, start, count, third);
    PrefixTaken(" +", now + third);
  }

  lemma SpelledIsRead(raw: string, was: string, wasStart: string, wasCount: string,
                      now: string, nowStart: string, nowCount: string, rest: string)
    requires Spelled(raw, was, now, rest) && Range(was, wasStart, wasCount) && Range(now, nowStart, nowCount)
    ensures ParseHunk(raw) == Some((FromDecimal(wasStart), FromDecimal(nowStart)))
  {
    var tail := " +" + (now + (" @@" + rest));
    SecondIsRead(FromDecimal(wasStart), now, nowStart, nowCount, rest);
    RangeIsRead(was, wasStart, wasCount, tail);
    PrefixTaken("@@ -", was + tail);
  }

  lemma SecondWas(first: nat, text: string) returns (now: string, start: string, count: string, rest: string)
    requires ParseSecond(first, text).Some?
    ensures text == " +" + (now + (" @@" + rest)) && Range(now, start, count)
    ensures ParseSecond(first, text).value == (first, FromDecimal(start))
  {
    now, start, count := RangeWas(text[2..]);
    var third := ParseStart(text[2..]).value.1;
    rest := third[3..];
    PrefixCut(" @@", third);
    PrefixCut(" +", text);
  }

  lemma PrefixCut(prefix: string, text: string)
    requires prefix <= text
    ensures text == prefix + text[|prefix|..]
  {
  }

  lemma ReadWasSpelled(raw: string)
    requires ParseHunk(raw).Some?
    ensures IsHeader(raw, ParseHunk(raw).value.0, ParseHunk(raw).value.1)
  {
    var was, wasStart, wasCount := RangeWas(raw[4..]);
    var first := ParseStart(raw[4..]).value;
    var now, nowStart, nowCount, rest := SecondWas(first.0, first.1);
    PrefixCut("@@ -", raw);
    assert Spelled(raw, was, now, rest);
  }

  /** A line is read as a hunk header with two start lines if and only if it is spelled like one with these numbers. */
  lemma HeaderIff(raw: string, first: nat, second: nat)
    ensures ParseHunk(raw) == Some((first, second)) <==> IsHeader(raw, first, second)
  {
    if ParseHunk(raw).Some? {
      ReadWasSpelled(raw);
    }
    if IsHeader(raw, first, second) {
      var was, wasStart, wasCount, now, nowStart, nowCount, rest :|
        && Spelled(raw, was, now, rest)
        && Range(was, wasStart, wasCount) && FromDecimal(wasStart) == first
        && Range(now, nowStart, nowCount) && FromDecimal(nowStart) == second;
      SpelledIsRead(raw, was, wasStart, wasCount, now, nowStart, nowCount, rest);
    }
  }

  /** Numbers may be written with zeros in front. */
  lemma {:induction false} PaddedDecimal(zeros: string, n: nat)
    requires forall i | 0 <= i < |zeros| :: zeros[i] == '0'
    ensures FromDecimal(zeros + ToDecimal(n)) == n
    decreases n, |zeros|
  {
    var text := zeros + ToDecimal(n);
    if n >= 10 {
      PaddedDecimal(zeros, n / 10);
      assert text[..|text| - 1] == zeros + ToDecimal(n / 10);
    } else {
      assert text[..|text| - 1] == zeros;
      ZerosAreZero(zeros);
    }
  }

  lemma {:induction false} ZerosAreZero(zeros: string)
    requires forall i | 0 <= i < |zeros| :: zeros[i] == '0'
    ensures FromDecimal(zeros) == 0
  {
    if zeros != "" {
      ZerosAreZero(zeros[..|zeros| - 1]);
    }
  }

  // ---------------------------------------------------------------- every line of a diff

  ghost predicate Header(raw: string) {
    exists first: nat, second: nat :: IsHeader(raw, first, second)
  }

  ghost predicate NoHeader(raws: seq<string>) {
    forall raw | raw in raws :: !Header(raw)
  }

  /** How many lines belong to one file: those marked with its sign and the unchanged ones. */
  function Numbered(raws: seq<string>, sign: char): nat {
    if raws == [] then 0
    else
      var last := raws[|raws| - 1];
      Numbered(raws[..|raws| - 1], sign) + (if last != "" && (last[0] == sign || last[0] == ' ') then 1 else 0)
  }

  /** The last header among some lines, the two numbers in it, and the lines after it. */
  ghost predicate Since(before: seq<string>, front: seq<string>, header: string, body: seq<string>,
                        first: nat, second: nat) {
    before == front + [header] + body && IsHeader(header, first, second) && NoHeader(body)
  }

  lemma HeaderIsRead(raw: string)
    ensures Header(raw) <==> ParseHunk(raw).Some?
  {
    if ParseHunk(raw).Some? {
      ReadWasSpelled(raw);
    }
    if Header(raw) {
      var first: nat, second: nat :| IsHeader(raw, first, second);
      HeaderIff(raw, first, second);
    }
  }

  /** Before the first header no line counts as changed. */
  lemma {:induction false} NoHunkYet(raws: seq<string>)
    requires NoHeader(raws)
    ensures !Read(START, raws).inHunk
  {
    if raws != [] {
      NoHunkYet(raws[..|raws| - 1]);
      HeaderIsRead(raws[|raws| - 1]);
    }
  }

  /** After a header the two running numbers count on from the ones in it. */
  lemma {:induction false} NumbersCountOn(r: Reader, body: seq<string>)
    requires r.inHunk && NoHeader(body)
    ensures Read(r, body).inHunk
    ensures Read(r, body).oldLine == r.oldLine + Numbered(body, '-')
    ensures Read(r, body).newLine == r.newLine + Numbered(body, '+')
  {
    if body != [] {
      NumbersCountOn(r, body[..|body| - 1]);
      HeaderIsRead(body[|body| - 1]);
    }
  }

  lemma {:induction false} ReadOn(r: Reader, a: seq<string>, b: seq<string>)
    ensures Read(r, a + b) == Read(Read(r, a), b)
    decreases |b|
  {
    if b == [] {
      assert a + b == a;
    } else {
      ReadOn(r, a, b[..|b| - 1]);
      FrontOfSum(a, b);
    }
  }

  /** The running numbers after some lines. */
  ghost predicate IsNumbered(before: seq<string>, was: nat, now: nat) {
    var r := Read(START, before);
    r.inHunk && r.oldLine == was && r.newLine == now
  }

  lemma NumbersSince(before: seq<string>, front: seq<string>, header: string, body: seq<string>,
                     first: nat, second: nat)
    requires Since(before, front, header, body, first, second)
    ensures IsNumbered(before, first + Numbered(body, '-'), second + Numbered(body, '+'))
  {
    HeaderIff(header, first, second);
    FrontOfSum(front, [header]);
    ReadOn(START, front + [header], body);
    NumbersCountOn(Read(START, front + [header]), body);
  }

  /** A line before which there was no header is read as it is, and so is one without a mark. */
  ghost predicate IsMeta(before: seq<string>, raw: string)
    requires raw != ""
  {
    !Header(raw) && (NoHeader(before) || (raw[0] != '+' && raw[0] != '-' && raw[0] != ' '))
  }

  /** A marked line after a header, with the numbers that it has by the lines in between. */
  ghost predicate IsMarked(raw: string, line: DiffLine, was: nat, now: nat)
    requires raw != ""
  {
    && (raw[0] == '+' ==> line == DiffLine(Added, raw[1..], None, Some(now)))
    && (raw[0] == '-' ==> line == DiffLine(Removed, raw[1..], Some(was), None))
    && (raw[0] == ' ' ==> line == DiffLine(Context, raw[1..], Some(was), Some(now)))
  }

  /** What a line after some others becomes, by how it is spelled and by the last header before it. */
  ghost predicate LineIs(before: seq<string>, raw: string, line: DiffLine)
    requires raw != ""
  {
    && (Header(raw) ==> line == DiffLine(HunkHead, raw, None, None))
    && (IsMeta(before, raw) ==> line == DiffLine(Meta, raw, None, None))
    && forall front, header, body, first: nat, second: nat
         | Since(before, front, header, body, first, second) && !Header(raw) ::
         IsMarked(raw, line, first + Numbered(body, '-'), second + Numbered(body, '+'))
  }

  /** What reading one line adds. */
  ghost predicate Adds(r: Reader, raw: string, line: DiffLine)
    requires raw != ""
  {
    && (ParseHunk(raw).Some? ==> line == DiffLine(HunkHead, raw, None, None))
    && (ParseHunk(raw).None? && (!r.inHunk || (raw[0] != '+' && raw[0] != '-' && raw[0] != ' '))
        ==> line == DiffLine(Meta, raw, None, None))
    && (ParseHunk(raw).None? && r.inHunk ==> IsMarked(raw, line, r.oldLine, r.newLine))
  }

  lemma LineAdded(r: Reader, raw: string, line: DiffLine)
    requires raw != "" && ReadLine(r, raw).lines == r.lines + [line]
    ensures Adds(r, raw, line)
  {
    assert line == ReadLine(r, raw).lines[|r.lines|];
  }

  lemma HeadOrMeta(before: seq<string>, raw: string, line: DiffLine)
    requires raw != "" && Adds(Read(START, before), raw, line)
    ensures Header(raw) ==> line == DiffLine(HunkHead, raw, None, None)
    ensures IsMeta(before, raw) ==> line == DiffLine(Meta, raw, None, None)
  {
    HeaderIsRead(raw);
    if NoHeader(before) {
      NoHunkYet(before);
    }
  }

  lemma MarkedAfter(before: seq<string>, raw: string, line: DiffLine, was: nat, now: nat)
    requires raw != "" && Adds(Read(START, before), raw, line)
    requires IsNumbered(before, was, now) && !Header(raw)
    ensures IsMarked(raw, line, was, now)
  {
    HeaderIsRead(raw);
  }

  lemma AddedIs(before: seq<string>, raw: string, line: DiffLine)
    requires raw != "" && Adds(Read(START, before), raw, line)
    ensures LineIs(before, raw, line)
  {
    HeadOrMeta(before, raw, line);
    forall front, header, body, first: nat, second: nat
      | Since(before, front, header, body, first, second) && !Header(raw)
      ensures IsMarked(raw, line, first + Numbered(body, '-'), second + Numbered(body, '+'))
    {
      NumbersSince(before, front, header, body, first, second);
      MarkedAfter(before, raw, line, first + Numbered(body, '-'), second + Numbered(body, '+'));
    }
  }

  lemma StaysRead(raws: seq<string>, before: seq<string>, raw: string, rest: seq<string>)
    requires raws == before + [raw] + rest
    ensures ReadLine(Read(START, before), raw).lines <= Read(START, raws).lines
  {
    assert raws[..|before| + 1] == before + [raw];
    ReadGrows(START, raws, |before| + 1);
    FrontOfSum(before, [raw]);
  }

  /**
   * Every line of every text that is not empty becomes one line of the diff, in order. It is a hunk header if it is
   * spelled like one. Otherwise a mark makes it an added, removed or unchanged line if a header came before, numbered
   * from the last header on; any other line is kept whole.
   */
  lemma EveryLineIsRead(content: string, before: seq<string>, raw: string, rest: seq<string>)
    requires Split(content, '\n') == before + [raw] + rest && raw != ""
    ensures NonEmpty(before) < |AllLines(content)| && LineIs(before, raw, AllLines(content)[NonEmpty(before)])
  {
    var r := Read(START, before);
    ReadCounts(START, before);
    ReadLineGrows(r, raw);
    StaysRead(Split(content, '\n'), before, raw, rest);
    var line := ReadLine(r, raw).lines[|r.lines|];
    assert ReadLine(r, raw).lines == r.lines + [line];
    LineAdded(r, raw, line);
    AddedIs(before, raw, line);
  }

  /** Where a header came before, there is a last one. */
  lemma {:induction false} LastHeader(before: seq<string>)
    returns (front: seq<string>, header: string, body: seq<string>, first: nat, second: nat)
    requires !NoHeader(before)
    ensures Since(before, front, header, body, first, second)
  {
    assert before != [];
    var n := |before| - 1;
    var last := before[n];
    if Header(last) {
      front, header, body := before[..n], last, [];
      first, second :| IsHeader(last, first, second);
      assert before == front + [header] + [];
    } else {
      assert forall raw | raw in before :: raw in before[..n] || raw == last;
      front, header, body, first, second := LastHeader(before[..n]);
      assert before == front + [header] + (body + [last]);
      body := body + [last];
    }
  }
}
