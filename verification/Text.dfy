/** Splitting and joining text, and decimal numbers. */
module Text {

  /** The pieces of `text` between occurrences of `sep`; always at least one. */
  function Split(text: string, sep: char): (parts: seq<string>)
    ensures parts != []
    ensures forall p | p in parts :: sep !in p
  {
    if text == "" then [""]
    else
      var rest := Split(text[1..], sep);
      if text[0] == sep then [""] + rest else [[text[0]] + rest[0]] + rest[1..]
  }

  function Join(parts: seq<string>, sep: char): string {
    if parts == [] then ""
    else if |parts| == 1 then parts[0]
    else parts[0] + [sep] + Join(parts[1..], sep)
  }

  lemma {:induction false} JoinSplit(text: string, sep: char)
    ensures Join(Split(text, sep), sep) == text
  {
    if text != "" {
      JoinSplit(text[1..], sep);
      var rest := Split(text[1..], sep);
      if text[0] == sep {
        assert Split(text, sep)[1..] == rest;
      } else {
        var head := [text[0]] + rest[0];
        assert Split(text, sep) == [head] + rest[1..];
        if |rest| > 1 {
          assert ([head] + rest[1..])[1..] == rest[1..];
        }
      }
    }
  }

  lemma {:induction false} SplitPlain(text: string, sep: char)
    requires sep !in text
    ensures Split(text, sep) == [text]
  {
    if text != "" {
      SplitPlain(text[1..], sep);
      assert [text[0]] + text[1..] == text;
    }
  }

  lemma {:induction false} SplitAt(front: string, back: string, sep: char)
    requires sep !in front
    ensures Split(front + [sep] + back, sep) == [front] + Split(back, sep)
  {
    if front == "" {
      assert ("" + [sep] + back)[1..] == back;
    } else {
      SplitAt(front[1..], back, sep);
      assert (front + [sep] + back)[1..] == front[1..] + [sep] + back;
      assert [front[0]] + front[1..] == front;
    }
  }

  lemma {:induction false} SplitJoin(parts: seq<string>, sep: char)
    requires parts != [] && forall p | p in parts :: sep !in p
    ensures Split(Join(parts, sep), sep) == parts
  {
    if |parts| == 1 {
      SplitPlain(parts[0], sep);
    } else {
      SplitJoin(parts[1..], sep);
      SplitAt(parts[0], Join(parts[1..], sep), sep);
    }
  }

  // ---------------------------------------------------------------- numbers

  /** The last piece is empty exactly if the text is, or ends with a separator. */
  lemma {:induction false} SplitEnds(text: string, sep: char)
    ensures var parts := Split(text, sep);
      parts[|parts| - 1] == "" <==> text == "" || text[|text| - 1] == sep
  {
    if text != "" {
      SplitEnds(text[1..], sep);
    }
  }

  predicate IsDigit(c: char) {
    '0' <= c <= '9'
  }

  function DigitValue(c: char): nat
    requires IsDigit(c)
  {
    c as int - '0' as int
  }

  function DigitChar(d: nat): (c: char)
    requires d < 10
    ensures IsDigit(c) && DigitValue(c) == d
  {
    ('0' as int + d) as char
  }

  function ToDecimal(n: nat): (text: string)
    ensures text != "" && forall c | c in text :: IsDigit(c)
  {
    if n < 10 then [DigitChar(n)] else ToDecimal(n / 10) + [DigitChar(n % 10)]
  }

  function FromDecimal(text: string): nat
    requires forall c | c in text :: IsDigit(c)
  {
    if text == "" then 0 else FromDecimal(text[..|text| - 1]) * 10 + DigitValue(text[|text| - 1])
  }

  lemma {:induction false} DecimalRoundTrip(n: nat)
    ensures FromDecimal(ToDecimal(n)) == n
  {
    if n < 10 {
      assert [DigitChar(n)][..0] == "";
    } else {
      DecimalRoundTrip(n / 10);
      var text := ToDecimal(n);
      assert text[..|text| - 1] == ToDecimal(n / 10);
    }
  }

  /** How many digits `text` starts with. */
  function DigitRun(text: string): (n: nat)
    ensures n <= |text|
    ensures forall c | c in text[..n] :: IsDigit(c)
    ensures n < |text| ==> !IsDigit(text[n])
  {
    if text != "" && IsDigit(text[0]) then
      var n := 1 + DigitRun(text[1..]);
      assert text[..n] == [text[0]] + text[1..][..n - 1];
      n
    else 0
  }

  lemma {:induction false} DigitRunOf(digits: string, rest: string)
    requires forall c | c in digits :: IsDigit(c)
    requires rest != "" ==> !IsDigit(rest[0])
    ensures DigitRun(digits + rest) == |digits|
  {
    if digits == "" {
      assert digits + rest == rest;
    } else {
      assert (digits + rest)[1..] == digits[1..] + rest;
      DigitRunOf(digits[1..], rest);
    }
  }
}
