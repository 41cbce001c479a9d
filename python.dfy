/** Option and Result, the failure-carrying wrappers used throughout the model. */
module Wrappers {
  datatype Option<+T> = None | Some(value: T)

  datatype Result<+T, +E> = Success(value: T) | Failure(error: E)
}

/**
  The pieces of Python's built-in behaviour that the plugin relies on:
  `str.splitlines`, `"\n".join`, `str(int)` and the exceptions that can
  escape the plugin's code.
 */
module Python {
  import opened Wrappers

  /** Exceptions that the modelled code can raise without catching them. */
  datatype Exception = IndexError | UnboundLocalError | ValueError

  /** The characters on which `str.splitlines` breaks a line. */
  predicate IsLineBreak(c: char)
  {
    c == '\n' || c == '\r' || c == '\U{000B}' || c == '\U{000C}' ||
    c == '\U{001C}' || c == '\U{001D}' || c == '\U{001E}' ||
    c == '\U{0085}' || c == '\U{2028}' || c == '\U{2029}'
  }

  predicate NoBreaks(s: string)
  {
    forall i :: 0 <= i < |s| ==> !IsLineBreak(s[i])
  }

  /** Index of the first line break at or after `from`, or |s| if there is none. */
  function FirstBreak(s: string, from: nat): (n: nat)
    requires from <= |s|
    ensures from <= n <= |s|
    ensures n < |s| ==> IsLineBreak(s[n])
    ensures forall j :: from <= j < n ==> !IsLineBreak(s[j])
    decreases |s| - from
  {
    if from == |s| || IsLineBreak(s[from]) then from else FirstBreak(s, from + 1)
  }

  /** Width of the line terminator at `n`: "\r\n" counts as one terminator. */
  function BreakWidth(s: string, n: nat): (w: nat)
    requires n < |s|
    ensures 1 <= w <= |s| - n
  {
    if s[n] == '\r' && n + 1 < |s| && s[n + 1] == '\n' then 2 else 1
  }

  /**
    `s.splitlines()`: the lines of `s` without their terminators; a final
    terminator does not start another line, and "" has no lines.
   */
  function SplitLines(s: string): (lines: seq<string>)
    ensures |lines| <= |s|
    ensures forall i :: 0 <= i < |lines| ==> NoBreaks(lines[i])
    decreases |s|
  {
    if s == [] then []
    else
      var n := FirstBreak(s, 0);
      if n == |s| then [s]
      else [s[..n]] + SplitLines(s[n + BreakWidth(s, n)..])
  }

  /** `"\n".join(lines)`. */
  function JoinLines(lines: seq<string>): string
  {
    if |lines| == 0 then ""
    else if |lines| == 1 then lines[0]
    else lines[0] + "\n" + JoinLines(lines[1..])
  }

  /** Every line followed by "\n", concatenated in order. */
  function Terminated(lines: seq<string>): string
  {
    if lines == [] then ""
    else Terminated(lines[..|lines| - 1]) + lines[|lines| - 1] + "\n"
  }

  lemma {:induction false} TerminatedCons(lines: seq<string>)
    requires lines != []
    ensures Terminated(lines) == lines[0] + "\n" + Terminated(lines[1..])
    decreases |lines|
  {
    if |lines| == 1 {
      assert lines[..0] == [];
      assert lines[1..] == [];
    } else {
      var front, last, tail := lines[..|lines| - 1], lines[|lines| - 1], lines[1..];
      TerminatedCons(front);
      var first, middle := lines[0], Terminated(front[1..]);
      assert tail[..|tail| - 1] == front[1..];
      assert Terminated(tail) == middle + last + "\n";
      assert Terminated(lines) == (first + "\n" + middle) + last + "\n";
    }
  }

  /** A line without breaks followed by a terminator ends the first line of the text. */
  lemma FirstBreakAfterLine(line: string, end: string, rest: string)
    requires NoBreaks(line)
    requires end != "" && IsLineBreak(end[0])
    ensures FirstBreak(line + end + rest, 0) == |line|
  {
    var s := line + end + rest;
    assert s[|line|] == end[0];
    assert forall j :: 0 <= j < |line| ==> s[j] == line[j];
  }

  /**
    Reading back text whose every line is written with "\n" after it gives
    back exactly those lines, the last one included even when empty.
   */
  lemma {:induction false} SplitTerminated(lines: seq<string>)
    requires forall i :: 0 <= i < |lines| ==> NoBreaks(lines[i])
    ensures SplitLines(Terminated(lines)) == lines
    decreases |lines|
  {
    if lines != [] {
      var line, rest := lines[0], Terminated(lines[1..]);
      TerminatedCons(lines);
      FirstLineSplits(line, rest);
      SplitTerminated(lines[1..]);
      assert lines == [line] + lines[1..];
    }
  }

  /** A break-free line followed by "\n" is the first line read back, and the rest follows it. */
  lemma FirstLineSplits(line: string, rest: string)
    requires NoBreaks(line)
    ensures SplitLines(line + "\n" + rest) == [line] + SplitLines(rest)
  {
    var s := line + "\n" + rest;
    FirstBreakAfterLine(line, "\n", rest);
    assert s[|line|] == '\n';
    assert s[..|line|] == line;
    assert s[|line| + 1..] == rest;
  }

  /**
    Joining lines with "\n" and splitting the result again gives back the
    lines, provided the last one is not empty (a trailing empty line would
    leave only a final terminator, which starts no line).
   */
  lemma {:induction false} SplitJoined(lines: seq<string>)
    requires forall i :: 0 <= i < |lines| ==> NoBreaks(lines[i])
    requires lines == [] || lines[|lines| - 1] != ""
    ensures SplitLines(JoinLines(lines)) == lines
    decreases |lines|
  {
    if |lines| == 1 {
      assert FirstBreak(lines[0], 0) == |lines[0]|;
    } else if |lines| > 1 {
      var s := JoinLines(lines);
      FirstBreakAfterLine(lines[0], "\n", JoinLines(lines[1..]));
      assert s[..|lines[0]|] == lines[0];
      assert BreakWidth(s, |lines[0]|) == 1;
      assert s[|lines[0]| + 1..] == JoinLines(lines[1..]);
      SplitJoined(lines[1..]);
      assert lines == [lines[0]] + lines[1..];
    }
  }

  /** A line terminator `str.splitlines` recognises: one break character, or "\r\n". */
  predicate IsLineEnd(end: string)
  {
    (|end| == 1 && IsLineBreak(end[0])) || end == "\r\n"
  }

  /** Each line followed by its own terminator, concatenated in order. */
  function Ended(lines: seq<string>, ends: seq<string>): string
    requires |ends| == |lines|
  {
    if lines == [] then "" else lines[0] + ends[0] + Ended(lines[1..], ends[1..])
  }

  /**
    The lines and terminators read back as written: a "\r" is not followed
    by an empty line ended by "\n", which would merge the two into "\r\n".
   */
  predicate ReadsBackAsWritten(lines: seq<string>, ends: seq<string>)
  {
    && |ends| == |lines|
    && (forall i :: 0 <= i < |lines| ==> NoBreaks(lines[i]) && IsLineEnd(ends[i]))
    && (forall i :: 0 <= i < |lines| - 1 && ends[i] == "\r" ==> !(lines[i + 1] == "" && ends[i + 1] == "\n"))
  }

  /**
    Splitting text whose lines end in any mix of terminators ("\n", "\r",
    "\r\n" or any other break character) gives back exactly the lines,
    whatever terminator each one had.
   */
  lemma {:induction false} SplitEnded(lines: seq<string>, ends: seq<string>)
    requires ReadsBackAsWritten(lines, ends)
    ensures SplitLines(Ended(lines, ends)) == lines
    decreases |lines|
  {
    if lines != [] {
      var line, end := lines[0], ends[0];
      var rest := Ended(lines[1..], ends[1..]);
      var s := line + end + rest;
      assert Ended(lines, ends) == s;
      FirstBreakAfterLine(line, end, rest);
      NextLineStart(lines, ends);
      EndWidth(line, end, rest);
      assert s[..|line|] == line;
      assert s[|line| + |end|..] == rest;
      SplitEnded(lines[1..], ends[1..]);
      assert lines == [line] + lines[1..];
    }
  }

  /** After a lone "\r" the rest of the text does not start with "\n". */
  lemma NextLineStart(lines: seq<string>, ends: seq<string>)
    requires ReadsBackAsWritten(lines, ends) && lines != []
    ensures var rest := Ended(lines[1..], ends[1..]);
      ends[0] == "\r" && rest != [] ==> rest[0] != '\n'
  {
    if |lines| >= 2 && ends[0] == "\r" {
      var rest := Ended(lines[1..], ends[1..]);
      assert lines[1..][0] == lines[1] && ends[1..][0] == ends[1];
      assert rest == lines[1] + ends[1] + Ended(lines[2..], ends[2..]);
      if lines[1] == "" {
        assert rest[0] == ends[1][0];
      } else {
        assert rest[0] == lines[1][0];
      }
    }
  }

  /** The terminator after a line is consumed whole, and no more. */
  lemma EndWidth(line: string, end: string, rest: string)
    requires IsLineEnd(end)
    requires end == "\r" && rest != [] ==> rest[0] != '\n'
    ensures BreakWidth(line + end + rest, |line|) == |end|
  {
    var s := line + end + rest;
    assert s[|line|] == end[0];
    if |end| == 2 {
      assert s[|line| + 1] == end[1];
    } else if rest != [] {
      assert s[|line| + 1] == rest[0];
    }
  }

  predicate IsDigits(s: string)
  {
    forall i :: 0 <= i < |s| ==> '0' <= s[i] <= '9'
  }

  function DigitChar(d: nat): (c: char)
    requires d < 10
  {
    (48 + d) as char
  }

  /** `str(n)` for a non-negative integer: decimal digits, no leading zero. */
  function NatToString(n: nat): (s: string)
    ensures |s| >= 1 && IsDigits(s)
    ensures s[0] == '0' <==> n == 0
    ensures n == 0 ==> s == "0"
  {
    if n < 10 then [DigitChar(n)] else NatToString(n / 10) + [DigitChar(n % 10)]
  }

  /** `str(i)` for any integer, with a leading "-" when negative. */
  function IntToString(i: int): string
  {
    if i < 0 then "-" + NatToString(-i) else NatToString(i)
  }

  /** The value of a string of decimal digits. */
  function DigitsValue(s: string): nat
    requires IsDigits(s)
  {
    if s == [] then 0
    else DigitsValue(s[..|s| - 1]) * 10 + (s[|s| - 1] as int - '0' as int)
  }

  /** Python's `int(s)` restricted to an optional "-" followed by digits. */
  function ParseInt(s: string): Option<int>
  {
    if |s| >= 2 && s[0] == '-' && IsDigits(s[1..]) then Some(0 - DigitsValue(s[1..]))
    else if |s| >= 1 && IsDigits(s) then Some(DigitsValue(s))
    else None
  }

  lemma {:induction false} NatToStringValue(n: nat)
    ensures DigitsValue(NatToString(n)) == n
  {
    if n >= 10 {
      var s := NatToString(n);
      NatToStringValue(n / 10);
      assert s[..|s| - 1] == NatToString(n / 10);
    }
  }

  /** `str(i)` is read back as `i`: the decimal rendering loses nothing. */
  lemma IntToStringRoundTrip(i: int)
    ensures ParseInt(IntToString(i)) == Some(i)
  {
    if i < 0 {
      var digits := NatToString(-i);
      var s := "-" + digits;
      NatToStringValue(-i);
      assert s[1..] == digits;
      assert |s| >= 2 && s[0] == '-' && IsDigits(s[1..]);
      assert ParseInt(s) == Some(0 - DigitsValue(digits));
    } else {
      NatToStringValue(i);
    }
  }
}
