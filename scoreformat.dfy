/**
 * The text format of the score file: one line per score,
 * "<difficulty>;<name>;<time>", where a name may itself contain ';'.
 * Splitting follows Java's String.split with a one-character separator:
 * fields are cut at every separator and trailing empty fields are dropped.
 */
module ScoreFormat {

  datatype Option<T> = None | Some(value: T)

  /** Every field of s between separators, including empty ones (at least one field). */
  function SplitAll(s: string, sep: char): (r: seq<string>)
    ensures |r| >= 1
    ensures forall k | 0 <= k < |r| :: sep !in r[k]
    decreases |s|
  {
    if |s| == 0 then [""]
    else if s[0] == sep then [""] + SplitAll(s[1..], sep)
    else
      var rest := SplitAll(s[1..], sep);
      [[s[0]] + rest[0]] + rest[1..]
  }

  /** fields with trailing empty fields removed. */
  function DropTrailingEmpty(fields: seq<string>): (r: seq<string>)
    ensures |r| <= |fields| && r == fields[..|r|]
    ensures |r| == 0 || r[|r| - 1] != ""
    ensures forall k | |r| <= k < |fields| :: fields[k] == ""
  {
    if |fields| > 0 && fields[|fields| - 1] == "" then DropTrailingEmpty(fields[..|fields| - 1])
    else fields
  }

  /** Java's s.split(sep): an input without a match is its own single field. */
  function JavaSplit(s: string, sep: char): seq<string>
  {
    if s == "" then [""] else DropTrailingEmpty(SplitAll(s, sep))
  }

  /** The fields joined back together with the separator between them. */
  function Join(fields: seq<string>, sep: char): string
    decreases |fields|
  {
    if |fields| == 0 then ""
    else if |fields| == 1 then fields[0]
    else fields[0] + [sep] + Join(fields[1..], sep)
  }

  /** Joining the fields of a split gives back the text. */
  lemma {:induction false} JoinSplitAll(s: string, sep: char)
    ensures Join(SplitAll(s, sep), sep) == s
    decreases |s|
  {
    if |s| == 0 {
    } else if s[0] == sep {
      JoinSplitAll(s[1..], sep);
      var rest := SplitAll(s[1..], sep);
      assert SplitAll(s, sep) == [""] + rest;
      assert s == [sep] + s[1..];
    } else {
      JoinSplitAll(s[1..], sep);
      var rest := SplitAll(s[1..], sep);
      assert SplitAll(s, sep)[1..] == rest[1..];
      if |rest| == 1 {
        assert s == [s[0]] + s[1..];
      } else {
        assert Join(rest, sep) == rest[0] + [sep] + Join(rest[1..], sep);
        assert s == [s[0]] + s[1..];
      }
    }
  }

  /** Splitting at a separator splits both sides independently. */
  lemma {:induction false} SplitAllAppend(x: string, y: string, sep: char)
    ensures SplitAll(x + [sep] + y, sep) == SplitAll(x, sep) + SplitAll(y, sep)
    decreases |x|
  {
    var s := x + [sep] + y;
    if |x| == 0 {
      assert s[1..] == y;
    } else {
      assert s[1..] == x[1..] + [sep] + y;
      SplitAllAppend(x[1..], y, sep);
    }
  }

  /** A text without the separator is a single field. */
  lemma {:induction false} SplitAllSingle(s: string, sep: char)
    requires sep !in s
    ensures SplitAll(s, sep) == [s]
    decreases |s|
  {
    if |s| > 0 {
      assert sep !in s[1..];
      SplitAllSingle(s[1..], sep);
      assert s == [s[0]] + s[1..];
    }
  }

  // Decimal numbers.

  predicate IsDigit(c: char)
  {
    '0' <= c <= '9'
  }

  predicate IsDigits(s: string)
  {
    |s| > 0 && forall k | 0 <= k < |s| :: IsDigit(s[k])
  }

  function DigitChar(d: nat): char
    requires d < 10
  {
    (48 + d) as char
  }

  function DigitValue(c: char): nat
    requires IsDigit(c)
  {
    (c as int - 48) as nat
  }

  /** The decimal digits of n, without leading zeros. */
  function NatText(n: nat): (r: string)
    ensures IsDigits(r)
  {
    if n < 10 then [DigitChar(n)] else NatText(n / 10) + [DigitChar(n % 10)]
  }

  /** The value of a string of decimal digits. */
  function ParseNat(s: string): nat
    requires IsDigits(s)
    decreases |s|
  {
    if |s| == 1 then DigitValue(s[0])
    else ParseNat(s[..|s| - 1]) * 10 + DigitValue(s[|s| - 1])
  }

  lemma {:induction false} ParseNatText(n: nat)
    ensures ParseNat(NatText(n)) == n
  {
    if n >= 10 {
      ParseNatText(n / 10);
      var s := NatText(n);
      assert s[..|s| - 1] == NatText(n / 10);
    }
  }

  /**
   * A time in tenths of a second as Java writes the double: integer part,
   * a point and one decimal ("12.5", "7.0").
   */
  function TimeText(tenths: nat): string
  {
    NatText(tenths / 10) + "." + [DigitChar(tenths % 10)]
  }

  /**
   * The time, in tenths, that a field denotes: digits, optionally followed by
   * a point and one decimal; anything else is not a number.
   */
  function ParseTime(s: string): Option<nat>
  {
    if IsDigits(s) then Some(ParseNat(s) * 10)
    else if |s| >= 3 && s[|s| - 2] == '.' && IsDigits(s[..|s| - 2]) && IsDigit(s[|s| - 1]) then
      Some(ParseNat(s[..|s| - 2]) * 10 + DigitValue(s[|s| - 1]))
    else None
  }

  /** Reading back a written time gives the time. */
  lemma TimeRoundTrip(tenths: nat)
    ensures ParseTime(TimeText(tenths)) == Some(tenths)
    ensures TimeText(tenths) != "" && ';' !in TimeText(tenths) && '\n' !in TimeText(tenths)
  {
    var s := TimeText(tenths);
    assert !IsDigit(s[|s| - 2]);
    assert s[..|s| - 2] == NatText(tenths / 10);
    ParseNatText(tenths / 10);
  }

  // Lines of a text.

  /**
   * The lines a reader returns: the text cut at every '\n', where a final
   * '\n' ends the last line rather than starting an empty one.
   */
  function Lines(text: string): seq<string>
  {
    if text == "" then []
    else
      var parts := SplitAll(text, '\n');
      if parts[|parts| - 1] == "" then parts[..|parts| - 1] else parts
  }

  /** Each line followed by a '\n'. */
  function Terminated(lines: seq<string>): string
    decreases |lines|
  {
    if |lines| == 0 then "" else lines[0] + "\n" + Terminated(lines[1..])
  }

  lemma {:induction false} SplitTerminated(lines: seq<string>)
    requires forall k | 0 <= k < |lines| :: '\n' !in lines[k]
    ensures SplitAll(Terminated(lines), '\n') == lines + [""]
    decreases |lines|
  {
    if |lines| > 0 {
      SplitTerminated(lines[1..]);
      SplitAllAppend(lines[0], Terminated(lines[1..]), '\n');
      SplitAllSingle(lines[0], '\n');
      assert lines == [lines[0]] + lines[1..];
    }
  }

  /** Reading the lines of a text written line by line gives back the lines. */
  lemma LinesOfTerminated(lines: seq<string>)
    requires forall k | 0 <= k < |lines| :: '\n' !in lines[k]
    ensures Lines(Terminated(lines)) == lines
  {
    SplitTerminated(lines);
    if |lines| > 0 {
      assert Terminated(lines) != "";
    }
  }

  lemma {:induction false} TerminatedAppend(a: seq<string>, b: seq<string>)
    ensures Terminated(a + b) == Terminated(a) + Terminated(b)
    decreases |a|
  {
    if |a| > 0 {
      assert (a + b)[1..] == a[1..] + b;
      TerminatedAppend(a[1..], b);
    } else {
      assert a + b == b;
    }
  }

  // One score line.

  /** Why a line cannot be read as a score. */
  datatype LineError = TooFewFields | BadTime | UnknownDifficulty

  /** A line read as difficulty, name and time. */
  datatype Parsed = Parsed(difficulty: string, name: string, time: nat)

  datatype LineResult = Read(parsed: Parsed) | Unreadable(error: LineError)

  /**
   * Splits a line at ';'. More than three fields means the name contained ';':
   * the first field is the difficulty, the last the time, and the fields in
   * between are joined with ';' into the name.
   */
  function ParseLine(line: string): (r: LineResult)
    ensures r == Unreadable(TooFewFields) <==> |JavaSplit(line, ';')| < 3
    ensures r == Unreadable(BadTime) <==>
      |JavaSplit(line, ';')| >= 3 && ParseTime(JavaSplit(line, ';')[|JavaSplit(line, ';')| - 1]) == None
    ensures r.Read? ==>
      && r.parsed.difficulty == JavaSplit(line, ';')[0]
      && Some(r.parsed.time) == ParseTime(JavaSplit(line, ';')[|JavaSplit(line, ';')| - 1])
  {
    var f := JavaSplit(line, ';');
    var g := if |f| > 3 then [f[0], Join(f[1..|f| - 1], ';'), f[|f| - 1]] else f;
    if |g| < 3 then Unreadable(TooFewFields)
    else match ParseTime(g[2])
      case None => Unreadable(BadTime)
      case Some(t) => Read(Parsed(g[0], g[1], t))
  }

  /** A line of exactly three fields reads as difficulty, name and time in that order. */
  lemma ParseThreeFields(line: string)
    requires |JavaSplit(line, ';')| == 3
    ensures var f := JavaSplit(line, ';');
      ParseLine(line) == match ParseTime(f[2])
        case None => Unreadable(BadTime)
        case Some(t) => Read(Parsed(f[0], f[1], t))
  {
  }

  /**
   * A line of more than three fields reads as the first field, the middle
   * fields joined with ';', and the last field; the name splits back into
   * exactly those middle fields.
   */
  lemma ParseMoreFields(line: string)
    requires |JavaSplit(line, ';')| > 3
    ensures var f := JavaSplit(line, ';');
      (ParseLine(line).Read? <==> ParseTime(f[|f| - 1]).Some?) &&
      (ParseLine(line).Read? ==>
        && ParseLine(line).parsed.difficulty == f[0]
        && SplitAll(ParseLine(line).parsed.name, ';') == f[1..|f| - 1]
        && ParseLine(line).parsed.time == ParseTime(f[|f| - 1]).value)
  {
    var f := JavaSplit(line, ';');
    SplitJoin(f[1..|f| - 1], ';');
  }

  /** Splitting a join of separator-free fields gives back the fields. */
  lemma {:induction false} SplitJoin(fields: seq<string>, sep: char)
    requires |fields| >= 1
    requires forall k | 0 <= k < |fields| :: sep !in fields[k]
    ensures SplitAll(Join(fields, sep), sep) == fields
    decreases |fields|
  {
    if |fields| == 1 {
      SplitAllSingle(fields[0], sep);
    } else {
      SplitJoin(fields[1..], sep);
      SplitAllAppend(fields[0], Join(fields[1..], sep), sep);
      SplitAllSingle(fields[0], sep);
      assert fields == [fields[0]] + fields[1..];
    }
  }

  /** The fields of a written line: the difficulty, the pieces of the name, and the time. */
  lemma WrittenFields(difficulty: string, name: string, time: string)
    requires ';' !in difficulty && ';' !in time && time != ""
    ensures JavaSplit(difficulty + ";" + name + ";" + time, ';') == [difficulty] + SplitAll(name, ';') + [time]
  {
    var line := difficulty + ";" + name + ";" + time;
    assert line == difficulty + [';'] + (name + [';'] + time);
    SplitAllAppend(difficulty, name + [';'] + time, ';');
    SplitAllAppend(name, time, ';');
    SplitAllSingle(difficulty, ';');
    SplitAllSingle(time, ';');
    var all := [difficulty] + SplitAll(name, ';') + [time];
    assert SplitAll(line, ';') == all;
    assert DropTrailingEmpty(all) == all;
  }

  /**
   * A line written as difficulty, name and time reads back as the same three,
   * whatever ';' the name contains, as long as the difficulty has none.
   */
  lemma ParseWritten(difficulty: string, name: string, tenths: nat)
    requires ';' !in difficulty
    ensures ParseLine(difficulty + ";" + name + ";" + TimeText(tenths)) == Read(Parsed(difficulty, name, tenths))
  {
    var time := TimeText(tenths);
    TimeRoundTrip(tenths);
    WrittenFields(difficulty, name, time);
    var inner := SplitAll(name, ';');
    var f := JavaSplit(difficulty + ";" + name + ";" + time, ';');
    JoinSplitAll(name, ';');
    if |inner| == 1 {
      assert f[1] == name;
    } else {
      assert f[1..|f| - 1] == inner;
    }
  }
}
