/**
 * The `java.lang` text operations the board reader relies on: `String.lines()`,
 * `String.split(" ")`, `Integer.parseInt` and `String.toUpperCase(Locale.ENGLISH)`.
 */
module JavaText {
  import opened Wrappers
  import opened JavaInts

  predicate IsLineTerminator(c: char) {
    c == '\n' || c == '\r'
  }

  /** The length of the first line of `s`: the index of its first terminator, or `|s|`. */
  function LineEnd(s: string): (i: nat)
    ensures i <= |s|
    ensures forall j :: 0 <= j < i ==> !IsLineTerminator(s[j])
    ensures i < |s| ==> IsLineTerminator(s[i])
  {
    if s == [] || IsLineTerminator(s[0]) then 0 else 1 + LineEnd(s[1..])
  }

  /**
   * `String.lines()`: the text split at `\n`, `\r` and `\r\n`; a final terminator does not
   * start another line, so the empty text has no line at all.
   */
  function Lines(s: string): (ls: seq<string>)
    ensures ls == [] <==> s == []
    ensures forall k :: 0 <= k < |ls| ==> forall j :: 0 <= j < |ls[k]| ==> !IsLineTerminator(ls[k][j])
    decreases |s|
  {
    if s == [] then []
    else
      var i := LineEnd(s);
      var next :=
        if i == |s| then i
        else if s[i] == '\r' && i + 1 < |s| && s[i + 1] == '\n' then i + 2
        else i + 1;
      [s[..i]] + Lines(s[next..])
  }

  /** The index of the first space of `s`, or `|s|`. */
  function SpaceIndex(s: string): (i: nat)
    ensures i <= |s|
    ensures forall j :: 0 <= j < i ==> s[j] != ' '
    ensures i < |s| ==> s[i] == ' '
  {
    if s == [] || s[0] == ' ' then 0 else 1 + SpaceIndex(s[1..])
  }

  /** Every piece of `s` between spaces, empty ones included. */
  function Fields(s: string): (fs: seq<string>)
    ensures |fs| >= 1
    ensures forall k :: 0 <= k < |fs| ==> ' ' !in fs[k]
    decreases |s|
  {
    var i := SpaceIndex(s);
    if i == |s| then [s] else [s[..i]] + Fields(s[i + 1..])
  }

  function DropTrailingEmpty(fs: seq<string>): (r: seq<string>)
    ensures |r| <= |fs| && r == fs[..|r|]
    ensures r != [] ==> r[|r| - 1] != ""
  {
    if fs != [] && fs[|fs| - 1] == "" then DropTrailingEmpty(fs[..|fs| - 1]) else fs
  }

  /**
   * `s.split(" ")`: the text itself when it holds no space; otherwise the pieces between
   * spaces with trailing empty pieces removed.
   */
  function Split(s: string): (fs: seq<string>)
    ensures forall k :: 0 <= k < |fs| ==> ' ' !in fs[k]
    ensures ' ' !in s ==> fs == [s]
  {
    if ' ' !in s then [s] else DropTrailingEmpty(Fields(s))
  }

  predicate IsDigit(c: char) {
    '0' <= c <= '9'
  }

  /** The value of a string of decimal digits. */
  function DecimalValue(ds: string): (v: nat)
    requires forall j :: 0 <= j < |ds| ==> IsDigit(ds[j])
    decreases |ds|
  {
    if ds == [] then 0
    else
      assert IsDigit(ds[|ds| - 1]);
      10 * DecimalValue(ds[..|ds| - 1]) + (ds[|ds| - 1] as int - '0' as int)
  }

  /**
   * `Integer.parseInt(s)`: an optional sign and at least one digit, denoting a value in the
   * `int` range; `None` where Java throws `NumberFormatException`.
   */
  function ParseInt(s: string): (r: Option<int32>)
    ensures s == [] ==> r.None?
    ensures r.Some? ==> s[0] == '-' || s[0] == '+' || IsDigit(s[0])
    ensures r.Some? ==> forall j :: 1 <= j < |s| ==> IsDigit(s[j])
    ensures r.Some? ==> IsDigit(s[|s| - 1])
  {
    if s == [] then None
    else
      var signed := s[0] == '-' || s[0] == '+';
      var ds := if signed then s[1..] else s;
      if ds == [] || exists j :: 0 <= j < |ds| && !IsDigit(ds[j]) then None
      else
        var v := if s[0] == '-' then -(DecimalValue(ds) as int) else DecimalValue(ds);
        if MIN_VALUE <= v <= MAX_VALUE then Some(v as int32) else None
  }

  /**
   * The upper case in the English locale of the characters whose upper case is one ASCII
   * letter: `a`-`z`, dotless `i` and long `s`. Every other character is kept. Java gives some
   * characters an upper case of several characters (`ß` becomes `SS`, the ligature `ﬁ`
   * becomes `FI`); those are not expanded here. Each such expansion either holds a non-ASCII
   * character or is one of `SS`, `FF`, `FI`, `FL`, `FFI`, `FFL` and `ST`, none of which occurs
   * in a transport name, so a text holding one is no transport name in Java nor here.
   */
  function UpperCaseChar(c: char): (u: char)
    ensures 'A' <= u <= 'Z' ==> 'A' <= c <= 'Z' || 'a' <= c <= 'z' || c == '\U{0131}' || c == '\U{017F}'
  {
    if 'a' <= c <= 'z' then (c as int - 32) as char
    else if c == '\U{0131}' then 'I'
    else if c == '\U{017F}' then 'S'
    else c
  }

  /**
   * `s.toUpperCase(Locale.ENGLISH)`, character by character as `UpperCaseChar` states. Unlike
   * Java's, it keeps the length of the text, since multi-character upper cases are not expanded.
   */
  function ToUpperCase(s: string): (u: string)
    ensures |u| == |s|
    ensures forall j :: 0 <= j < |s| ==> u[j] == UpperCaseChar(s[j])
  {
    seq(|s|, j requires 0 <= j < |s| => UpperCaseChar(s[j]))
  }

  /** ASCII lower case, for stating that upper-case names are matched whatever their case. */
  function ToLowerAscii(s: string): (l: string)
    ensures |l| == |s|
  {
    seq(|s|, j requires 0 <= j < |s| => if 'A' <= s[j] <= 'Z' then (s[j] as int + 32) as char else s[j])
  }

  /** The text holding each of `ls` followed by a line feed. */
  function Terminated(ls: seq<string>): string {
    if ls == [] then "" else ls[0] + "\n" + Terminated(ls[1..])
  }

  /** A line without terminator, followed by a line feed, ends exactly at that line feed. */
  lemma LineEndOfTerminated(l: string, rest: string)
    requires forall j :: 0 <= j < |l| ==> !IsLineTerminator(l[j])
    ensures LineEnd(l + "\n" + rest) == |l|
  {
    var s := l + "\n" + rest;
    var i := LineEnd(s);
    assert s[|l|] == '\n';
  }

  /** Lines without terminators, each ended by a line feed, are read back as they were. */
  lemma {:induction false} LinesOfTerminated(ls: seq<string>)
    requires forall k :: 0 <= k < |ls| ==> forall j :: 0 <= j < |ls[k]| ==> !IsLineTerminator(ls[k][j])
    ensures Lines(Terminated(ls)) == ls
    decreases |ls|
  {
    if ls != [] {
      var rest := Terminated(ls[1..]);
      var s := ls[0] + "\n" + rest;
      LineEndOfTerminated(ls[0], rest);
      assert s[..|ls[0]|] == ls[0];
      assert s[|ls[0]| + 1..] == rest;
      LinesOfTerminated(ls[1..]);
    }
  }

  /** The fields joined with single spaces. */
  function JoinFields(fs: seq<string>): string
    requires fs != []
  {
    if |fs| == 1 then fs[0] else fs[0] + " " + JoinFields(fs[1..])
  }

  /** Cutting the joined fields at every space gives back the fields, empty ones included. */
  lemma {:induction false} FieldsOfJoin(fs: seq<string>)
    requires fs != []
    requires forall k :: 0 <= k < |fs| ==> ' ' !in fs[k]
    ensures Fields(JoinFields(fs)) == fs
    decreases |fs|
  {
    var s := JoinFields(fs);
    var i := SpaceIndex(s);
    if |fs| > 1 {
      var rest := JoinFields(fs[1..]);
      assert s == fs[0] + " " + rest;
      assert s[|fs[0]|] == ' ';
      assert i == |fs[0]|;
      assert s[..i] == fs[0];
      assert s[i + 1..] == rest;
      FieldsOfJoin(fs[1..]);
    }
  }

  /**
   * `split(" ")` gives back the fields joined with single spaces, provided there are at least
   * two and the last is not empty (Java drops trailing empty fields).
   */
  lemma SplitOfJoin(fs: seq<string>)
    requires |fs| >= 2 && fs[|fs| - 1] != ""
    requires forall k :: 0 <= k < |fs| ==> ' ' !in fs[k]
    ensures Split(JoinFields(fs)) == fs
  {
    var s := JoinFields(fs);
    assert s == fs[0] + " " + JoinFields(fs[1..]);
    assert s[|fs[0]|] == ' ';
    FieldsOfJoin(fs);
  }

  /** The decimal digits of a natural number, without leading zeros. */
  function Decimal(n: nat): (ds: string)
    ensures ds != [] && forall j :: 0 <= j < |ds| ==> IsDigit(ds[j])
  {
    var digit := ('0' as int + n % 10) as char;
    if n < 10 then [digit] else Decimal(n / 10) + [digit]
  }

  /** The digits of `n` have value `n`. */
  lemma {:induction false} DecimalValueOfDecimal(n: nat)
    ensures DecimalValue(Decimal(n)) == n
  {
    var ds := Decimal(n);
    if n >= 10 {
      assert ds[..|ds| - 1] == Decimal(n / 10);
      DecimalValueOfDecimal(n / 10);
    }
  }

  /** `Integer.parseInt` reads a minus sign before the digits of `n` as `-n`, down to the `int` minimum. */
  lemma ParseIntOfNegativeDecimal(n: nat)
    requires 0 < n <= -MIN_VALUE
    ensures ParseInt("-" + Decimal(n)) == Some((-(n as int)) as int32)
  {
    var s := "-" + Decimal(n);
    assert s[1..] == Decimal(n);
    DecimalValueOfDecimal(n);
  }

  /** A plus sign before the digits is read as no sign at all. */
  lemma ParseIntOfPlusDecimal(n: int32)
    requires n >= 0
    ensures ParseInt("+" + Decimal(n as nat)) == Some(n)
  {
    var s := "+" + Decimal(n as nat);
    assert s[1..] == Decimal(n as nat);
    DecimalValueOfDecimal(n as nat);
  }

  /** Digits whose value is beyond the `int` range are refused. */
  lemma ParseIntOutOfRange(n: nat)
    requires n > MAX_VALUE
    ensures ParseInt(Decimal(n)).None?
    ensures n > -MIN_VALUE ==> ParseInt("-" + Decimal(n)).None?
  {
    var s := "-" + Decimal(n);
    assert s[1..] == Decimal(n);
    DecimalValueOfDecimal(n);
  }

  /** `Integer.parseInt` reads back the decimal digits of every non-negative `int`. */
  lemma ParseIntOfDecimal(n: int32)
    requires n >= 0
    ensures ParseInt(Decimal(n as nat)) == Some(n)
  {
    DecimalValueOfDecimal(n as nat);
  }
}
