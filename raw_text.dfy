/** The text processing in GpsdRawDataViewer::updateData(): splitting the
    daemon's buffer into lines, trimming them, the two line shapes the viewer
    accepts, and the regrouping of hex lines into byte tokens whose column is
    recovered from the text already shown. */
module RawText {

  // ---------------------------------------------------------------------
  // Lines: QString::split("\n") and its inverse

  /** Joins lines with a newline between each two: the inverse of Split. */
  function Join(lines: seq<string>): string
  {
    if |lines| == 0 then ""
    else if |lines| == 1 then lines[0]
    else lines[0] + "\n" + Join(lines[1..])
  }

  /** QString::split("\n") keeping empty parts: never empty, no piece holds a
      newline, and joining the pieces gives the input back. */
  function Split(s: string): (r: seq<string>)
    ensures |r| >= 1
    ensures forall i :: 0 <= i < |r| ==> '\n' !in r[i]
    ensures Join(r) == s
    decreases |s|
  {
    if |s| == 0 then [""]
    else
      var rest := Split(s[1..]);
      if s[0] == '\n' then
        assert ([""] + rest)[1..] == rest;
        [""] + rest
      else
        var r := [[s[0]] + rest[0]] + rest[1..];
        assert r[1..] == rest[1..];
        assert |rest| > 1 ==> Join(rest) == rest[0] + "\n" + Join(rest[1..]);
        assert s == [s[0]] + s[1..];
        r
  }

  /** Splitting text that starts with a newline-free piece. */
  lemma {:induction false} SplitAppend(a: string, t: string)
    requires '\n' !in a
    ensures Split(a + t) == [a + Split(t)[0]] + Split(t)[1..]
    decreases |a|
  {
    if |a| > 0 {
      assert (a + t)[1..] == a[1..] + t;
      SplitAppend(a[1..], t);
      assert [a[0]] + (a[1..] + Split(t)[0]) == a + Split(t)[0];
    } else {
      assert a + t == t;
      assert a + Split(t)[0] == Split(t)[0];
      assert Split(t) == [Split(t)[0]] + Split(t)[1..];
    }
  }

  /** A line without a newline splits into itself. */
  lemma SplitSingle(a: string)
    requires '\n' !in a
    ensures Split(a) == [a]
  {
    SplitAppend(a, "");
    assert a + "" == a;
  }

  /** Split undoes Join when no line holds a newline. */
  lemma {:induction false} SplitJoin(lines: seq<string>)
    requires |lines| >= 1
    requires forall i :: 0 <= i < |lines| ==> '\n' !in lines[i]
    ensures Split(Join(lines)) == lines
    decreases |lines|
  {
    if |lines| == 1 {
      SplitSingle(lines[0]);
    } else {
      var rest := Join(lines[1..]);
      SplitJoin(lines[1..]);
      var nl := "\n" + rest;
      SplitAppend(lines[0], nl);
      assert nl[1..] == rest;
      assert Split(nl) == [""] + lines[1..];
      assert Split(nl)[0] == "" && Split(nl)[1..] == lines[1..];
      assert lines[0] + "" == lines[0];
      assert Join(lines) == lines[0] + nl;
      assert lines == [lines[0]] + lines[1..];
    }
  }

  // ---------------------------------------------------------------------
  // QString::trimmed()

  /** QChar::isSpace() as in Qt 4: tab, line feed, vertical tab, form feed,
      carriage return, and the Unicode space, line and paragraph separators. */
  predicate IsSpace(c: char) {
    || ('\t' <= c <= '\r')
    || c == ' ' || c == '\U{00A0}' || c == '\U{1680}' || c == '\U{180E}'
    || ('\U{2000}' <= c <= '\U{200A}')
    || c == '\U{2028}' || c == '\U{2029}' || c == '\U{202F}' || c == '\U{205F}' || c == '\U{3000}'
  }

  /** Drops leading white space: a suffix of the input that does not start
      with a space, everything before it being space. */
  function TrimStart(s: string): (r: string)
    ensures |r| <= |s| && r == s[|s| - |r|..]
    ensures |r| > 0 ==> !IsSpace(r[0])
    ensures forall i :: 0 <= i < |s| - |r| ==> IsSpace(s[i])
    decreases |s|
  {
    if |s| > 0 && IsSpace(s[0]) then TrimStart(s[1..]) else s
  }

  /** Drops trailing white space: a prefix of the input that does not end
      with a space, everything after it being space. */
  function TrimEnd(s: string): (r: string)
    ensures |r| <= |s| && r == s[..|r|]
    ensures |r| > 0 ==> !IsSpace(r[|r| - 1])
    ensures forall i :: |r| <= i < |s| ==> IsSpace(s[i])
    decreases |s|
  {
    if |s| > 0 && IsSpace(s[|s| - 1]) then TrimEnd(s[..|s| - 1]) else s
  }

  /** QString::trimmed(). */
  function Trim(s: string): string {
    TrimEnd(TrimStart(s))
  }

  /** Trim keeps the contiguous part of its input that starts where the
      leading white space ends. */
  lemma TrimKeepsInfix(s: string)
    ensures var r, i := Trim(s), |s| - |TrimStart(s)|;
      0 <= i <= |s| - |r| && r == s[i..i + |r|]
  {
    var t := TrimStart(s);
    var r := TrimEnd(t);
    var i := |s| - |t|;
    assert t == s[i..];
    assert r == t[..|r|];
  }

  /** Everything Trim drops after the part it keeps is white space. */
  lemma TrimDropsTrailingSpace(s: string)
    ensures var r, i := Trim(s), |s| - |TrimStart(s)|;
      forall k :: i + |r| <= k < |s| ==> IsSpace(s[k])
  {
    var t := TrimStart(s);
    var r := TrimEnd(t);
    var i := |s| - |t|;
    forall k | i + |r| <= k < |s|
      ensures IsSpace(s[k])
    {
      assert s[k] == t[k - i];
    }
  }

  /** The trimmed text neither starts nor ends with white space. */
  lemma TrimUnpaddedResult(s: string)
    ensures var r := Trim(s);
      |r| > 0 ==> !IsSpace(r[0]) && !IsSpace(r[|r| - 1])
  {
    var t := TrimStart(s);
    var r := TrimEnd(t);
    if |r| > 0 {
      assert r[0] == t[0];
    }
  }

  /** Trim keeps a contiguous part of its input, removes only white space
      around it, and leaves no white space at either end. */
  lemma TrimSpec(s: string)
    ensures var r, i := Trim(s), |s| - |TrimStart(s)|;
      && (|r| > 0 ==> !IsSpace(r[0]) && !IsSpace(r[|r| - 1]))
      && 0 <= i <= |s| - |r|
      && r == s[i..i + |r|]
      && (forall k :: 0 <= k < i ==> IsSpace(s[k]))
      && (forall k :: i + |r| <= k < |s| ==> IsSpace(s[k]))
  {
    TrimKeepsInfix(s);
    TrimDropsTrailingSpace(s);
    TrimUnpaddedResult(s);
  }

  /** A string with no white space at either end is its own trim. */
  lemma TrimUnpadded(s: string)
    requires |s| > 0 ==> !IsSpace(s[0]) && !IsSpace(s[|s| - 1])
    ensures Trim(s) == s
  {
  }

  /** Trimming twice is trimming once. */
  lemma TrimIdempotent(s: string)
    ensures Trim(Trim(s)) == Trim(s)
  {
    TrimUnpaddedResult(s);
    TrimUnpadded(Trim(s));
  }

  // ---------------------------------------------------------------------
  // The two line shapes

  /** QRegExp("^\\$.*\\*..$").exactMatch(s): a leading '$', then anything,
      then '*' and exactly two more characters. */
  predicate IsNmeaSentence(s: string) {
    |s| >= 4 && s[0] == '$' && s[|s| - 3] == '*'
  }

  /** The sentence with the given payload and two checksum characters. */
  function Sentence(payload: string, c1: char, c2: char): string {
    "$" + payload + "*" + [c1, c2]
  }

  /** A line has the sentence shape exactly when it is some payload and
      checksum put together as a sentence. */
  lemma NmeaShape(s: string)
    ensures IsNmeaSentence(s) <==> exists p, c1, c2 :: s == Sentence(p, c1, c2)
  {
    if IsNmeaSentence(s) {
      var p, c1, c2 := s[1..|s| - 3], s[|s| - 2], s[|s| - 1];
      assert s == Sentence(p, c1, c2);
    }
    if exists p, c1, c2 :: s == Sentence(p, c1, c2) {
      var p, c1, c2 :| s == Sentence(p, c1, c2);
      assert s[|s| - 3] == '*';
    }
  }

  /** A sample sentence is kept as it is. */
  lemma NmeaSampleKept()
    ensures IsNmeaSentence(Trim("$GPGGA,1*1A"))
  {
    var s := "$GPGGA,1*1A";
    assert s[0] == '$' && s[|s| - 1] == 'A' && s[|s| - 3] == '*';
    TrimUnpadded(s);
  }

  /** A sample sentence missing one checksum character is dropped. */
  lemma NmeaSampleShortChecksum()
    ensures !IsNmeaSentence(Trim("$GPGGA,1*1"))
  {
    var s := "$GPGGA,1*1";
    assert s[0] == '$' && s[|s| - 1] == '1' && s[|s| - 3] == '1';
    TrimUnpadded(s);
  }

  /** A space on each side of an unpadded line is trimmed away. */
  lemma TrimPadding(p: string)
    requires |p| > 0 && !IsSpace(p[0]) && !IsSpace(p[|p| - 1])
    ensures Trim(" " + p + " ") == p
  {
    var padded := " " + p + " ";
    var t := p + " ";
    assert padded[1..] == t && t[0] == p[0];
    assert TrimStart(padded) == TrimStart(t) == t;
    assert t[..|t| - 1] == p;
    assert TrimEnd(t) == TrimEnd(p) == p;
  }

  predicate IsHexDigit(c: char) {
    '0' <= c <= '9' || 'a' <= c <= 'f'
  }

  /** QRegExp("^([0-9a-f]{2})+$").exactMatch(s), stated by count. */
  predicate IsHexLine(s: string) {
    |s| > 0 && |s| % 2 == 0 && forall i :: 0 <= i < |s| ==> IsHexDigit(s[i])
  }

  /** The same expression read as a grammar: one pair of lowercase hex
      digits, followed by more pairs or by the end. */
  predicate HexPairs(s: string)
    decreases |s|
  {
    |s| >= 2 && IsHexDigit(s[0]) && IsHexDigit(s[1]) && (|s| == 2 || HexPairs(s[2..]))
  }

  /** The counting reading and the grammar reading accept the same lines. */
  lemma {:induction false} HexLineIsHexPairs(s: string)
    ensures IsHexLine(s) <==> HexPairs(s)
    decreases |s|
  {
    if |s| > 2 {
      HexLineIsHexPairs(s[2..]);
      if HexPairs(s) {
        assert forall i :: 2 <= i < |s| ==> s[i] == s[2..][i - 2];
      }
    }
  }

  /** A hex line holds no white space and no newline. */
  lemma HexLinePlain(s: string)
    requires IsHexLine(s)
    ensures '\n' !in s && ' ' !in s
    ensures Trim(s) == s
  {
    assert !IsSpace(s[0]) && !IsSpace(s[|s| - 1]);
    TrimUnpadded(s);
  }

  // ---------------------------------------------------------------------
  // Regrouping a hex line into byte tokens

  /** The separator after the byte numbered n on a row of 24. */
  function Sep(n: int): string {
    if n % 24 == 0 then " \n" else if n % 8 == 0 then "  " else " "
  }

  /** The text the inner loop of updateData() builds for `line` when `n`
      bytes are already on the row: each two-character token (line.mid(i, 2))
      followed by the separator its number calls for. */
  function Regrouped(line: string, n: int): string
    decreases |line|
  {
    if |line| == 0 then ""
    else
      var k := if |line| < 2 then |line| else 2;
      line[..k] + Sep(n + 1) + Regrouped(line[k..], n + 1)
  }

  /** lastIndexOf("\n"), -1 when there is none. */
  function LastNewline(s: string): (r: int)
    ensures -1 <= r < |s|
    decreases |s|
  {
    if |s| == 0 then -1
    else if s[|s| - 1] == '\n' then |s| - 1
    else LastNewline(s[..|s| - 1])
  }

  /** lastIndexOf("\n") finds a newline, and none comes after it; -1 means
      the text holds none. */
  lemma {:induction false} LastNewlineSpec(s: string)
    ensures var r := LastNewline(s);
      && (r >= 0 ==> s[r] == '\n')
      && (forall i :: r < i < |s| ==> s[i] != '\n')
      && (r == -1 <==> '\n' !in s)
    decreases |s|
  {
    if |s| > 0 && s[|s| - 1] != '\n' {
      var init := s[..|s| - 1];
      LastNewlineSpec(init);
      assert forall i :: 0 <= i < |init| ==> init[i] == s[i];
      assert '\n' in init ==> '\n' in s;
    }
  }

  /** The number of characters after the last newline. */
  function RowLength(s: string): nat {
    |s| - LastNewline(s) - 1
  }

  /** The byte counter recovered from the shown text: (c - c/24)/3. */
  function Column(s: string): int {
    var c := RowLength(s);
    (c - c / 24) / 3
  }

  /** The last row looks like one this routine wrote: k tokens, each of
      three characters, with one extra space after the 8th and the 16th. */
  predicate RowShape(s: string) {
    var k := Column(s);
    k < 24 && RowLength(s) == 3 * k + k / 8
  }

  /** Where the last newline of a concatenation is. */
  lemma {:induction false} RowLengthAppend(a: string, b: string)
    ensures RowLength(a + b) == if '\n' in b then RowLength(b) else RowLength(a) + |b|
    decreases |b|
  {
    if |b| > 0 {
      var ab := a + b;
      assert ab[..|ab| - 1] == a + b[..|b| - 1];
      if b[|b| - 1] != '\n' {
        RowLengthAppend(a, b[..|b| - 1]);
        assert ('\n' in b) == ('\n' in b[..|b| - 1]);
      }
    } else {
      assert a + b == a;
    }
  }

  /** The counter formula gives back the number of tokens on a row. */
  lemma ColumnOfRow(k: int)
    requires 0 <= k < 24
    ensures var c := 3 * k + k / 8; (c - c / 24) / 3 == k
  {
    if k < 8 {
      assert k / 8 == 0;
    } else if k < 16 {
      assert k / 8 == 1;
      assert (3 * k + 1) / 24 == 1;
    } else {
      assert k / 8 == 2;
      assert (3 * k + 2) / 24 == 2;
    }
  }

  /** The separator only depends on the counter modulo 24. */
  lemma SepPeriodic(n: int, m: int)
    requires n % 24 == m % 24
    ensures Sep(n) == Sep(m)
  {
    assert n % 8 == (n % 24) % 8 by {
      assert n == 24 * (n / 24) + n % 24;
    }
    assert m % 8 == (m % 24) % 8 by {
      assert m == 24 * (m / 24) + m % 24;
    }
  }

  /** A counter congruent modulo 24 lays a line out the same way. */
  lemma {:induction false} RegroupedPeriodic(line: string, n: int, m: int)
    requires n % 24 == m % 24
    ensures Regrouped(line, n) == Regrouped(line, m)
    decreases |line|
  {
    if |line| > 0 {
      assert (n + 1) % 24 == (m + 1) % 24;
      SepPeriodic(n + 1, m + 1);
      var k := if |line| < 2 then |line| else 2;
      RegroupedPeriodic(line[k..], n + 1, m + 1);
    }
  }

  /** Regrouping a concatenation, the first part of even length, is
      regrouping the parts with the counter carried over. */
  lemma {:induction false} RegroupedSplit(a: string, b: string, n: int)
    requires |a| % 2 == 0
    ensures Regrouped(a + b, n) == Regrouped(a, n) + Regrouped(b, n + |a| / 2)
    decreases |a|
  {
    if |a| == 0 {
      assert a + b == b;
    } else {
      var ab := a + b;
      assert ab[..2] == a[..2];
      assert ab[2..] == a[2..] + b;
      RegroupedSplit(a[2..], b, n + 1);
    }
  }

  /** The first token of a line and its separator. */
  lemma RegroupedCons(tok: string, rest: string, n: int)
    requires |tok| == 2
    ensures Regrouped(tok + rest, n) == tok + Sep(n + 1) + Regrouped(rest, n + 1)
  {
    var l := tok + rest;
    assert l[..2] == tok && l[2..] == rest;
  }

  /** The last two tokens of the sample, from byte 2 on. */
  lemma SampleTail(t: string)
    requires t == "2c3d"
    ensures Regrouped(t, 2) == "2c 3d "
  {
    RegroupedCons("3d", "", 3);
    assert "3d" + "" == "3d" && Sep(4) == " ";
    RegroupedCons("2c", "3d", 2);
    assert "2c" + "3d" == t && Sep(3) == " ";
  }

  /** "0a1b2c3d" from the start of a row: four tokens, one space after each. */
  lemma RegroupedSample(line: string)
    requires line == "0a1b2c3d"
    ensures Regrouped(line, 0) == "0a 1b 2c 3d "
  {
    var t := line[4..];
    SampleTail(t);
    RegroupedCons(line[2..4], t, 1);
    assert line[2..4] + t == line[2..] && Sep(2) == " ";
    RegroupedCons(line[..2], line[2..], 0);
    assert line[..2] + line[2..] == line && Sep(1) == " ";
  }

  /** Token j of an even-length line sits after the first j tokens and is
      followed by the separator for byte n + j + 1. */
  lemma RegroupedToken(line: string, n: int, j: int)
    requires |line| % 2 == 0 && 0 <= j < |line| / 2
    ensures Regrouped(line, n) ==
      Regrouped(line[..2 * j], n) + line[2 * j..2 * j + 2] + Sep(n + j + 1)
      + Regrouped(line[2 * j + 2..], n + j + 1)
  {
    var a, rest := line[..2 * j], line[2 * j..];
    assert |a| == 2 * j && |a| / 2 == j && |rest| >= 2;
    assert line == a + rest;
    RegroupedSplit(a, rest, n);
    var tok, sep, tail := line[2 * j..2 * j + 2], Sep(n + j + 1), Regrouped(line[2 * j + 2..], n + j + 1);
    assert rest[..2] == tok && rest[2..] == line[2 * j + 2..];
    assert Regrouped(rest, n + j) == tok + sep + tail;
    SeqAssoc(Regrouped(a, n), tok + sep, tail);
    SeqAssoc(Regrouped(a, n), tok, sep);
  }

  /** Concatenation is associative. */
  lemma SeqAssoc<T>(x: seq<T>, y: seq<T>, z: seq<T>)
    ensures x + (y + z) == x + y + z
  {
  }

  /** The separator inside a row: no newline, one space or, after every
      8th byte, two. */
  lemma SepInRow(j: int)
    requires 0 < j < 24
    ensures '\n' !in Sep(j) && |Sep(j)| == if j % 8 == 0 then 2 else 1
  {
  }

  /** The length of a row holding k tokens. */
  function RowChars(k: int): int {
    3 * k + k / 8
  }

  /** The last row holds exactly k tokens, k < 24: the row shape stated
      without the counter formula. */
  predicate RowAt(s: string, k: int) {
    0 <= k < 24 && RowLength(s) == RowChars(k)
  }

  /** A row of k tokens is the well-shaped row whose counter reads k. */
  lemma RowAtShape(s: string, k: int)
    ensures RowAt(s, k) <==> RowShape(s) && Column(s) == k
  {
    if RowAt(s, k) {
      ColumnOfRow(k);
    }
  }

  /** One more token and its separator inside a row. */
  lemma RowCharsStep(k: int)
    requires 0 <= k < 23
    ensures RowChars(k) + 2 + |Sep(k + 1)| == RowChars(k + 1)
  {
    SepInRow(k + 1);
    if (k + 1) % 8 == 0 {
      assert (k + 1) / 8 == k / 8 + 1;
    } else {
      assert (k + 1) / 8 == k / 8;
    }
  }

  /** The counter taken modulo 24 steps like the counter. */
  lemma ModStep(n: int)
    ensures (n + 1) % 24 == (n % 24 + 1) % 24
  {
  }

  /** A token and its separator inside the row: one token more. */
  lemma StepInRow(s: string, tok: string, n: int)
    requires RowAt(s, n % 24) && n % 24 != 23
    requires |tok| == 2 && '\n' !in tok
    ensures RowAt(s + tok + Sep(n + 1), (n + 1) % 24)
  {
    var k := n % 24;
    ModStep(n);
    SepPeriodic(n + 1, k + 1);
    SepInRow(k + 1);
    RowLengthAppend(s, tok);
    RowLengthAppend(s + tok, Sep(k + 1));
    RowCharsStep(k);
  }

  /** The 24th token and its separator end the row: a new, empty one starts. */
  lemma StepWrap(s: string, tok: string, n: int)
    requires n % 24 == 23
    ensures RowAt(s + tok + Sep(n + 1), (n + 1) % 24)
  {
    ModStep(n);
    var sep := Sep(n + 1);
    assert sep == " \n";
    RowLengthAppend(s + tok, sep);
  }

  /** One token and its separator keep the row shape and advance the column. */
  lemma StepShape(s: string, tok: string, n: int)
    requires RowAt(s, n % 24)
    requires |tok| == 2 && '\n' !in tok
    ensures RowAt(s + tok + Sep(n + 1), (n + 1) % 24)
  {
    if n % 24 == 23 {
      StepWrap(s, tok, n);
    } else {
      StepInRow(s, tok, n);
    }
  }

  /** A line without the character `c` splits into a first token and a rest
      without it either. */
  lemma CharSplit(line: string, c: char)
    requires |line| >= 2 && c !in line
    ensures line == line[..2] + line[2..]
    ensures c !in line[..2] && c !in line[2..]
  {
    assert forall i :: 0 <= i < |line| - 2 ==> line[2..][i] == line[i + 2];
    assert forall i :: 0 <= i < 2 ==> line[..2][i] == line[i];
  }

  /** The text after the first token of a line and the text after the rest. */
  lemma ShapeCarry(s: string, line: string, n: int)
    requires |line| >= 2
    ensures s + Regrouped(line, n) == (s + line[..2] + Sep(n + 1)) + Regrouped(line[2..], n + 1)
  {
    assert line == line[..2] + line[2..];
    RegroupedCons(line[..2], line[2..], n);
    SeqAssoc(s, line[..2] + Sep(n + 1), Regrouped(line[2..], n + 1));
    SeqAssoc(s, line[..2], Sep(n + 1));
  }

  /** Regrouping a newline-free line of even length after a row of tokens
      leaves a row holding the tokens advanced by the number of bytes. */
  lemma {:induction false} RegroupedAt(s: string, line: string, n: int)
    requires RowAt(s, n % 24)
    requires |line| % 2 == 0 && '\n' !in line
    ensures RowAt(s + Regrouped(line, n), (n + |line| / 2) % 24)
    decreases |line|
  {
    if |line| == 0 {
      assert s + Regrouped(line, n) == s;
    } else {
      CharSplit(line, '\n');
      StepShape(s, line[..2], n);
      RegroupedAt(s + line[..2] + Sep(n + 1), line[2..], n + 1);
      ShapeCarry(s, line, n);
      assert n + 1 + |line[2..]| / 2 == n + |line| / 2;
    }
  }

  /** Regrouping a newline-free line of even length after a well-shaped row
      keeps the shape and advances the column by the number of bytes. */
  lemma RegroupedShape(s: string, line: string, n: int)
    requires RowShape(s) && Column(s) == n % 24
    requires |line| % 2 == 0 && '\n' !in line
    ensures RowShape(s + Regrouped(line, n))
    ensures Column(s + Regrouped(line, n)) == (n + |line| / 2) % 24
  {
    RowAtShape(s, n % 24);
    RegroupedAt(s, line, n);
    RowAtShape(s + Regrouped(line, n), (n + |line| / 2) % 24);
  }

  /** The shown text's counter is a true column: 0 to 23. */
  lemma ColumnRange(s: string)
    requires RowShape(s)
    ensures 0 <= Column(s) < 24 && Column(s) % 24 == Column(s)
  {
  }

  /** Regrouping is resumable: laying out a+b after a well-shaped row gives
      the same text as laying out a, recovering the column from the result,
      and laying out b. */
  lemma Continuation(t: string, a: string, b: string)
    requires RowShape(t)
    requires |a| % 2 == 0 && '\n' !in a
    ensures t + Regrouped(a + b, Column(t))
         == (t + Regrouped(a, Column(t))) + Regrouped(b, Column(t + Regrouped(a, Column(t))))
  {
    var n := Column(t);
    ColumnRange(t);
    var ra := Regrouped(a, n);
    RegroupedSplit(a, b, n);
    RegroupedShape(t, a, n);
    ColumnRange(t + ra);
    RegroupedPeriodic(b, n + |a| / 2, Column(t + ra));
    SeqAssoc(t, ra, Regrouped(b, n + |a| / 2));
  }

  /** The text with its separators (spaces and newlines) taken out. */
  function Compact(s: string): string
    decreases |s|
  {
    if |s| == 0 then ""
    else (if s[0] == ' ' || s[0] == '\n' then "" else [s[0]]) + Compact(s[1..])
  }

  lemma {:induction false} CompactAppend(a: string, b: string)
    ensures Compact(a + b) == Compact(a) + Compact(b)
    decreases |a|
  {
    if |a| > 0 {
      assert (a + b)[1..] == a[1..] + b;
      CompactAppend(a[1..], b);
    } else {
      assert a + b == b;
    }
  }

  /** A separator is nothing but spaces and a newline. */
  lemma CompactSep(n: int)
    ensures Compact(Sep(n)) == ""
  {
    var sep := Sep(n);
    assert sep[0] == ' ';
    if |sep| == 2 {
      assert sep[1] == ' ' || sep[1] == '\n';
      assert sep[1..][1..] == "";
      assert Compact(sep[1..]) == "";
    } else {
      assert sep[1..] == "";
    }
  }

  /** Text without separators is left as it is. */
  lemma {:induction false} CompactPlain(s: string)
    requires ' ' !in s && '\n' !in s
    ensures Compact(s) == s
    decreases |s|
  {
    if |s| > 0 {
      assert ' ' !in s[1..] && '\n' !in s[1..] by {
        assert forall i :: 0 <= i < |s| - 1 ==> s[1..][i] == s[i + 1];
      }
      CompactPlain(s[1..]);
      assert s == [s[0]] + s[1..];
    }
  }

  /** Removing the separators from a regrouped hex line gives the line back:
      the tokens are the line's bytes, in order, nothing added or lost. */
  lemma {:induction false} RegroupedRoundTrip(line: string, n: int)
    requires |line| % 2 == 0 && ' ' !in line && '\n' !in line
    ensures Compact(Regrouped(line, n)) == line
    decreases |line|
  {
    if |line| > 0 {
      var tok, rest := line[..2], line[2..];
      CharSplit(line, ' ');
      CharSplit(line, '\n');
      var sep, tail := Sep(n + 1), Regrouped(rest, n + 1);
      RegroupedCons(tok, rest, n);
      RegroupedRoundTrip(rest, n + 1);
      CompactAppend(tok + sep, tail);
      CompactAppend(tok, sep);
      CompactPlain(tok);
      CompactSep(n + 1);
      assert tok + "" == tok;
    }
  }

  /** The inner loop of updateData(): recover the counter from the shown
      text, then append each token and its separator. */
  method RegroupLine(shown: string, line: string) returns (l: string)
    requires |line| % 2 == 0
    ensures l == Regrouped(line, Column(shown))
  {
    var n := |shown| - LastNewline(shown) - 1;
    n := (n - n / 24) / 3;
    ghost var n0 := n;
    l := "";
    var i := 0;
    while i < |line|
      invariant 0 <= i <= |line| && i % 2 == 0
      invariant l + Regrouped(line[i..], n) == Regrouped(line, n0)
    {
      assert line[i..][..2] == line[i..i + 2] && line[i..][2..] == line[i + 2..];
      ShapeCarry(l, line[i..], n);
      n := n + 1;
      l := l + line[i..i + 2];
      l := l + (if n % 24 != 0 then (if n % 8 != 0 then " " else "  ") else " \n");
      i := i + 2;
    }
    assert line[i..] == "";
    assert l + "" == l;
  }
}
