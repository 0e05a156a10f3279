/** Byte strings and the library operations on them that the agent uses.

    A byte is a `char` below 256, so that the text of the protocol reads as text.  The
    functions here take any `string`: none of them looks at a character's numeric value
    beyond the ASCII classes it names. */
module ByteStrings {
  type Byte = c: char | c as int < 256

  /** Largest value of the 64-bit `int` of the source. */
  const MAX_INT := 0x7FFF_FFFF_FFFF_FFFF

  datatype Option<+T> = None | Some(value: T)

  // ---------------------------------------------------------------- searching

  /** `sep` occurs in `d` at offset `i`. */
  predicate OccursAt(d: string, sep: string, i: nat) {
    i + |sep| <= |d| && d[i..i + |sep|] == sep
  }

  function IndexFrom(d: string, sep: string, i: nat): (r: int)
    requires |sep| > 0 && i <= |d|
    ensures r == -1 || i <= r <= |d| - |sep|
    decreases |d| - i
  {
    if OccursAt(d, sep, i) then i
    else if i == |d| then -1
    else IndexFrom(d, sep, i + 1)
  }

  /** Offset of the first occurrence of `sep`, or -1. */
  function Index(d: string, sep: string): (r: int)
    requires |sep| > 0
    ensures r == -1 || 0 <= r <= |d| - |sep|
  {
    IndexFrom(d, sep, 0)
  }

  /** Nothing of `sep` lies between `i` and the offset found, and there it occurs. */
  lemma {:induction false} IndexFromReads(d: string, sep: string, i: nat)
    requires |sep| > 0 && i <= |d|
    ensures var r := IndexFrom(d, sep, i);
            && (r == -1 ==> forall j: nat :: i <= j ==> !OccursAt(d, sep, j))
            && (r >= 0 ==> OccursAt(d, sep, r) && forall j: nat :: i <= j < r ==> !OccursAt(d, sep, j))
    decreases |d| - i
  {
    if !OccursAt(d, sep, i) && i < |d| {
      IndexFromReads(d, sep, i + 1);
    }
  }

  lemma IndexReads(d: string, sep: string)
    requires |sep| > 0
    ensures var r := Index(d, sep);
            && (r == -1 ==> forall j: nat :: !OccursAt(d, sep, j))
            && (r >= 0 ==> OccursAt(d, sep, r) && forall j: nat :: j < r ==> !OccursAt(d, sep, j))
  {
    IndexFromReads(d, sep, 0);
  }

  /** `Index` is the only number with its two defining properties. */
  lemma IndexIs(d: string, sep: string, r: nat)
    requires |sep| > 0
    requires OccursAt(d, sep, r) && forall j: nat :: j < r ==> !OccursAt(d, sep, j)
    ensures Index(d, sep) == r
  {
    hide Index;
    IndexReads(d, sep);
    assert Index(d, sep) != -1;
    assert OccursAt(d, sep, Index(d, sep));
  }

  lemma OccurrenceReads(d: string, sep: string, i: nat)
    ensures OccursAt(d, sep, i) ==> forall k :: 0 <= k < |sep| ==> d[i + k] == sep[k]
    ensures OccursAt(d, sep, i) && |sep| > 0 ==> d[i] == sep[0] && d[i] in d
  {
    if OccursAt(d, sep, i) {
      forall k | 0 <= k < |sep|
        ensures d[i + k] == sep[k]
      {
        assert d[i..i + |sep|][k] == d[i + k];
      }
      if |sep| > 0 { assert d[i + 0] == sep[0]; }
    }
  }

  /** A first occurrence stays the first one when bytes are appended. */
  lemma IndexExtends(d: string, e: string, sep: string)
    requires |sep| > 0 && Index(d, sep) >= 0
    ensures Index(d + e, sep) == Index(d, sep)
  {
    IndexReads(d, sep);
    var r := Index(d, sep);
    assert (d + e)[r..r + |sep|] == d[r..r + |sep|];
    forall j: nat | j < r
      ensures !OccursAt(d + e, sep, j)
    {
      assert (d + e)[j..j + |sep|] == d[j..j + |sep|];
      assert !OccursAt(d, sep, j);
    }
    IndexIs(d + e, sep, r);
  }

  /** Cutting a text keeps its first occurrence if it lies before the cut, and has none otherwise. */
  lemma IndexOfPrefix(d: string, m: nat, sep: string)
    requires |sep| > 0 && m <= |d| && Index(d, sep) >= 0
    ensures Index(d[..m], sep) == if Index(d, sep) + |sep| <= m then Index(d, sep) else -1
  {
    IndexReads(d, sep);
    IndexReads(d[..m], sep);
    var end := Index(d, sep);
    var p := d[..m];
    assert p + d[m..] == d;
    if end + |sep| <= m {
      assert p[end..end + |sep|] == d[end..end + |sep|];
      assert OccursAt(p, sep, end);
    }
    if Index(p, sep) >= 0 {
      IndexExtends(p, d[m..], sep);
    }
  }

  lemma IndexSingle(s: string, t: string, c: char)
    requires c !in s
    ensures Index(s + [c] + t, [c]) == |s|
  {
    var d := s + [c] + t;
    forall j: nat | j < |s|
      ensures !OccursAt(d, [c], j)
    {
      assert d[j] == s[j] && s[j] in s;
    }
    assert d[|s|..|s| + 1] == [c];
    IndexIs(d, [c], |s|);
  }

  lemma IndexNone(s: string, c: char)
    ensures Index(s, [c]) == -1 <==> c !in s
  {
    IndexReads(s, [c]);
    if c in s {
      var k: nat :| k < |s| && s[k] == c;
      assert OccursAt(s, [c], k);
    } else if Index(s, [c]) >= 0 {
      OccurrenceReads(s, [c], Index(s, [c]));
    }
  }

  // ---------------------------------------------------------------- splitting

  /** `strings.Split` for a non-empty separator. */
  function Split(s: string, sep: string): (r: seq<string>)
    requires |sep| > 0
    ensures |r| >= 1
    decreases |s|
  {
    var i := Index(s, sep);
    if i < 0 then [s] else [s[..i]] + Split(s[i + |sep|..], sep)
  }

  function Join(lines: seq<string>, sep: string): string
    requires |lines| >= 1
  {
    if |lines| == 1 then lines[0] else lines[0] + sep + Join(lines[1..], sep)
  }

  lemma JoinOne(line: string, sep: string)
    ensures Join([line], sep) == line
  {
  }

  lemma JoinCons(line: string, lines: seq<string>, sep: string)
    requires |lines| >= 1
    ensures Join([line] + lines, sep) == line + sep + Join(lines, sep)
  {
    assert ([line] + lines)[1..] == lines;
  }

  /** Splitting loses nothing. */
  lemma {:induction false} JoinOfSplit(s: string, sep: string)
    requires |sep| > 0
    ensures Join(Split(s, sep), sep) == s
    decreases |s|
  {
    hide Join;
    IndexReads(s, sep);
    var i := Index(s, sep);
    if i >= 0 {
      var rest := s[i + |sep|..];
      JoinOfSplit(rest, sep);
      JoinCons(s[..i], Split(rest, sep), sep);
      assert s == s[..i] + s[i..i + |sep|] + rest;
    } else {
      JoinOne(s, sep);
    }
  }

  /** A text before the first occurrence of `sep` has none. */
  lemma NoneBefore(s: string, sep: string)
    requires |sep| > 0 && Index(s, sep) >= 0
    ensures Index(s[..Index(s, sep)], sep) == -1
  {
    IndexReads(s, sep);
    IndexOfPrefix(s, Index(s, sep), sep);
  }

  /** ... and no piece holds the separator; so `Split` is cut wherever it can be. */
  lemma {:induction false} SplitPieces(s: string, sep: string)
    requires |sep| > 0
    ensures forall i :: 0 <= i < |Split(s, sep)| ==> Index(Split(s, sep)[i], sep) == -1
    decreases |s|
  {
    hide Index;
    var i := Index(s, sep);
    if i >= 0 {
      NoneBefore(s, sep);
      SplitPieces(s[i + |sep|..], sep);
    }
  }

  /** A line that a CRLF-separated list may hold: no carriage return inside. */
  predicate Line(s: string) { '\r' !in s }

  predicate Lines(ls: seq<string>) { forall i :: 0 <= i < |ls| ==> Line(ls[i]) }

  const CRLF := "\r\n"
  const BLANK_LINE := "\r\n\r\n"

  lemma FirstCRLF(line: string, rest: string)
    requires Line(line)
    ensures Index(line + CRLF + rest, CRLF) == |line|
  {
    var d := line + CRLF + rest;
    assert d[|line|..|line| + 2] == CRLF;
    forall j: nat | j < |line|
      ensures !OccursAt(d, CRLF, j)
    {
      assert d[j] == line[j] && line[j] in line;
      OccurrenceReads(d, CRLF, j);
    }
    IndexIs(d, CRLF, |line|);
  }

  lemma NoCRLF(line: string)
    requires Line(line)
    ensures Index(line, CRLF) == -1
  {
    IndexReads(line, CRLF);
    if Index(line, CRLF) >= 0 {
      OccurrenceReads(line, CRLF, Index(line, CRLF));
    }
  }

  lemma SplitFirstLine(line: string, tail: string)
    requires Line(line)
    ensures Split(line + CRLF + tail, CRLF) == [line] + Split(tail, CRLF)
  {
    FirstCRLF(line, tail);
    var d := line + CRLF + tail;
    assert d[|line| + 2..] == tail && d[..|line|] == line;
  }

  lemma SplitLastLine(line: string)
    requires Line(line)
    ensures Split(line, CRLF) == [line]
  {
    NoCRLF(line);
  }

  /** Joining lines with CRLF and splitting again gives the lines back. */
  lemma {:induction false} SplitOfJoin(ls: seq<string>)
    requires |ls| >= 1 && Lines(ls)
    ensures Split(Join(ls, CRLF), CRLF) == ls
  {
    hide Split;
    if |ls| == 1 {
      SplitLastLine(ls[0]);
    } else {
      SplitOfJoin(ls[1..]);
      SplitFirstLine(ls[0], Join(ls[1..], CRLF));
      assert ls == [ls[0]] + ls[1..];
    }
  }

  /** After non-empty lines joined with CRLF, the first blank line is the one that follows them. */
  lemma {:induction false} FirstBlankLine(ls: seq<string>, rest: string)
    requires |ls| >= 1 && Lines(ls) && forall i :: 0 <= i < |ls| ==> ls[i] != ""
    ensures Index(Join(ls, CRLF) + BLANK_LINE + rest, BLANK_LINE) == |Join(ls, CRLF)|
    decreases |ls|
  {
    var d := Join(ls, CRLF) + BLANK_LINE + rest;
    if |ls| == 1 {
      LineBeforeBlank(ls[0], rest);
    } else {
      var tail := Join(ls[1..], CRLF);
      FirstBlankLine(ls[1..], rest);
      JoinStartsWithLine(ls[1..]);
      assert d == ls[0] + CRLF + (tail + BLANK_LINE + rest);
      BlankLineShifts(ls[0], tail + BLANK_LINE + rest, |tail|);
    }
  }

  lemma LineBeforeBlank(line: string, rest: string)
    requires Line(line)
    ensures Index(line + BLANK_LINE + rest, BLANK_LINE) == |line|
  {
    var d := line + BLANK_LINE + rest;
    assert d[|line|..|line| + 4] == BLANK_LINE;
    forall j: nat | j < |line|
      ensures !OccursAt(d, BLANK_LINE, j)
    {
      assert d[j] == line[j] && line[j] in line;
      OccurrenceReads(d, BLANK_LINE, j);
    }
    IndexIs(d, BLANK_LINE, |line|);
  }

  lemma BlankLineShifts(line: string, e: string, r: nat)
    requires Line(line) && |e| > 0 && e[0] != '\r'
    requires Index(e, BLANK_LINE) == r
    ensures Index(line + CRLF + e, BLANK_LINE) == |line| + 2 + r
  {
    IndexReads(e, BLANK_LINE);
    var d := line + CRLF + e;
    var n := |line| + 2;
    assert d[n + r..n + r + 4] == e[r..r + 4];
    forall j: nat | j < n + r
      ensures !OccursAt(d, BLANK_LINE, j)
    {
      OccurrenceReads(d, BLANK_LINE, j);
      assert BLANK_LINE[2] == '\r';
      if j < |line| {
        assert d[j] == line[j] && line[j] in line;
      } else if j >= n {
        assert j - n + 4 <= |e| ==> e[j - n..j - n + 4] == d[j..j + 4];
        assert !OccursAt(e, BLANK_LINE, j - n);
      }
    }
    IndexIs(d, BLANK_LINE, n + r);
  }

  lemma JoinStartsWithLine(ls: seq<string>)
    requires |ls| >= 1 && Lines(ls) && ls[0] != ""
    ensures |Join(ls, CRLF)| > 0 && Join(ls, CRLF)[0] != '\r'
  {
    assert ls[0][0] in ls[0];
  }

  // ---------------------------------------------------------------- trimming

  predicate IsSpace(c: char) {
    c == ' ' || c == '\t' || c == '\n' || c == '\r' || c as int == 11 || c as int == 12
  }

  function TrimLeft(s: string): string {
    if |s| > 0 && IsSpace(s[0]) then TrimLeft(s[1..]) else s
  }

  function TrimRight(s: string): string {
    if |s| > 0 && IsSpace(s[|s| - 1]) then TrimRight(s[..|s| - 1]) else s
  }

  /** `strings.TrimSpace` on ASCII white space. */
  function TrimSpace(s: string): string { TrimRight(TrimLeft(s)) }

  /** A byte of white space, by its number: tab, line feed, vertical tab, form feed, return, space. */
  predicate White(c: char) { c as int in {9, 10, 11, 12, 13, 32} }

  /** What trimming does to any text: it takes off white space only, at both ends, and all of it. */
  lemma TrimSpaceIs(s: string) returns (a: string, b: string)
    ensures s == a + TrimSpace(s) + b
    ensures forall i :: 0 <= i < |a| ==> White(a[i])
    ensures forall i :: 0 <= i < |b| ==> White(b[i])
    ensures var t := TrimSpace(s);
            t != "" ==> !White(t[0]) && !White(t[|t| - 1])
  {
    a := TrimLeftIs(s);
    b := TrimRightIs(TrimLeft(s));
  }

  lemma {:induction false} TrimLeftIs(s: string) returns (a: string)
    ensures s == a + TrimLeft(s)
    ensures forall i :: 0 <= i < |a| ==> White(a[i])
    ensures TrimLeft(s) != "" ==> !White(TrimLeft(s)[0])
  {
    a := "";
    if |s| > 0 && IsSpace(s[0]) {
      var rest := TrimLeftIs(s[1..]);
      a := [s[0]] + rest;
      assert s == [s[0]] + s[1..];
    }
  }

  lemma {:induction false} TrimRightIs(s: string) returns (b: string)
    ensures s == TrimRight(s) + b
    ensures forall i :: 0 <= i < |b| ==> White(b[i])
    ensures var t := TrimRight(s); t != "" ==> !White(t[|t| - 1])
  {
    hide IsSpace, White;
    b := "";
    if |s| > 0 { SpaceIsWhite(s[|s| - 1]); }
    if |s| > 0 && IsSpace(s[|s| - 1]) {
      var most, c := s[..|s| - 1], s[|s| - 1];
      var rest := TrimRightIs(most);
      b := rest + [c];
      assert s == most + [c];
      assert TrimRight(most) + rest + [c] == TrimRight(most) + b;
    }
  }

  lemma SpaceIsWhite(c: char)
    ensures IsSpace(c) <==> White(c)
  {
  }

  predicate Blank(s: string) { forall i :: 0 <= i < |s| ==> IsSpace(s[i]) }

  predicate Trimmed(s: string) {
    s == "" || (!IsSpace(s[0]) && !IsSpace(s[|s| - 1]))
  }

  /** Trimming removes exactly the white space around a trimmed text. */
  lemma TrimSpaceStrips(a: string, s: string, b: string)
    requires Blank(a) && Blank(b) && Trimmed(s)
    ensures TrimSpace(a + s + b) == s
  {
    TrimLeftStrips(a, s + b);
    assert a + s + b == a + (s + b);
    if s == "" {
      TrimLeftStrips(b, "");
      assert s + b == b && b + "" == b;
    } else {
      TrimRightStrips(s, b);
    }
  }

  lemma {:induction false} TrimLeftStrips(a: string, s: string)
    requires Blank(a)
    ensures TrimLeft(a + s) == TrimLeft(s)
  {
    if a == "" {
      assert a + s == s;
    } else {
      assert (a + s)[1..] == a[1..] + s;
      TrimLeftStrips(a[1..], s);
    }
  }

  lemma {:induction false} TrimRightStrips(s: string, b: string)
    requires Blank(b) && s != "" && !IsSpace(s[|s| - 1])
    ensures TrimRight(s + b) == s
  {
    if b == "" {
      assert s + b == s;
    } else {
      assert (s + b)[..|s + b| - 1] == s + b[..|b| - 1];
      TrimRightStrips(s, b[..|b| - 1]);
    }
  }

  // ---------------------------------------------------------------- letter case

  function LowerChar(c: char): (l: char)
    ensures l as int == c as int + if 65 <= c as int <= 90 then 32 else 0
  {
    if 'A' <= c <= 'Z' then (c as int + 32) as char else c
  }

  function UpperChar(c: char): (u: char)
    ensures u as int == c as int - if 97 <= c as int <= 122 then 32 else 0
  {
    if 'a' <= c <= 'z' then (c as int - 32) as char else c
  }

  function Lower(s: string): (r: string)
    ensures |r| == |s|
  {
    seq(|s|, i requires 0 <= i < |s| => LowerChar(s[i]))
  }

  // ---------------------------------------------------------------- decimal numbers

  predicate IsDigit(c: char) { '0' <= c <= '9' }

  predicate Digits(s: string) { forall i :: 0 <= i < |s| ==> IsDigit(s[i]) }

  /** The number a string of decimal digits denotes. */
  function Value(s: string): nat
    requires Digits(s)
  {
    if s == "" then 0 else 10 * Value(s[..|s| - 1]) + (s[|s| - 1] as int - '0' as int)
  }

  function Power10(n: nat): nat { if n == 0 then 1 else 10 * Power10(n - 1) }

  lemma ValueSnoc(s: string, c: char)
    requires Digits(s) && IsDigit(c)
    ensures Digits(s + [c]) && Value(s + [c]) == 10 * Value(s) + (c as int - '0' as int)
  {
    assert (s + [c])[..|s + [c]| - 1] == s;
  }

  /** Digits count by their place, the first one most. */
  lemma {:induction false} ValueOfConcat(a: string, b: string)
    requires Digits(a) && Digits(b)
    ensures Digits(a + b) && Value(a + b) == Value(a) * Power10(|b|) + Value(b)
    decreases |b|
  {
    hide Value;
    if b == "" {
      assert a + b == a;
      assert Value("") == 0 by { ValueOfNothing(); }
    } else {
      var most, c := b[..|b| - 1], b[|b| - 1];
      ValueOfConcat(a, most);
      ValueSnoc(a + most, c);
      ValueSnoc(most, c);
      assert a + b == a + most + [c] && b == most + [c];
      var x, p := Value(a), Power10(|most|);
      assert 10 * (x * p) == x * (10 * p);
    }
  }

  lemma ValueOfNothing()
    ensures Value("") == 0
  {
  }

  lemma ValueOfDigit(c: char)
    requires 48 <= c as int <= 57
    ensures Digits([c]) && Value([c]) == c as int - 48
  {
    assert [c][..0] == "";
  }

  /** The decimal numeral of `n`, without leading zeros. */
  function Decimal(n: nat): (s: string)
    ensures |s| >= 1 && Digits(s)
  {
    var d := [(n % 10 + '0' as int) as char];
    if n < 10 then d else Decimal(n / 10) + d
  }

  lemma {:induction false} ValueOfDecimal(n: nat)
    ensures Value(Decimal(n)) == n
  {
    var s := Decimal(n);
    if n >= 10 {
      ValueOfDecimal(n / 10);
      assert s[..|s| - 1] == Decimal(n / 10);
    } else {
      assert s[..|s| - 1] == "";
    }
  }

  /** `strconv.Atoi`: an optional sign, at least one digit, and a value a 64-bit `int` holds. */
  function Atoi(s: string): (r: Option<int>)
    ensures r.Some? ==> -MAX_INT - 1 <= r.value <= MAX_INT
  {
    var signed := |s| > 0 && (s[0] == '-' || s[0] == '+');
    var digits := if signed then s[1..] else s;
    if digits == "" || !Digits(digits) then None
    else
      var v: int := if signed && s[0] == '-' then -(Value(digits) as int) else Value(digits);
      if -MAX_INT - 1 <= v <= MAX_INT then Some(v) else None
  }

  /** A numeral with or without a sign is read if its value is in range, 64-bit two's complement; and
      nothing else is. */
  lemma AtoiIs(s: string)
    requires s != "" && Digits(s)
    ensures Atoi(s) == Atoi("+" + s) == if Value(s) <= 9223372036854775807 then Some(Value(s)) else None
    ensures Atoi("-" + s) == if Value(s) <= 9223372036854775808 then Some(-(Value(s) as int)) else None
  {
    assert IsDigit(s[0]);
    assert ("+" + s)[1..] == s && ("-" + s)[1..] == s;
  }

  lemma AtoiReads(s: string)
    requires Atoi(s).Some?
    ensures exists d :: d != "" && Digits(d) && (s == d || s == "+" + d || s == "-" + d)
  {
    var d := if s[0] == '-' || s[0] == '+' then s[1..] else s;
    assert s == d || s == [s[0]] + d;
  }

  /** Printing a length and reading it back gives the length, as long as an `int` holds it. */
  lemma {:induction false} AtoiOfDecimal(n: nat)
    ensures Atoi(Decimal(n)) == if n <= MAX_INT then Some(n) else None
  {
    ValueOfDecimal(n);
    assert IsDigit(Decimal(n)[0]);
  }

  lemma DecimalTrimmed(n: nat)
    ensures Trimmed(Decimal(n)) && Line(Decimal(n))
  {
    var s := Decimal(n);
    assert IsDigit(s[0]) && IsDigit(s[|s| - 1]);
    forall i | 0 <= i < |s|
      ensures s[i] != '\r'
    {
      assert IsDigit(s[i]);
    }
  }
}
