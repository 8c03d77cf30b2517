/**
 The numbers and lines of a Cachegrind output file: what `cg_merge.c` prints and what it
 reads.  Counts are 64 bits wide and are printed as signed numbers.
*/
module ProfileText {
  import opened Common

  const ULONG := 0x1_0000_0000_0000_0000
  const SIGN := 0x8000_0000_0000_0000

  predicate IsDigit(c: char) { '0' <= c <= '9' }

  predicate IsSpace(c: char) { c == ' ' || 9 as char <= c <= 13 as char }

  predicate IsAlpha(c: char) { 'a' <= c <= 'z' || 'A' <= c <= 'Z' }

  function DigitOf(d: nat): char
    requires d < 10
  {
    (48 + d) as char
  }

  function ValueOf(c: char): nat
    requires IsDigit(c)
  {
    c as int - 48
  }

  function Dec(n: nat): (s: string)
    ensures s != "" && forall i :: 0 <= i < |s| ==> IsDigit(s[i])
  {
    if n < 10 then [DigitOf(n)] else Dec(n / 10) + [DigitOf(n % 10)]
  }

  /** The conversion `%lld` (and `%ld`) of a 64-bit value. */
  function Signed(n: nat): string
    requires n < ULONG
  {
    if n < SIGN then Dec(n) else "-" + Dec(ULONG - n)
  }

  // ---------------------------------------------------------------- reading numbers

  function SkipSpaces(s: string): (r: string)
    ensures |r| <= |s| && (r != "" ==> !IsSpace(r[0]))
  {
    if s != "" && IsSpace(s[0]) then SkipSpaces(s[1..]) else s
  }

  function TakeDigits(acc: nat, s: string): (r: (nat, string))
    ensures |r.1| <= |s| && (r.1 != "" ==> !IsDigit(r.1[0]))
    decreases |s|
  {
    if s != "" && IsDigit(s[0]) then TakeDigits((acc * 10 + ValueOf(s[0])) % ULONG, s[1..]) else (acc, s)
  }

  /** `parse_ULong`: the number at the front, if there is one, and what follows. */
  function ParseULong(s: string): (r: (Option<nat>, string))
    ensures r.0.Some? ==> |r.1| < |s|
  {
    var s1 := SkipSpaces(s);
    if s1 == "" || !IsDigit(s1[0]) then (None, s1)
    else
      var (n, rest) := TakeDigits(ValueOf(s1[0]), s1[1..]);
      (Some(n), rest)
  }

  /** All numbers at the front, and what is left. */
  function Numbers(s: string): (seq<nat>, string)
    decreases |s|
  {
    var (o, rest) := ParseULong(s);
    if o.None? then ([], rest)
    else
      var (ns, end) := Numbers(rest);
      ([o.value] + ns, end)
  }

  // ---------------------------------------------------------------- numbers read back

  lemma {:induction false} TakeAppend(acc: nat, a: string, c: char, rest: string)
    requires acc < ULONG && IsDigit(c) && (forall i :: 0 <= i < |a| ==> IsDigit(a[i])) && (rest != "" ==> !IsDigit(rest[0]))
    ensures TakeDigits(acc, a).1 == ""
    ensures TakeDigits(acc, a + [c] + rest) == ((TakeDigits(acc, a).0 * 10 + ValueOf(c)) % ULONG, rest)
    decreases |a|
  {
    var s := a + [c] + rest;
    if a == "" {
      assert s == [c] + rest && s[1..] == rest;
    } else {
      assert s[0] == a[0] && s[1..] == a[1..] + [c] + rest;
      TakeAppend((acc * 10 + ValueOf(a[0])) % ULONG, a[1..], c, rest);
    }
  }

  lemma TimesTen(x: nat, d: nat)
    ensures ((x % ULONG) * 10 + d) % ULONG == (x * 10 + d) % ULONG
  {
    var q := x / ULONG;
    assert x * 10 + d == ((x % ULONG) * 10 + d) + (10 * q) * ULONG;
  }

  lemma {:induction false} TakeDec(n: nat, rest: string)
    requires rest != "" ==> !IsDigit(rest[0])
    ensures TakeDigits(0, Dec(n) + rest) == (n % ULONG, rest)
  {
    if n < 10 {
      TakeAppend(0, "", DigitOf(n), rest);
      assert "" + Dec(n) + rest == Dec(n) + rest;
    } else {
      var d := DigitOf(n % 10);
      TakeDec(n / 10, "");
      assert Dec(n / 10) + "" == Dec(n / 10);
      TakeAppend(0, Dec(n / 10), d, rest);
      TimesTen(n / 10, n % 10);
    }
  }

  /** A number below 2^63 is read back as it was printed. */
  lemma ReadBack(n: nat, rest: string)
    requires n < SIGN && (rest != "" ==> !IsDigit(rest[0]))
    ensures ParseULong(Signed(n) + rest) == (Some(n), rest)
  {
    hide Dec;
    TakeDec(n, rest);
    NumberFirst(Dec(n) + rest);
  }

  /** A number that starts with a digit. */
  lemma NumberFirst(s: string)
    requires s != "" && IsDigit(s[0])
    ensures ParseULong(s) == (var (n, rest) := TakeDigits(0, s); (Some(n), rest))
  {
    FirstDigit(s[0]);
    hide ValueOf;
    assert SkipSpaces(s) == s;
    assert TakeDigits(0, s) == TakeDigits((0 * 10 + ValueOf(s[0])) % ULONG, s[1..]);
  }

  lemma FirstDigit(c: char)
    requires IsDigit(c)
    ensures (0 * 10 + ValueOf(c)) % ULONG == ValueOf(c)
  {
  }

  /** A larger one is printed as a negative number, which is not read at all. */
  lemma NotReadBack(n: nat, rest: string)
    requires SIGN <= n < ULONG
    ensures Signed(n) != "" && ParseULong(Signed(n) + rest) == (None, Signed(n) + rest)
  {
    assert SkipSpaces(Signed(n) + rest) == Signed(n) + rest;
  }

  lemma SkipOne(s: string)
    ensures ParseULong(" " + s) == ParseULong(s) && Numbers(" " + s) == Numbers(s)
  {
    assert (" " + s)[1..] == s;
  }

  predicate Small(ns: seq<nat>) {
    forall i :: 0 <= i < |ns| ==> ns[i] < SIGN
  }

  predicate Wide(ns: seq<nat>) {
    forall i :: 0 <= i < |ns| ==> ns[i] < ULONG
  }

  /** `showCounts` */
  function Cells(ns: seq<nat>): string
    requires Wide(ns)
  {
    if ns == [] then "" else Signed(ns[0]) + " " + Cells(ns[1..])
  }

  /** The counts of a summary line. */
  function SummaryCells(ns: seq<nat>): string
    requires Wide(ns)
  {
    if ns == [] then "" else " " + Signed(ns[0]) + SummaryCells(ns[1..])
  }

  /** A number in front of others. */
  lemma NextCell(n: nat, rest: string)
    requires n < ULONG && (rest != "" ==> !IsDigit(rest[0]))
    ensures n < SIGN ==> Numbers(Signed(n) + rest) == ([n] + Numbers(rest).0, Numbers(rest).1)
    ensures n >= SIGN ==> Numbers(Signed(n) + rest).1 != ""
  {
    hide ParseULong, Signed;
    if n < SIGN {
      ReadBack(n, rest);
    } else {
      NotReadBack(n, rest);
    }
  }

  lemma FirstSmall(ns: seq<nat>)
    requires Wide(ns) && ns != []
    ensures ns == [ns[0]] + ns[1..] && Wide(ns[1..]) && (Small(ns) <==> ns[0] < SIGN && Small(ns[1..]))
  {
    assert forall i :: 0 < i < |ns| ==> ns[i] == ns[1..][i - 1];
  }

  lemma FirstCell(ns: seq<nat>)
    requires Wide(ns) && ns != []
    ensures Wide(ns[1..]) && Cells(ns) == Signed(ns[0]) + (" " + Cells(ns[1..]))
  {
    FirstSmall(ns);
    hide Signed, Small, Wide;
    Assoc(Signed(ns[0]), " ", Cells(ns[1..]));
  }

  lemma FirstSummaryCell(ns: seq<nat>)
    requires Wide(ns) && ns != []
    ensures Wide(ns[1..]) && SummaryCells(ns) == " " + (Signed(ns[0]) + SummaryCells(ns[1..]))
  {
    FirstSmall(ns);
    hide Signed, Small, Wide;
    Assoc(" ", Signed(ns[0]), SummaryCells(ns[1..]));
  }

  lemma Assoc(a: string, b: string, c: string)
    ensures a + b + c == a + (b + c)
  {
  }

  lemma {:induction false} CellsReadBack(ns: seq<nat>)
    requires Wide(ns)
    ensures Small(ns) ==> Numbers(Cells(ns)) == (ns, "")
    ensures !Small(ns) ==> Numbers(Cells(ns)).1 != ""
  {
    if ns != [] {
      hide Numbers, Signed, Cells, SummaryCells, Small;
      FirstSmall(ns);
      FirstCell(ns);
      var rest := Cells(ns[1..]);
      CellsReadBack(ns[1..]);
      NextCell(ns[0], " " + rest);
      SkipOne(rest);
    }
  }

  lemma {:induction false} SummaryReadBack(ns: seq<nat>)
    requires Wide(ns)
    ensures Small(ns) ==> Numbers(SummaryCells(ns)) == (ns, "")
    ensures !Small(ns) ==> Numbers(SummaryCells(ns)).1 != ""
  {
    if ns != [] {
      var rest := SummaryCells(ns[1..]);
      assert rest != "" ==> !IsDigit(rest[0]);
      hide Numbers, Signed, Cells, SummaryCells, Small;
      FirstSmall(ns);
      FirstSummaryCell(ns);
      SummaryReadBack(ns[1..]);
      NextCell(ns[0], rest);
      SkipOne(Signed(ns[0]) + rest);
    }
  }

  // ---------------------------------------------------------------- lines

  /** `readline`: up to the next newline, or the end of the file. */
  function ReadLine(text: string): (r: (string, string))
    requires text != ""
    ensures |r.1| < |text|
  {
    if text[0] == '\n' then ("", text[1..])
    else if |text| == 1 then (text, "")
    else
      var (line, rest) := ReadLine(text[1..]);
      ([text[0]] + line, rest)
  }

  function Lines(text: string): seq<string>
    decreases |text|
  {
    if text == "" then []
    else
      var (line, rest) := ReadLine(text);
      [line] + Lines(rest)
  }

  function Text(lines: seq<string>): string {
    if lines == [] then "" else lines[0] + "\n" + Text(lines[1..])
  }

  lemma {:induction false} ReadLineBack(line: string, rest: string)
    requires '\n' !in line
    ensures ReadLine(line + "\n" + rest) == (line, rest)
  {
    var s := line + "\n" + rest;
    if line == "" {
      assert s == ['\n'] + rest && s[1..] == rest;
    } else {
      assert s[0] == line[0] && s[1..] == line[1..] + "\n" + rest;
      assert line[0] != '\n' && forall i :: 0 <= i < |line| - 1 ==> line[1..][i] == line[i + 1];
      ReadLineBack(line[1..], rest);
      assert [line[0]] + line[1..] == line;
    }
  }

  ghost predicate NoNewlines(lines: seq<string>) {
    forall i :: 0 <= i < |lines| ==> '\n' !in lines[i]
  }

  /** Lines without newlines are read back as they were written. */
  lemma {:induction false} LinesOfText(lines: seq<string>)
    requires NoNewlines(lines)
    ensures Lines(Text(lines)) == lines
  {
    if lines != [] {
      ReadLineBack(lines[0], Text(lines[1..]));
      LinesOfText(lines[1..]);
    }
  }
}
