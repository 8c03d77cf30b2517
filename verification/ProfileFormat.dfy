/**
 The format of Cachegrind's output files: which characters are digits, letters and white space, what numbers are read
 from a line whatever separates them, in which order files, functions and lines stand, and how rows are written.
*/
module ProfileFormat {
  import opened Common
  import opened AvlTree
  import opened AvlMap
  import opened ProfileText
  import opened ProfileModel
  import opened ProfileSums
  import opened MergeFiles

  // ---------------------------------------------------------------- characters

  /** What a digit stands for. */
  function Digit(c: char): nat {
    match c
    case '0' => 0
    case '1' => 1
    case '2' => 2
    case '3' => 3
    case '4' => 4
    case '5' => 5
    case '6' => 6
    case '7' => 7
    case '8' => 8
    case '9' => 9
    case _ => 10
  }

  lemma Digits(c: char)
    ensures IsDigit(c) <==> Digit(c) < 10
    ensures IsDigit(c) ==> ValueOf(c) == Digit(c) && DigitOf(Digit(c)) == c
  {
  }

  /** Blank, tabulators, line feed, form feed and carriage return. */
  lemma Spaces(c: char)
    ensures IsSpace(c) <==> c == ' ' || c == '\t' || c == '\n' || c == '\U{000B}' || c == '\U{000C}' || c == '\r'
  {
  }

  // ---------------------------------------------------------------- numbers

  /** The number that digits stand for. */
  function Value(ds: string): nat {
    if ds == "" then 0 else 10 * Value(ds[..|ds| - 1]) + Digit(ds[|ds| - 1])
  }

  predicate AllDigits(ds: string) { forall i :: 0 <= i < |ds| ==> IsDigit(ds[i]) }

  predicate AllSpaces(gap: string) { forall i :: 0 <= i < |gap| ==> IsSpace(gap[i]) }

  lemma {:induction false} TakenDigits(ds: string, tail: string)
    requires AllDigits(ds) && (tail != "" ==> !IsDigit(tail[0]))
    ensures TakeDigits(0, ds + tail) == (Value(ds) % ULONG, tail)
    decreases |ds|
  {
    if ds == "" {
      assert ds + tail == tail;
    } else {
      var a, c := ds[..|ds| - 1], ds[|ds| - 1];
      assert ds == a + [c];
      TakenDigits(a, "");
      assert a + "" == a;
      TakeAppend(0, a, c, tail);
      Digits(c);
      TimesTen(Value(a), Digit(c));
    }
  }

  lemma {:induction false} SpacesSkipped(gap: string, s: string)
    requires AllSpaces(gap) && (s != "" ==> !IsSpace(s[0]))
    ensures SkipSpaces(gap + s) == s
  {
    if gap == "" {
      assert gap + s == s;
    } else {
      assert (gap + s)[1..] == gap[1..] + s;
      SpacesSkipped(gap[1..], s);
    }
  }

  lemma NumberRead(gap: string, ds: string, tail: string)
    requires AllSpaces(gap) && AllDigits(ds) && ds != "" && (tail != "" ==> !IsDigit(tail[0]))
    ensures ParseULong(gap + (ds + tail)) == (Some(Value(ds) % ULONG), tail)
  {
    hide TakeDigits, Value, ParseULong;
    assert (ds + tail)[0] == ds[0];
    SpacesSkipped(gap, ds + tail);
    TakenDigits(ds, tail);
    NumberFirst(ds + tail);
    SkippedFirst(gap + (ds + tail), ds + tail);
  }

  lemma SkippedFirst(s: string, t: string)
    requires SkipSpaces(s) == t && SkipSpaces(t) == t
    ensures ParseULong(s) == ParseULong(t)
  {
    hide TakeDigits, SkipSpaces;
  }

  /** Numbers with something before, between and after them. */
  function Spread(gaps: seq<string>, nums: seq<string>): string
    requires |gaps| == |nums| + 1
  {
    if nums == [] then gaps[0] else gaps[0] + (nums[0] + Spread(gaps[1..], nums[1..]))
  }

  /** White space, of any length before the first and after the last number but not empty in between. */
  ghost predicate Separates(gaps: seq<string>) {
    forall i :: 0 <= i < |gaps| ==> AllSpaces(gaps[i]) && (0 < i < |gaps| - 1 ==> gaps[i] != "")
  }

  ghost predicate AllNumbers(nums: seq<string>) {
    forall i :: 0 <= i < |nums| ==> nums[i] != "" && AllDigits(nums[i])
  }

  function Values(nums: seq<string>): seq<nat> {
    if nums == [] then [] else [Value(nums[0]) % ULONG] + Values(nums[1..])
  }

  lemma SpreadStart(gaps: seq<string>, nums: seq<string>)
    requires |gaps| == |nums| + 1 && Separates(gaps) && (nums == [] || gaps[0] != "")
    ensures var s := Spread(gaps, nums); s != "" ==> !IsDigit(s[0])
  {
    hide *;
    FirstGap(gaps, nums);
    if gaps[0] != "" { NoDigit(gaps[0][0]); }
  }

  lemma NoDigit(c: char)
    ensures !(IsSpace(c) && IsDigit(c))
  {
  }

  lemma FirstGap(gaps: seq<string>, nums: seq<string>)
    requires |gaps| == |nums| + 1 && Separates(gaps)
    ensures nums == [] ==> Spread(gaps, nums) == gaps[0]
    ensures gaps[0] != "" ==> Spread(gaps, nums) != "" && Spread(gaps, nums)[0] == gaps[0][0] && IsSpace(gaps[0][0])
  {
  }

  /** Whatever white space separates them, the numbers on a line are read, leading zeros and all, modulo 2^64. */
  lemma {:induction false} NumbersRead(gaps: seq<string>, nums: seq<string>)
    requires |gaps| == |nums| + 1 && Separates(gaps) && AllNumbers(nums)
    ensures Numbers(Spread(gaps, nums)) == (Values(nums), "")
    decreases |nums|
  {
    hide *;
    SpreadParts(gaps, nums);
    if nums == [] {
      Numberless(gaps[0]);
    } else {
      var rest := Spread(gaps[1..], nums[1..]);
      SpreadStart(gaps[1..], nums[1..]);
      NumberRead(gaps[0], nums[0], rest);
      NumbersRead(gaps[1..], nums[1..]);
      NextNumber(Spread(gaps, nums), ParseULong(Spread(gaps, nums)).0.value, rest);
    }
  }

  lemma SpreadParts(gaps: seq<string>, nums: seq<string>)
    requires |gaps| == |nums| + 1 && Separates(gaps) && AllNumbers(nums)
    ensures AllSpaces(gaps[0])
    ensures nums == [] ==> Spread(gaps, nums) == gaps[0] && Values(nums) == []
    ensures nums != [] ==>
      && AllDigits(nums[0]) && nums[0] != "" && Spread(gaps, nums) == gaps[0] + (nums[0] + Spread(gaps[1..], nums[1..]))
      && Separates(gaps[1..]) && AllNumbers(nums[1..]) && (nums[1..] == [] || gaps[1..][0] != "")
      && Values(nums) == [Value(nums[0]) % ULONG] + Values(nums[1..])
  {
    hide AllSpaces, AllDigits, Value;
  }

  lemma Numberless(gap: string)
    requires AllSpaces(gap)
    ensures Numbers(gap) == ([], "")
  {
    SpacesSkipped(gap, "");
    assert gap + "" == gap;
  }

  lemma NextNumber(s: string, n: nat, rest: string)
    requires ParseULong(s) == (Some(n), rest)
    ensures Numbers(s) == ([n] + Numbers(rest).0, Numbers(rest).1)
  {
    hide ParseULong;
  }

  // ---------------------------------------------------------------- order

  /** `a` comes before `b` in a dictionary: they agree up to `k`, where `a` ends or has the smaller character. */
  predicate FirstDiffers(a: string, b: string, k: nat) {
    k <= |a| && k < |b| && a[..k] == b[..k] && (k < |a| ==> a[k] < b[k])
  }

  lemma {:induction false} StrCmpIs(a: string, b: string)
    ensures StrCmp(a, b) < 0 <==> exists k: nat :: FirstDiffers(a, b, k)
  {
    if a == "" {
      assert b != "" ==> FirstDiffers(a, b, 0);
    } else if b == "" {
    } else if a[0] != b[0] {
      assert a[0] < b[0] ==> FirstDiffers(a, b, 0);
      forall k: nat | FirstDiffers(a, b, k) ensures a[0] < b[0] {
        assert k > 0 ==> a[..k][0] == b[..k][0];
      }
    } else {
      StrCmpIs(a[1..], b[1..]);
      forall k: nat | FirstDiffers(a[1..], b[1..], k) ensures exists j: nat :: FirstDiffers(a, b, j) {
        assert a[..k + 1] == [a[0]] + a[1..][..k] && b[..k + 1] == [b[0]] + b[1..][..k];
        var j := k + 1;
        assert FirstDiffers(a, b, j);
      }
      forall k: nat | FirstDiffers(a, b, k) ensures exists j: nat :: FirstDiffers(a[1..], b[1..], j) {
        var j := k - 1;
        assert a[1..][..j] == a[..k][1..] && b[1..][..j] == b[..k][1..];
        assert FirstDiffers(a[1..], b[1..], j);
      }
    }
  }

  /** In a profile, files stand in the order of their names, the functions of a file too, and lines by number. */
  lemma InOrderOf(p: Profile, i: nat, j: nat)
    requires ProfileOk(p) && i < j < |p.outer|
    ensures var a, b := p.outer[i].0, p.outer[j].0;
      StrCmp(a.file, b.file) < 0 || (a.file == b.file && StrCmp(a.fn, b.fn) < 0)
    ensures forall u, v :: 0 <= u < v < |p.outer[i].1| ==> p.outer[i].1[u].0 < p.outer[i].1[v].0
  {
    StrCmpSign(p.outer[i].0.file, p.outer[j].0.file);
    assert InnerOk(p.outer[i].1, p.nEvents);
  }

  // ---------------------------------------------------------------- what is written

  /** An example of the rows that are written. */
  lemma RowsWritten(desc: string, cmd: string, events: string)
    ensures var m := [(FileFn("a.c", "f"), [(7, [5, 0]), (12, [1, 2])]), (FileFn("b.c", "g"), [(3, [0, 4])])];
      var p := Profile([desc], cmd, events, 2, m, [6, 6]);
      Render(p) == [desc, cmd, events, "fl=a.c", "fn=f", "7   5 0 ", "12   1 2 ", "fl=b.c", "fn=g", "3   0 4 ", "summary: 6 6"]
  {
    hide *;
    var f: Inner, g: Inner := [(7, [5, 0]), (12, [1, 2])], [(3, [0, 4])];
    var m: Outer := [(FileFn("a.c", "f"), f), (FileFn("b.c", "g"), g)];
    RowFits(m);
    ThreeRows();
    TwoFunctions("a.c", "f", f, "b.c", "g", g);
    Sixes();
    Texts();
    Rendered(Profile([desc], cmd, events, 2, m, [6, 6]));
  }

  lemma RowFits(m: Outer)
    requires m == [(FileFn("a.c", "f"), [(7, [5, 0]), (12, [1, 2])]), (FileFn("b.c", "g"), [(3, [0, 4])])]
    ensures OuterFits(m) && Wide([6, 6])
  {
  }

  lemma Rendered(p: Profile)
    requires OuterFits(p.outer) && Wide(p.summary)
    ensures Render(p) == p.descLines + [p.cmdLine, p.eventsLine] + OuterLines(p.outer) + ["summary:" + SummaryCells(p.summary)]
  {
  }

  lemma ThreeRows()
    ensures var f: Inner, g: Inner := [(7, [5, 0]), (12, [1, 2])], [(3, [0, 4])];
      Fits(f) && Fits(g) && InnerLines(f) == ["7   5 0 ", "12   1 2 "] && InnerLines(g) == ["3   0 4 "]
  {
    OneDigit();
    OneRow(7, "7", 5, 0, "5", "0");
    OneRow(12, "12", 1, 2, "1", "2");
    OneRow(3, "3", 0, 4, "0", "4");
    Texts();
    hide Row, Dec;
    var f: Inner, g: Inner := [(7, [5, 0]), (12, [1, 2])], [(3, [0, 4])];
    assert f[1..] == [(12, [1, 2])] && f[1..][1..] == [] && g[1..] == [];
  }

  lemma Texts()
    ensures "7" + "   " + ("5" + " " + ("0" + " ")) == "7   5 0 "
    ensures "12" + "   " + ("1" + " " + ("2" + " ")) == "12   1 2 "
    ensures "3" + "   " + ("0" + " " + ("4" + " ")) == "3   0 4 "
    ensures "fl=" + "a.c" == "fl=a.c" && "fn=" + "f" == "fn=f" && "fl=" + "b.c" == "fl=b.c" && "fn=" + "g" == "fn=g"
    ensures "summary:" + " 6 6" == "summary: 6 6"
  {
  }

  lemma OneRow(line: nat, l: string, x: nat, y: nat, dx: string, dy: string)
    requires line < 100 && x < 10 && y < 10 && Dec(line) == l && Dec(x) == dx && Dec(y) == dy
    ensures Wide([x, y]) && Row(line, [x, y]) == l + "   " + (dx + " " + (dy + " "))
  {
    hide Dec, Cells;
    TwoCells(x, y, dx, dy);
  }

  lemma TwoFunctions(fl: string, fn: string, f: Inner, gl: string, gn: string, g: Inner)
    requires Fits(f) && Fits(g)
    ensures var m: Outer := [(FileFn(fl, fn), f), (FileFn(gl, gn), g)];
      OuterFits(m) && OuterLines(m) == ["fl=" + fl, "fn=" + fn] + InnerLines(f) + (["fl=" + gl, "fn=" + gn] + InnerLines(g))
  {
    hide Fits, InnerLines;
    var m: Outer := [(FileFn(fl, fn), f), (FileFn(gl, gn), g)];
    assert m[1..] == [(FileFn(gl, gn), g)] && m[1..][1..] == [];
    assert OuterLines([]) == [];
    assert OuterLines(m[1..]) == ["fl=" + gl, "fn=" + gn] + InnerLines(g);
  }

  lemma OneDigit()
    ensures Dec(0) == "0" && Dec(1) == "1" && Dec(2) == "2" && Dec(3) == "3" && Dec(4) == "4" && Dec(5) == "5" && Dec(6) == "6"
    ensures Dec(7) == "7" && Dec(12) == "12"
  {
  }

  lemma TwoCells(x: nat, y: nat, dx: string, dy: string)
    requires x < 10 && y < 10 && Dec(x) == dx && Dec(y) == dy
    ensures Cells([x, y]) == dx + " " + (dy + " ")
  {
    hide Dec;
    assert [x, y][1..] == [y] && [y][1..] == [];
    assert Cells([]) == "" && Cells([y]) == dy + " ";
  }

  lemma Sixes()
    ensures SummaryCells([6, 6]) == " 6 6"
  {
    OneDigit();
    assert [6, 6][1..] == [6] && [6][1..] == [];
  }

  // ---------------------------------------------------------------- what a merged profile is headed by

  /** The merged profile has the description, command and events of the first one. */
  lemma {:induction false} FirstHeads(inputs: seq<seq<string>>)
    requires inputs != [] && Merged(inputs).Ok?
    ensures Merged(inputs).value.Some? && Parse(inputs[0]).Ok?
    ensures var p, q := Merged(inputs).value.value, Parse(inputs[0]).value;
      p.descLines == q.descLines && p.cmdLine == q.cmdLine && p.eventsLine == q.eventsLine && p.nEvents == q.nEvents
  {
    hide Parse, MergeOuter, Add;
    if |inputs| > 1 {
      FirstHeads(inputs[..|inputs| - 1]);
    }
  }
}
