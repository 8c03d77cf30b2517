/**
 What a Cachegrind output file means: when it is accepted, how many events it has, and which counts its lines add up
 to.  Everything here is said of the lines of the file, not of how they are read one after the other.
*/
module ProfileParse {
  import opened Common
  import opened AvlTree
  import opened AvlMap
  import opened ProfileText
  import opened ProfileModel
  import opened ProfileSums
  import opened ProfileMerge

  // ---------------------------------------------------------------- the number of events

  /** The pieces of a string between its spaces; two spaces in a row have an empty piece between them. */
  function Words(s: string): (ws: seq<string>)
    ensures ws != []
  {
    if s == "" then [""]
    else
      var ws := Words(s[1..]);
      if s[0] == ' ' then [""] + ws else [[s[0]] + ws[0]] + ws[1..]
  }

  predicate StartsWithLetter(w: string) {
    w != "" && ('a' <= w[0] <= 'z' || 'A' <= w[0] <= 'Z')
  }

  function LetterWords(ws: seq<string>): nat {
    if ws == [] then 0 else LetterWords(ws[1..]) + if StartsWithLetter(ws[0]) then 1 else 0
  }

  lemma {:induction false} FirstWord(s: string)
    ensures StartsWithLetter(Words(s)[0]) <==> StartsWithLetter(s)
  {
    if s != "" {
      var ws := Words(s[1..]);
      assert s[0] != ' ' ==> Words(s)[0][0] == s[0];
    }
  }

  /** The events of any line are its words that start with a letter, except for the first word. */
  lemma {:induction false} EventsAreWords(s: string)
    ensures CountEvents(s) == LetterWords(Words(s)[1..])
  {
    if s != "" {
      var rest := s[1..];
      var ws := Words(rest);
      EventsAreWords(rest);
      FirstWord(rest);
      if s[0] == ' ' {
        assert Words(s)[1..] == ws;
      } else {
        assert Words(s)[1..] == ws[1..];
      }
      if |s| == 1 {
        assert rest == "" && ws[1..] == [];
      }
    }
  }

  /** The names of events are words that start with a letter. */
  ghost predicate EventNames(names: seq<string>) {
    forall i :: 0 <= i < |names| ==> StartsWithLetter(names[i]) && ' ' !in names[i]
  }

  function Joined(names: seq<string>): string {
    if names == [] then "" else if |names| == 1 then names[0] else names[0] + " " + Joined(names[1..])
  }

  lemma {:induction false} WordFirst(w: string, tail: string)
    requires ' ' !in w && (tail == "" || tail[0] == ' ')
    ensures Words(w + tail) == [w] + Words(tail)[1..]
  {
    if w == "" {
      assert w + tail == tail;
      assert tail != "" ==> Words(tail)[0] == "";
    } else {
      assert (w + tail)[1..] == w[1..] + tail && w[0] != ' ';
      assert forall c :: c in w[1..] ==> c in w;
      WordFirst(w[1..], tail);
      assert [w[0]] + w[1..] == w;
      assert Words(w + tail) == [[w[0]] + w[1..]] + Words(tail)[1..];
    }
  }

  lemma {:induction false} WordsOfNames(names: seq<string>, tail: string)
    requires EventNames(names) && names != [] && (tail == "" || tail[0] == ' ')
    ensures Words(Joined(names) + tail) == names + Words(tail)[1..]
  {
    hide *;
    JoinedIs(names, tail);
    FirstName(names);
    if |names| == 1 {
      WordFirst(names[0], tail);
      assert names == [names[0]];
    } else {
      var rest := Joined(names[1..]) + tail;
      WordsOfNames(names[1..], tail);
      WordFirst(names[0], " " + rest);
      AfterSpace(rest);
      Reassociate([names[0]], names[1..], Words(tail)[1..]);
      assert names == [names[0]] + names[1..];
    }
  }

  lemma JoinedIs(names: seq<string>, tail: string)
    requires names != []
    ensures |names| == 1 ==> Joined(names) == names[0]
    ensures |names| > 1 ==> Joined(names) + tail == names[0] + (" " + (Joined(names[1..]) + tail))
  {
    hide Joined;
    assert |names| > 1 ==> Joined(names) == names[0] + " " + Joined(names[1..]) by { JoinedStep(names); }
    assert |names| == 1 ==> Joined(names) == names[0] by { JoinedStep(names); }
  }

  lemma JoinedStep(names: seq<string>)
    requires names != []
    ensures Joined(names) == if |names| == 1 then names[0] else names[0] + " " + Joined(names[1..])
  {
  }

  lemma FirstName(names: seq<string>)
    requires EventNames(names) && names != []
    ensures ' ' !in names[0] && EventNames(names[1..])
  {
  }

  lemma AfterSpace(s: string)
    ensures (" " + s)[0] == ' ' && Words(" " + s)[1..] == Words(s)
  {
    assert (" " + s)[1..] == s;
  }

  lemma Reassociate<T>(a: seq<T>, b: seq<T>, c: seq<T>)
    ensures a + b + c == a + (b + c)
  {
  }

  lemma {:induction false} AllLetterWords(names: seq<string>, ws: seq<string>)
    requires EventNames(names) && LetterWords(ws) == 0
    ensures LetterWords(names + ws) == |names|
  {
    if names == [] {
      assert names + ws == ws;
    } else {
      assert (names + ws)[1..] == names[1..] + ws;
      AllLetterWords(names[1..], ws);
    }
  }

  /** A line that names events has as many as it names, whether or not a space follows the last one. */
  lemma NamesCounted(names: seq<string>)
    requires EventNames(names)
    ensures CountEvents(": " + Joined(names)) == |names| == CountEvents(": " + Joined(names) + " ")
  {
    hide *;
    var s := Joined(names);
    EventsAreWords(": " + s);
    EventsAreWords(": " + s + " ");
    AfterColon(s);
    AfterColon(s + " ");
    assert ": " + s + " " == ": " + (s + " ");
    LineWords(names);
    AllLetterWords(names, []);
    AllLetterWords(names, [""]);
  }

  lemma LineWords(names: seq<string>)
    requires EventNames(names)
    ensures LetterWords([]) == 0 == LetterWords([""])
    ensures LetterWords(Words(Joined(names))) == LetterWords(names + [])
    ensures LetterWords(Words(Joined(names) + " ")) == LetterWords(names + [""])
  {
    assert Words("") == [""] && Words(" ") == ["", ""];
    if names == [] {
      assert Joined(names) + " " == " " && names + [] == [] && names + [""] == [""];
      assert ["", ""][1..] == [""];
    } else {
      WordsOfNames(names, "");
      WordsOfNames(names, " ");
      hide Words, Joined, LetterWords;
      assert Joined(names) + "" == Joined(names) && [""][1..] == [] && ["", ""][1..] == [""];
    }
  }

  lemma AfterColon(s: string)
    ensures Words(": " + s)[1..] == Words(s)
  {
    assert (": " + s)[1..] == " " + s && (" " + s)[1..] == s;
  }

  // ---------------------------------------------------------------- the lines between events and summary

  predicate CountLine(line: string) { line != "" && IsDigit(line[0]) }

  predicate NameLine(line: string) { Starts(line, "fl=") || Starts(line, "fn=") }

  /** A line number and one count for each of the `n` events. */
  predicate RightCounts(line: string, n: nat) {
    Numbers(line).1 == "" && |Numbers(line).0| == n + 1 >= 2
  }

  /** The count of event `e` in a line. */
  function CountIn(line: string, e: nat): nat {
    if CountLine(line) && e + 1 < |Numbers(line).0| then Numbers(line).0[e + 1] else 0
  }

  /** The sum of event `e` over the first `i` lines. */
  function Column(body: seq<string>, i: nat, e: nat): nat
    requires i <= |body|
  {
    if i == 0 then 0 else Column(body, i - 1, e) + CountIn(body[i - 1], e)
  }

  /** What the last of the first `i` lines that starts with `prefix` has after it. */
  function LastNamed(body: seq<string>, i: nat, prefix: string): string
    requires i <= |body|
  {
    if i == 0 then "???"
    else if Starts(body[i - 1], prefix) then body[i - 1][|prefix|..] else LastNamed(body, i - 1, prefix)
  }

  /** Line `i` counts for this line of this function. */
  predicate CountsFor(body: seq<string>, i: nat, key: FileFn, line: int)
    requires i < |body|
  {
    CountLine(body[i]) && LastNamed(body, i, "fl=") == key.file && LastNamed(body, i, "fn=") == key.fn
    && Numbers(body[i]).0 != [] && Numbers(body[i]).0[0] == line
  }

  /** The sum of event `e` over those of the first `i` lines that count for this line of this function. */
  function SumFor(body: seq<string>, i: nat, key: FileFn, line: int, e: nat): nat
    requires i <= |body|
  {
    if i == 0 then 0 else SumFor(body, i - 1, key, line, e) + if CountsFor(body, i - 1, key, line) then CountIn(body[i - 1], e) else 0
  }

  ghost predicate Occurs(body: seq<string>, i: nat, key: FileFn, line: int)
    requires i <= |body|
  {
    exists j :: 0 <= j < i && CountsFor(body, j, key, line)
  }

  // ---------------------------------------------------------------- one line

  lemma AddRowAt(m: Outer, k: FileFn, l: nat, c: Counts, n: nat, key: FileFn, line: int)
    requires OuterOk(m, n) && |c| == n && Wide(c) && l < ULONG
    ensures At(AddRow(m, k, l, c), key, line)
      == if key == k && line == l then Plus(At(m, key, line), Some(c)) else At(m, key, line)
  {
    FileFnOrder();
    hide OuterOk, Put, AddLine, CmpFileFn, TotalOrder;
    match Lookup(CmpFileFn, m, k)
    case None =>
      Ordering(m, n);
      LookupPut(CmpFileFn, m, k, AddLine([], l, c), key);
      FirstLineAt(l, c, n, line);
    case Some(inner) =>
      FoundOk(m, k, n);
      Ordering(m, n);
      LookupPut(CmpFileFn, m, k, AddLine(inner, l, c), key);
      AddLineAt(inner, l, c, n, line);
  }

  lemma Ordering(m: Outer, n: nat)
    requires OuterOk(m, n)
    ensures Sorted(CmpFileFn, m)
  {
  }

  lemma FirstLineAt(l: nat, c: Counts, n: nat, line: int)
    requires |c| == n && Wide(c) && l < ULONG
    ensures Lookup(Compare, AddLine([], l, c), line) == if line == l then Some(c) else None
  {
    AddLineAt([], l, c, n, line);
  }

  // ---------------------------------------------------------------- all lines

  /** Lines of counts are right, all others are names. */
  ghost predicate BodyOk(body: seq<string>, i: nat, n: nat)
    requires i <= |body|
  {
    forall j :: 0 <= j < i ==> if CountLine(body[j]) then RightCounts(body[j], n) else NameLine(body[j])
  }

  /** What has been read after `i` lines. */
  ghost predicate ReadTo(b: Body, body: seq<string>, i: nat, n: nat)
    requires i <= |body|
  {
    && OuterOk(b.outer, n) && |b.summary| == n
    && b.fl == LastNamed(body, i, "fl=") && b.fn == LastNamed(body, i, "fn=")
    && (forall e :: 0 <= e < n ==> b.summary[e] == Column(body, i, e) % ULONG)
    && forall key, line :: Means(b.outer, body, i, n, key, line)
  }

  /** The counts of one line of one function. */
  ghost predicate Means(m: Outer, body: seq<string>, i: nat, n: nat, key: FileFn, line: int)
    requires i <= |body|
  {
    match At(m, key, line)
    case None => !Occurs(body, i, key, line)
    case Some(c) =>
      Occurs(body, i, key, line) && |c| == n && forall e :: 0 <= e < n ==> c[e] == SumFor(body, i, key, line, e) % ULONG
  }

  lemma SumMod(x: nat, y: nat)
    ensures (x % ULONG + y) % ULONG == (x + y) % ULONG
  {
  }

  /** A line of counts is read. */
  lemma CountsRead(b: Body, body: seq<string>, i: nat, n: nat, c: Body)
    requires i < |body| && ReadTo(b, body, i, n) && CountLine(body[i])
    ensures HandleCounts(n, b, body[i]).Ok? <==> RightCounts(body[i], n)
    ensures HandleCounts(n, b, body[i]) == Ok(c) ==> ReadTo(c, body, i + 1, n)
  {
    HandledIs(b, body[i], n);
    hide OuterOk, LastNamed, Means, AddRow, HandleCounts, Column, Add;
    if RightCounts(body[i], n) {
      var ns, k := Numbers(body[i]).0, i + 1;
      NumbersWide(body[i]);
      AddRowTotal(b.outer, FileFn(b.fl, b.fn), ns[0], ns[1..], n);
      NotName(body, i);
      ColumnMore(b, body, i, n);
      if HandleCounts(n, b, body[i]) == Ok(c) {
        var m := c.outer;
        forall key, line ensures Means(m, body, k, n, key, line) {
          MeansMore(b, body, i, n, key, line);
        }
      }
    }
  }

  lemma HandledIs(b: Body, line: string, n: nat)
    requires |b.summary| == n
    ensures HandleCounts(n, b, line).Ok? <==> RightCounts(line, n)
    ensures RightCounts(line, n) ==>
      var ns := Numbers(line).0;
      HandleCounts(n, b, line)
        == Ok(b.(outer := AddRow(b.outer, FileFn(b.fl, b.fn), ns[0], ns[1..]), summary := Add(b.summary, ns[1..])))
  {
    hide Numbers, AddRow, Add;
  }

  lemma ColumnMore(b: Body, body: seq<string>, i: nat, n: nat)
    requires i < |body| && ReadTo(b, body, i, n) && CountLine(body[i]) && RightCounts(body[i], n)
    ensures var s := Add(b.summary, Numbers(body[i]).0[1..]);
      |s| == n && forall e :: 0 <= e < n ==> s[e] == Column(body, i + 1, e) % ULONG
  {
    hide OuterOk, LastNamed, Means, Numbers;
    var ns := Numbers(body[i]).0;
    forall e | 0 <= e < n ensures Add(b.summary, ns[1..])[e] == Column(body, i + 1, e) % ULONG {
      SumMod(Column(body, i, e), ns[e + 1]);
    }
  }

  lemma NotName(body: seq<string>, i: nat)
    requires i < |body| && CountLine(body[i])
    ensures LastNamed(body, i + 1, "fl=") == LastNamed(body, i, "fl=") && LastNamed(body, i + 1, "fn=") == LastNamed(body, i, "fn=")
  {
    assert "fl="[0] == 'f' && "fn="[0] == 'f';
  }

  lemma MeansMore(b: Body, body: seq<string>, i: nat, n: nat, key: FileFn, line: int)
    requires i < |body| && ReadTo(b, body, i, n) && CountLine(body[i]) && RightCounts(body[i], n)
    ensures Numbers(body[i]).0 != []
    ensures var ns := Numbers(body[i]).0;
      Means(AddRow(b.outer, FileFn(b.fl, b.fn), ns[0], ns[1..]), body, i + 1, n, key, line)
  {
    hide OuterOk, LastNamed, AddRow, Numbers, SumFor, Occurs;
    var ns := Numbers(body[i]).0;
    NumbersWide(body[i]);
    AddRowAt(b.outer, FileFn(b.fl, b.fn), ns[0], ns[1..], n, key, line);
    assert Means(b.outer, body, i, n, key, line);
    OneMore(body, i, key, line);
    if CountsFor(body, i, key, line) {
      var o := At(b.outer, key, line);
      forall e | 0 <= e < n
        ensures SumFor(body, i + 1, key, line, e) % ULONG == (SumFor(body, i, key, line, e) % ULONG + ns[1..][e]) % ULONG
        ensures o.None? ==> SumFor(body, i + 1, key, line, e) % ULONG == ns[1..][e]
      {
        SumMod(SumFor(body, i, key, line, e), ns[e + 1]);
        if o.None? {
          NothingFor(body, i, key, line, e);
        }
      }
    }
  }

  lemma OneMore(body: seq<string>, i: nat, key: FileFn, line: int)
    requires i < |body|
    ensures Occurs(body, i + 1, key, line) <==> Occurs(body, i, key, line) || CountsFor(body, i, key, line)
    ensures forall e ::
      SumFor(body, i + 1, key, line, e)
        == SumFor(body, i, key, line, e) + (if CountsFor(body, i, key, line) then CountIn(body[i], e) else 0)
  {
    hide CountsFor, CountIn;
  }

  lemma {:induction false} NothingFor(body: seq<string>, i: nat, key: FileFn, line: int, e: nat)
    requires i <= |body| && !Occurs(body, i, key, line)
    ensures SumFor(body, i, key, line, e) == 0
  {
    if i > 0 {
      NothingFor(body, i - 1, key, line, e);
    }
  }

  lemma NameRead(b: Body, body: seq<string>, i: nat, n: nat)
    requires i < |body| && ReadTo(b, body, i, n) && !CountLine(body[i])
    ensures Starts(body[i], "fn=") ==> ReadTo(b.(fn := body[i][3..]), body, i + 1, n)
    ensures !Starts(body[i], "fn=") && Starts(body[i], "fl=") ==> ReadTo(b.(fl := body[i][3..]), body, i + 1, n)
  {
    hide OuterOk, Means;
    assert "fl="[1] == 'l' && "fn="[1] == 'n';
    assert Starts(body[i], "fl=") ==> body[i][1] == 'l';
    assert Starts(body[i], "fn=") ==> body[i][1] == 'n';
    var m, k := b.outer, i + 1;
    forall key, line ensures Means(m, body, k, n, key, line) {
      assert Means(m, body, i, n, key, line);
      SameMeaning(m, body, i, n, key, line);
    }
  }

  lemma SameMeaning(m: Outer, body: seq<string>, i: nat, n: nat, key: FileFn, line: int)
    requires i < |body| && !CountLine(body[i]) && Means(m, body, i, n, key, line)
    ensures Means(m, body, i + 1, n, key, line)
  {
    hide SumFor, Occurs;
    OneMore(body, i, key, line);
  }

  /** From the `i`-th line on: the rest of the body is read exactly if it is right, up to the summary line. */
  lemma {:induction false} BodyRead(b: Body, body: seq<string>, i: nat, n: nat, tail: seq<string>) returns (c: Body)
    requires i <= |body| && ReadTo(b, body, i, n) && BodyOk(body, i, n)
    requires forall j :: 0 <= j < |body| ==> CountLine(body[j]) || NameLine(body[j])
    requires tail != [] && Starts(tail[0], "summary: ")
    ensures ParseBody(n, b, body[i..] + tail).Ok? <==> BodyOk(body, |body|, n)
    ensures BodyOk(body, |body|, n) ==> ReadTo(c, body, |body|, n) && ParseBody(n, b, body[i..] + tail) == Ok((c, tail))
    decreases |body| - i
  {
    hide ReadTo, HandleCounts;
    c := b;
    ReadParts(b, body, i, n);
    if i == |body| {
      assert body[i..] + tail == tail;
      SummaryFirst(n, b, tail);
    } else {
      var lines := body[i..] + tail;
      assert lines[0] == body[i] && lines[1..] == body[i + 1..] + tail;
      if CountLine(body[i]) {
        var h := HandleCounts(n, b, body[i]);
        CountsRead(b, body, i, n, if h.Ok? then h.value else b);
        if h.Ok? {
          c := BodyRead(h.value, body, i + 1, n, tail);
        }
      } else {
        NameRead(b, body, i, n);
        c := BodyRead(if Starts(body[i], "fn=") then b.(fn := body[i][3..]) else b.(fl := body[i][3..]), body, i + 1, n, tail);
      }
    }
  }

  lemma ReadParts(b: Body, body: seq<string>, i: nat, n: nat)
    requires i <= |body| && ReadTo(b, body, i, n)
    ensures |b.summary| == n && forall e :: 0 <= e < n ==> b.summary[e] == Column(body, i, e) % ULONG
  {
  }

  lemma SummaryFirst(n: nat, b: Body, tail: seq<string>)
    requires |b.summary| == n && tail != [] && Starts(tail[0], "summary: ")
    ensures ParseBody(n, b, tail) == Ok((b, tail))
  {
    assert "summary: "[0] == 's' && "fl="[0] == 'f' && "fn="[0] == 'f';
    assert tail[0][0] == 's';
  }

  // ---------------------------------------------------------------- the whole file

  /** How many events a line names. */
  function EventsOf(line: string): nat {
    if |line| < 6 then 0 else LetterWords(Words(line[6..])[1..])
  }

  /** The summary line has the sums of all lines of counts. */
  ghost predicate SummaryRight(line: string, body: seq<string>, n: nat)
    requires |line| >= 8
  {
    var (ns, rest) := Numbers(line[8..]);
    rest == "" && |ns| == n >= 1 && forall e :: 0 <= e < n ==> ns[e] == Column(body, |body|, e) % ULONG
  }

  /** A file of `k` lines of description, and the others in order. */
  ghost predicate Accepted(lines: seq<string>, k: nat) {
    var last := |lines| - 1;
    && 1 <= k && k + 2 <= last
    && (forall i :: 0 <= i < k ==> Starts(lines[i], "desc: "))
    && Starts(lines[k], "cmd: ") && Starts(lines[k + 1], "events: ") && Starts(lines[last], "summary: ")
    && var n, body := EventsOf(lines[k + 1]), lines[k + 2..last];
      BodyOk(body, |body|, n) && SummaryRight(lines[last], body, n)
  }

  lemma {:induction false} DescsCounted(lines: seq<string>, k: nat)
    requires k < |lines| && (forall i :: 0 <= i < k ==> Starts(lines[i], "desc: ")) && !Starts(lines[k], "desc: ")
    ensures DescCount(lines) == k
  {
    if k > 0 {
      DescsCounted(lines[1..], k - 1);
    }
  }

  /** Where the lines of the body end. */
  lemma {:induction false} BodyEnds(n: nat, b: Body, lines: seq<string>) returns (m: nat)
    requires |b.summary| == n && ParseBody(n, b, lines).Ok?
    ensures m < |lines| && ParseBody(n, b, lines).value.1 == lines[m..] && Starts(lines[m], "summary: ")
    ensures forall j :: 0 <= j < m ==> CountLine(lines[j]) || NameLine(lines[j])
    decreases |lines|
  {
    var line := lines[0];
    var m' := 0;
    if line != "" && IsDigit(line[0]) {
      var h := HandleCounts(n, b, line);
      hide HandleCounts;
      m' := BodyEnds(n, h.value, lines[1..]);
      m := m' + 1;
    } else if Starts(line, "fn=") {
      m' := BodyEnds(n, b.(fn := line[3..]), lines[1..]);
      m := m' + 1;
    } else if Starts(line, "fl=") {
      m' := BodyEnds(n, b.(fl := line[3..]), lines[1..]);
      m := m' + 1;
    } else {
      m := 0;
    }
    forall j | 0 <= j < m ensures CountLine(lines[j]) || NameLine(lines[j]) {
      if j > 0 {
        assert lines[j] == lines[1..][j - 1];
      }
    }
  }

  lemma SummaryChecked(n: nat, b: Body, body: seq<string>, line: string)
    requires |line| >= 8 && ReadTo(b, body, |body|, n)
    ensures CheckSummary(n, b.summary, [line]).Ok? <==> SummaryRight(line, body, n)
    ensures |b.summary| == n
  {
    ReadParts(b, body, |body|, n);
    hide Numbers, ReadTo, Column;
    var ns := Numbers(line[8..]).0;
    if |ns| == n && forall e :: 0 <= e < n ==> ns[e] == Column(body, |body|, e) % ULONG {
      assert ns == b.summary;
    }
  }

  /** `Parse` once the lines before the body are there. */
  lemma ParseRest(lines: seq<string>, k: nat)
    requires 1 <= k && k + 2 <= |lines| && DescCount(lines) == k
    requires Starts(lines[k], "cmd: ") && Starts(lines[k + 1], "events: ")
    ensures var n := CountEvents(lines[k + 1][6..]); var r := ParseBody(n, Body("???", "???", [], Zeroed(n)), lines[k + 2..]);
      && n == EventsOf(lines[k + 1])
      && (Parse(lines).Ok? <==> r.Ok? && CheckSummary(n, r.value.0.summary, r.value.1).Ok?)
      && (Parse(lines).Ok? ==>
          Parse(lines).value == Profile(lines[..k], lines[k], lines[k + 1], n, r.value.0.outer, r.value.0.summary))
  {
    hide ParseBody, CheckSummary, DescCount, CountEvents, Words;
    EventsAreWords(lines[k + 1][6..]);
  }

  lemma NothingRead(body: seq<string>, n: nat)
    ensures ReadTo(Body("???", "???", [], Zeroed(n)), body, 0, n)
  {
  }

  /** What an accepted file has been read as. */
  ghost predicate ReadAs(p: Profile, lines: seq<string>, k: nat)
    requires Accepted(lines, k)
  {
    var n, body := EventsOf(lines[k + 1]), lines[k + 2..|lines| - 1];
    && p.descLines == lines[..k] && p.cmdLine == lines[k] && p.eventsLine == lines[k + 1] && p.nEvents == n
    && |p.summary| == n && (forall e :: 0 <= e < n ==> p.summary[e] == Column(body, |body|, e) % ULONG)
    && forall key, line :: Means(p.outer, body, |body|, n, key, line)
  }

  lemma ParseAccepted(lines: seq<string>, k: nat)
    requires Accepted(lines, k)
    ensures Parse(lines).Ok? && ReadAs(Parse(lines).value, lines, k)
  {
    hide *;
    AcceptedParts(lines, k);
    var last := |lines| - 1;
    var n, body, tail := EventsOf(lines[k + 1]), lines[k + 2..last], [lines[last]];
    var b := Body("???", "???", [], Zeroed(n));
    DescsCounted(lines, k);
    ParseRest(lines, k);
    NothingRead(body, n);
    ZeroedLength(n);
    NoneYet(body, n);
    assert lines[k + 2..] == body + tail && body[0..] == body;
    var c := BodyRead(b, body, 0, n, tail);
    SummaryChecked(n, c, body, lines[last]);
    ReadToIs(c, body, n);
    ReadAsFrom(Parse(lines).value, lines, k, c);
  }

  lemma AcceptedParts(lines: seq<string>, k: nat)
    requires Accepted(lines, k)
    ensures 1 <= k && k + 3 <= |lines| && (forall i :: 0 <= i < k ==> Starts(lines[i], "desc: ")) && !Starts(lines[k], "desc: ")
    ensures Starts(lines[k], "cmd: ") && Starts(lines[k + 1], "events: ") && Starts(lines[|lines| - 1], "summary: ")
    ensures |lines[|lines| - 1]| >= 8
    ensures var n, body := EventsOf(lines[k + 1]), lines[k + 2..|lines| - 1];
      && BodyOk(body, |body|, n) && SummaryRight(lines[|lines| - 1], body, n)
      && forall j :: 0 <= j < |body| ==> CountLine(body[j]) || NameLine(body[j])
  {
    hide EventsOf, SummaryRight, CountLine, NameLine, RightCounts;
    assert "cmd: "[0] == 'c' && "desc: "[0] == 'd';
  }

  lemma ReadAsFrom(p: Profile, lines: seq<string>, k: nat, c: Body)
    requires Accepted(lines, k)
    requires var n, body, m := EventsOf(lines[k + 1]), lines[k + 2..|lines| - 1], c.outer;
      && p == Profile(lines[..k], lines[k], lines[k + 1], n, c.outer, c.summary) && |c.summary| == n
      && (forall e :: 0 <= e < n ==> c.summary[e] == Column(body, |body|, e) % ULONG)
      && forall key, line :: Means(m, body, |body|, n, key, line)
    ensures ReadAs(p, lines, k)
  {
    hide Accepted, EventsOf, Column, Means;
  }

  lemma ReadToIs(c: Body, body: seq<string>, n: nat)
    requires ReadTo(c, body, |body|, n)
    ensures |c.summary| == n && (forall e :: 0 <= e < n ==> c.summary[e] == Column(body, |body|, e) % ULONG)
    ensures var m := c.outer; forall key, line :: Means(m, body, |body|, n, key, line)
  {
  }

  lemma AcceptedParse(lines: seq<string>)
    requires Parse(lines).Ok?
    ensures Accepted(lines, DescCount(lines))
  {
    var k := DescCount(lines);
    DescLines(lines);
    ParseSteps(lines);
    hide *;
    ParseRest(lines, k);
    var n, all := EventsOf(lines[k + 1]), lines[k + 2..];
    var b := Body("???", "???", [], Zeroed(n));
    ZeroedLength(n);
    var m := BodyEnds(n, b, all);
    SummaryLength(all[m]);
    assert all[m..][0] == all[m];
    OneLeft(n, ParseBody(n, b, all).value.0.summary, all[m..]);
    var body := all[..m];
    Split(lines, k, m);
    NothingRead(body, n);
    BodyIsRight(lines, k, body, n, b);
    AcceptedFrom(lines, k);
  }

  lemma ZeroedLength(n: nat)
    ensures |Zeroed(n)| == n
  {
  }

  lemma SummaryLength(line: string)
    ensures Starts(line, "summary: ") ==> |line| >= 8
  {
  }

  lemma Split(lines: seq<string>, k: nat, m: nat)
    requires k + 2 <= |lines| && m + 1 == |lines| - (k + 2)
    ensures var all, last := lines[k + 2..], |lines| - 1;
      all[..m] == lines[k + 2..last] && all == lines[k + 2..last] + [lines[last]] && all[m] == lines[last]
  {
  }

  /** A body that was read is right, and so is the summary then. */
  lemma BodyIsRight(lines: seq<string>, k: nat, body: seq<string>, n: nat, b: Body)
    requires k + 3 <= |lines| && body == lines[k + 2..|lines| - 1] && lines[k + 2..] == body + [lines[|lines| - 1]]
    requires (forall j :: 0 <= j < |body| ==> CountLine(body[j]) || NameLine(body[j])) && ReadTo(b, body, 0, n)
    requires Starts(lines[|lines| - 1], "summary: ") && |lines[|lines| - 1]| >= 8 && |b.summary| == n
    requires
      var r := ParseBody(n, b, lines[k + 2..]);
      && r.Ok? && |r.value.0.summary| == n && r.value.1 != []
      && |r.value.1[0]| >= 8 && CheckSummary(n, r.value.0.summary, r.value.1).Ok?
    ensures BodyOk(body, |body|, n) && SummaryRight(lines[|lines| - 1], body, n)
  {
    var last := lines[|lines| - 1];
    hide *;
    NoneYet(body, n);
    assert body[0..] == body;
    var c := BodyRead(b, body, 0, n, [last]);
    SummaryChecked(n, c, body, last);
  }

  lemma NoneYet(body: seq<string>, n: nat)
    ensures BodyOk(body, 0, n)
  {
  }

  lemma AcceptedFrom(lines: seq<string>, k: nat)
    requires 1 <= k && k + 3 <= |lines| && (forall i :: 0 <= i < k ==> Starts(lines[i], "desc: "))
    requires Starts(lines[k], "cmd: ") && Starts(lines[k + 1], "events: ") && Starts(lines[|lines| - 1], "summary: ")
    requires |lines[|lines| - 1]| >= 8
    requires var n, body := EventsOf(lines[k + 1]), lines[k + 2..|lines| - 1];
      BodyOk(body, |body|, n) && SummaryRight(lines[|lines| - 1], body, n)
    ensures Accepted(lines, k)
  {
    hide BodyOk, SummaryRight, EventsOf;
  }

  lemma ParseSteps(lines: seq<string>)
    requires Parse(lines).Ok?
    ensures var k := DescCount(lines);
      1 <= k && k + 2 <= |lines| && Starts(lines[k], "cmd: ") && Starts(lines[k + 1], "events: ")
  {
    hide DescCount, ParseBody, CheckSummary, CountEvents, Starts, Zeroed;
  }

  lemma OneLeft(n: nat, summary: Counts, lines: seq<string>)
    requires lines != [] && |lines[0]| >= 8 && CheckSummary(n, summary, lines).Ok?
    ensures |lines| == 1
  {
  }

  /** A file is accepted if and only if it has its lines in order, every line of counts has one for each event, and the
      summary line has their sums; and then it is read as what its lines say. */
  lemma ParseIff(lines: seq<string>)
    ensures Parse(lines).Ok? <==> exists k :: Accepted(lines, k)
    ensures Parse(lines).Ok? ==>
      Accepted(lines, DescCount(lines)) && ReadAs(Parse(lines).value, lines, DescCount(lines))
  {
    hide *;
    if Parse(lines).Ok? {
      AcceptedParse(lines);
      ParseAccepted(lines, DescCount(lines));
    }
    if k :| Accepted(lines, k) {
      ParseAccepted(lines, k);
    }
  }

  /** In a file whose events line has these names, every line of counts must have one for each of them. */
  lemma NamedEvents(names: seq<string>, line: string)
    requires EventNames(names) && (line == "events: " + Joined(names) || line == "events: " + Joined(names) + " ")
    ensures EventsOf(line) == |names|
  {
    hide *;
    NamesCounted(names);
    var s := if line == "events: " + Joined(names) then Joined(names) else Joined(names) + " ";
    assert "events: " + Joined(names) + " " == "events: " + (Joined(names) + " ");
    assert ": " + Joined(names) + " " == ": " + (Joined(names) + " ");
    FromColon(s);
    EventsAreWords(": " + s);
    EventsIs(line);
  }

  /** The lines that lead up to the counts. */
  ghost predicate Headed(lines: seq<string>, k: nat, names: seq<string>) {
    && 1 <= k && k + 2 < |lines|
    && (forall i :: 0 <= i < k ==> Starts(lines[i], "desc: "))
    && Starts(lines[k], "cmd: ")
    && (lines[k + 1] == "events: " + Joined(names) || lines[k + 1] == "events: " + Joined(names) + " ")
  }

  /** What follows: names, lines with `n` counts each, and their sums. */
  ghost predicate Counted(lines: seq<string>, k: nat, n: nat)
    requires k + 2 < |lines|
  {
    var last := |lines| - 1;
    var body := lines[k + 2..last];
    Starts(lines[last], "summary: ") && BodyOk(body, |body|, n) && SummaryRight(lines[last], body, n)
  }

  /** A file that names its events is accepted if and only if every line of counts has as many as there are names, and the
      summary has the sums of all lines. */
  lemma NamedFile(names: seq<string>, lines: seq<string>, k: nat)
    requires EventNames(names) && Headed(lines, k, names)
    ensures Parse(lines).Ok? <==> Counted(lines, k, |names|)
  {
    hide *;
    HeadedParts(lines, k, names);
    NamedEvents(names, lines[k + 1]);
    ParseIff(lines);
    AcceptedHere(lines, k, names);
    if j :| Accepted(lines, j) {
      OnlyOne(lines, k, names, j);
    }
  }

  lemma HeadedParts(lines: seq<string>, k: nat, names: seq<string>)
    requires Headed(lines, k, names)
    ensures k + 2 < |lines|
    ensures lines[k + 1] == "events: " + Joined(names) || lines[k + 1] == "events: " + Joined(names) + " "
  {
    hide Joined;
  }

  lemma AcceptedHere(lines: seq<string>, k: nat, names: seq<string>)
    requires Headed(lines, k, names) && EventsOf(lines[k + 1]) == |names|
    ensures Accepted(lines, k) <==> Counted(lines, k, |names|)
  {
    hide BodyOk, SummaryRight, EventsOf, Joined;
    assert Starts(lines[k + 1], "events: ");
  }

  lemma OnlyOne(lines: seq<string>, k: nat, names: seq<string>, j: nat)
    requires Headed(lines, k, names) && Accepted(lines, j)
    ensures j == k
  {
    hide BodyOk, SummaryRight, EventsOf, Joined, Starts;
    NotBoth(lines[k]);
    NotBoth(lines[j]);
  }

  lemma NotBoth(line: string)
    ensures !(Starts(line, "desc: ") && Starts(line, "cmd: "))
  {
    assert "desc: "[0] == 'd' && "cmd: "[0] == 'c';
  }

  lemma FromColon(s: string)
    ensures |"events: " + s| >= 6 && ("events: " + s)[6..] == ": " + s
  {
    assert "events: " + s == "events" + (": " + s);
  }

  lemma EventsIs(line: string)
    requires |line| >= 6
    ensures EventsOf(line) == LetterWords(Words(line[6..])[1..])
  {
  }
}
