/**
 The round trip: what `show_CacheProfFile` writes, `parse_CacheProfFile` reads back as the
 same profile, exactly if no number in it is 2^63 or larger.
*/
module ProfileRound {
  import opened Common
  import opened AvlTree
  import opened AvlMap
  import opened ProfileText
  import opened ProfileModel
  import opened ProfileSums

  predicate SmallRow(line: int, c: Counts) { line < SIGN && Small(c) }

  predicate SmallInner(m: Inner) { forall i :: 0 <= i < |m| ==> SmallRow(m[i].0, m[i].1) }

  /** No number in the profile is 2^63 or larger. */
  predicate SmallProfile(p: Profile) {
    Small(p.summary) && forall i :: 0 <= i < |p.outer| ==> SmallInner(p.outer[i].1)
  }

  // ---------------------------------------------------------------- one line of counts

  lemma RowNumbers(line: int, c: Counts)
    requires 0 <= line < ULONG && Wide(c)
    ensures SmallRow(line, c) ==> Numbers(Row(line, c)) == ([line] + c, "")
    ensures line < SIGN && !Small(c) ==> Numbers(Row(line, c)).1 != ""
    ensures Row(line, c) != "" && (IsDigit(Row(line, c)[0]) <==> line < SIGN)
    ensures line >= SIGN ==> Row(line, c)[0] == '-'
  {
    hide *;
    RowStart(line, c);
    if line < SIGN {
      CellsReadBack(c);
      SpacedNumbers(Cells(c));
      ReadBack(line, "   " + Cells(c));
      NumbersFrom(Row(line, c));
    }
    SmallRowIs(line, c);
  }

  lemma SmallRowIs(line: int, c: Counts)
    ensures SmallRow(line, c) <==> line < SIGN && Small(c)
  {
  }

  /** What a row begins with. */
  lemma RowStart(line: int, c: Counts)
    requires 0 <= line < ULONG && Wide(c)
    ensures Row(line, c) == Signed(line) + ("   " + Cells(c)) && Row(line, c) != ""
    ensures !IsDigit(("   " + Cells(c))[0])
    ensures (IsDigit(Row(line, c)[0]) <==> line < SIGN) && (line >= SIGN ==> Row(line, c)[0] == '-')
  {
    assert Row(line, c) == Signed(line) + ("   " + Cells(c));
  }

  lemma SpacedNumbers(s: string)
    ensures Numbers("   " + s) == Numbers(s)
  {
    SkipOne(s);
    SkipOne(" " + s);
    SkipOne("  " + s);
    hide Numbers, ParseULong;
    assert " " + (" " + s) == "  " + s && " " + ("  " + s) == "   " + s;
  }

  lemma NumbersFrom(s: string)
    ensures var (o, rest) := ParseULong(s); o.Some? ==> Numbers(s) == ([o.value] + Numbers(rest).0, Numbers(rest).1)
  {
    hide ParseULong;
  }

  /** A line of small counts is added; one with a larger number is an error. */
  lemma RowParsed(n: nat, b: Body, line: int, c: Counts, tail: seq<string>)
    requires |b.summary| == n >= 1 && 0 <= line < ULONG && Wide(c) && |c| == n
    requires OuterOk(b.outer, n) && b.summary == Total(b.outer, n)
    ensures var r := ParseBody(n, b, [Row(line, c)] + tail);
      var outer := AddRow(b.outer, FileFn(b.fl, b.fn), line, c);
      if SmallRow(line, c) then r == ParseBody(n, b.(outer := outer, summary := Total(outer, n)), tail) else r.Err?
  {
    hide Numbers, Row, AddRow;
    RowNumbers(line, c);
    AddRowTotal(b.outer, FileFn(b.fl, b.fn), line, c, n);
    assert ([Row(line, c)] + tail)[1..] == tail;
    if SmallRow(line, c) {
      assert ([line] + c)[1..] == c;
    }
  }

  // ---------------------------------------------------------------- the lines of a function

  function Joined(pre: Outer, key: FileFn, m: Inner): Outer {
    if m == [] then pre else pre + [(key, m)]
  }

  lemma PutOne<K(!new), V>(cmp: (K, K) -> int, k: K, v: V, w: V)
    requires TotalOrder(cmp)
    ensures var e: seq<(K, V)> := []; Lookup(cmp, e, k) == None && Put(cmp, e, k, v) == [(k, v)]
    ensures Lookup(cmp, [(k, w)], k) == Some(w) && Put(cmp, [(k, w)], k, v) == [(k, v)]
  {
    assert cmp(k, k) == 0;
    hide TotalOrder;
    assert [(k, w)][1..] == [];
  }

  lemma PutLast<K(!new), V>(cmp: (K, K) -> int, m: seq<(K, V)>, k: K, v: V, w: V)
    requires TotalOrder(cmp) && forall i :: 0 <= i < |m| ==> cmp(m[i].0, k) < 0
    ensures Lookup(cmp, m, k) == None && Put(cmp, m, k, v) == m + [(k, v)]
    ensures Lookup(cmp, m + [(k, w)], k) == Some(w) && Put(cmp, m + [(k, w)], k, v) == m + [(k, v)]
  {
    hide *;
    PutOne(cmp, k, v, w);
    forall e | e in m ensures cmp(e.0, k) < 0 {
    }
    PassOver(cmp, m, [], k, v);
    PassOver(cmp, m, [(k, w)], k, v);
    assert m + [] == m;
  }

  /** A line after the last one of the last function is appended. */
  lemma AppendRow(pre: Outer, key: FileFn, done: Inner, line: int, c: Counts)
    requires forall i :: 0 <= i < |pre| ==> CmpFileFn(pre[i].0, key) < 0
    requires forall i :: 0 <= i < |done| ==> done[i].0 < line
    ensures AddRow(Joined(pre, key, done), key, line, c) == Joined(pre, key, done + [(line, c)])
  {
    FileFnOrder();
    LineOrder();
    PutLast(Compare, done, line, c, c);
    PutLast(CmpFileFn, pre, key, done + [(line, c)], done);
    assert [] + [(line, c)] == [(line, c)];
  }

  lemma {:induction false} InnerBody(n: nat, b: Body, pre: Outer, done: Inner, todo: Inner, tail: seq<string>)
    requires var key := FileFn(b.fl, b.fn);
      && (forall i :: 0 <= i < |pre| ==> CmpFileFn(pre[i].0, key) < 0)
      && b.outer == Joined(pre, key, done)
    requires n >= 1 && OuterOk(b.outer, n) && b.summary == Total(b.outer, n) && InnerOk(done + todo, n) && Fits(todo)
    ensures var r, outer := ParseBody(n, b, InnerLines(todo) + tail), Joined(pre, FileFn(b.fl, b.fn), done + todo);
      if SmallInner(todo) then r == ParseBody(n, b.(outer := outer, summary := Total(outer, n)), tail) else r.Err?
    decreases |todo|
  {
    if todo == [] {
      assert done + todo == done && InnerLines(todo) + tail == tail;
    } else {
      hide ParseBody, AddRow, Row, OuterOk, InnerOk, Total, SmallInner, InnerLines;
      var key, x, rest := FileFn(b.fl, b.fn), todo[0], InnerLines(todo[1..]) + tail;
      var done' := done + [x];
      NextLine(done, todo, n, tail);
      RowParsed(n, b, x.0, x.1, rest);
      AppendRow(pre, key, done, x.0, x.1);
      SmallParts(todo);
      if SmallRow(x.0, x.1) {
        AddRowTotal(b.outer, key, x.0, x.1, n);
        var outer := Joined(pre, key, done');
        InnerBody(n, b.(outer := outer, summary := Total(outer, n)), pre, done', todo[1..], tail);
      }
    }
  }

  lemma NextLine(done: Inner, todo: Inner, n: nat, tail: seq<string>)
    requires InnerOk(done + todo, n) && Fits(todo) && todo != []
    ensures Fits(todo[1..]) && |todo[0].1| == n && Wide(todo[0].1) && 0 <= todo[0].0 < ULONG
    ensures InnerLines(todo) + tail == [Row(todo[0].0, todo[0].1)] + (InnerLines(todo[1..]) + tail)
    ensures forall i :: 0 <= i < |done| ==> done[i].0 < todo[0].0
    ensures done + [todo[0]] + todo[1..] == done + todo
  {
    hide Row, Wide, InnerLines;
    var m := done + todo;
    FirstRow(todo, tail);
    assert m[|done|] == todo[0];
    forall i | 0 <= i < |done| ensures done[i].0 < todo[0].0 {
      assert m[i] == done[i];
    }
  }

  lemma FirstRow(todo: Inner, tail: seq<string>)
    requires Fits(todo) && todo != []
    ensures Fits(todo[1..]) && Wide(todo[0].1) && 0 <= todo[0].0 < ULONG
    ensures InnerLines(todo) + tail == [Row(todo[0].0, todo[0].1)] + (InnerLines(todo[1..]) + tail)
  {
    hide Row, Wide;
    Reassociate([Row(todo[0].0, todo[0].1)], InnerLines(todo[1..]), tail);
  }

  lemma SmallParts(m: Inner)
    requires m != []
    ensures SmallInner(m) <==> SmallRow(m[0].0, m[0].1) && SmallInner(m[1..])
  {
  }

  // ---------------------------------------------------------------- all lines

  predicate SmallOuter(m: Outer) { forall i :: 0 <= i < |m| ==> SmallInner(m[i].1) }

  /** The two lines that name the function. */
  lemma NamesParsed(n: nat, b: Body, key: FileFn, tail: seq<string>)
    requires |b.summary| == n
    ensures ParseBody(n, b, ["fl=" + key.file, "fn=" + key.fn] + tail) == ParseBody(n, b.(fl := key.file, fn := key.fn), tail)
  {
    var l1, l2 := "fl=" + key.file, "fn=" + key.fn;
    var lines := [l1, l2] + tail;
    assert l1[0] == 'f' && l1[1] == 'l' && l2[0] == 'f' && l2[1] == 'n';
    assert l1[3..] == key.file && l2[3..] == key.fn;
    assert lines[1..] == [l2] + tail && lines[1..][1..] == tail;
    assert Starts(l1, "fl=") && Starts(l2, "fn=") && !Starts(l1, "fn=") by { assert "fn="[1] == 'n'; }
    assert ParseBody(n, b, lines) == ParseBody(n, b.(fl := key.file), lines[1..]);
  }

  lemma Split(pre: Outer, todo: Outer, n: nat)
    requires OuterOk(pre + todo, n) && todo != []
    ensures OuterOk(pre, n) && InnerOk(todo[0].1, n) && todo[0].1 != [] && OuterOk(pre + [todo[0]], n)
    ensures forall i :: 0 <= i < |pre| ==> CmpFileFn(pre[i].0, todo[0].0) < 0
    ensures pre + [todo[0]] + todo[1..] == pre + todo
  {
    var m := pre + todo;
    assert forall i :: 0 <= i < |pre| ==> pre[i] == m[i];
    assert m[|pre|] == todo[0];
    assert forall i :: 0 <= i <= |pre| ==> (pre + [todo[0]])[i] == m[i];
  }

  lemma JoinedEnds(pre: Outer, key: FileFn, m: Inner)
    requires m != []
    ensures [] + m == m && Joined(pre, key, []) == pre && Joined(pre, key, m) == pre + [(key, m)]
  {
  }

  lemma {:induction false} OuterBody(n: nat, b: Body, pre: Outer, todo: Outer, tail: seq<string>) returns (b': Body)
    requires n >= 1 && b.outer == pre && OuterOk(pre + todo, n) && b.summary == Total(pre, n)
    requires OuterFits(todo)
    ensures b'.outer == pre + todo && b'.summary == Total(pre + todo, n)
    ensures var r := ParseBody(n, b, OuterLines(todo) + tail);
      if SmallOuter(todo) then r == ParseBody(n, b', tail) else r.Err?
    decreases |todo|
  {
    if todo == [] {
      assert pre + todo == pre && OuterLines(todo) + tail == tail;
      b' := b;
    } else {
      hide ParseBody, OuterOk, InnerOk, Total, SmallInner, OuterLines, InnerLines, Fits, OuterFits,
           SmallOuter, Joined;
      var key, m, rest := todo[0].0, todo[0].1, OuterLines(todo[1..]) + tail;
      SmallFunctions(todo);
      Split(pre, todo, n);
      NextFunction(todo, tail);
      NamesParsed(n, b, key, InnerLines(m) + rest);
      var b1 := b.(fl := key.file, fn := key.fn);
      JoinedEnds(pre, key, m);
      InnerBody(n, b1, pre, [], m, rest);
      var outer := pre + [todo[0]];
      assert FileFn(b1.fl, b1.fn) == key;
      b' := OuterBody(n, b1.(outer := outer, summary := Total(outer, n)), outer, todo[1..], tail);
    }
  }

  lemma NextFunction(todo: Outer, tail: seq<string>)
    requires todo != [] && OuterFits(todo)
    ensures var key, rest := todo[0].0, OuterLines(todo[1..]) + tail;
      OuterLines(todo) + tail == ["fl=" + key.file, "fn=" + key.fn] + (InnerLines(todo[0].1) + rest)
  {
    hide InnerLines, Fits;
    var names, lines := ["fl=" + todo[0].0.file, "fn=" + todo[0].0.fn], InnerLines(todo[0].1);
    Reassociate(names + lines, OuterLines(todo[1..]), tail);
    Reassociate(names, lines, OuterLines(todo[1..]) + tail);
  }

  lemma SmallFunctions(m: Outer)
    requires m != []
    ensures SmallOuter(m) <==> SmallInner(m[0].1) && SmallOuter(m[1..])
    ensures OuterFits(m) <==> Fits(m[0].1) && OuterFits(m[1..])
  {
  }

  lemma Reassociate<T>(a: seq<T>, b: seq<T>, c: seq<T>)
    ensures a + b + c == a + (b + c)
  {
  }

  // ---------------------------------------------------------------- the whole file

  lemma SummaryParsed(n: nat, b: Body)
    requires n >= 1 && |b.summary| == n && Wide(b.summary)
    ensures var line := "summary:" + SummaryCells(b.summary);
      && ParseBody(n, b, [line]) == Ok((b, [line])) && |line| >= 8
      && CheckSummary(n, b.summary, [line]) == if Small(b.summary) then Ok(()) else Err(Garbage)
  {
    var cells := SummaryCells(b.summary);
    var line := "summary:" + cells;
    SummaryReadBack(b.summary);
    assert cells[0] == ' ';
    assert line[..9] == "summary: ";
    assert line[8..] == cells;
    assert line[0] == 's';
    NotName(line);
  }

  lemma NotName(line: string)
    requires line != "" && line[0] == 's'
    ensures !Starts(line, "fn=") && !Starts(line, "fl=")
  {
    assert "fn="[0] == 'f' && "fl="[0] == 'f';
  }

  lemma {:induction false} DescCountOf(descs: seq<string>, tail: seq<string>)
    requires forall i :: 0 <= i < |descs| ==> Starts(descs[i], "desc: ")
    requires tail != [] && !Starts(tail[0], "desc: ")
    ensures DescCount(descs + tail) == |descs|
  {
    if descs == [] {
      assert descs + tail == tail;
    } else {
      assert (descs + tail)[1..] == descs[1..] + tail;
      DescCountOf(descs[1..], tail);
    }
  }

  lemma AllFit(p: Profile)
    requires ProfileOk(p)
    ensures OuterFits(p.outer) && Wide(p.summary)
  {
    SumWide(p.outer, InnerTotal(p.nEvents), p.nEvents);
    forall i | 0 <= i < |p.outer| ensures Fits(p.outer[i].1) {
      assert InnerOk(p.outer[i].1, p.nEvents);
    }
  }

  lemma HeadParsed(p: Profile, tail: seq<string>)
    requires ProfileOk(p) && tail != []
    ensures var lines := p.descLines + [p.cmdLine, p.eventsLine] + tail;
      var k := |p.descLines|;
      && DescCount(lines) == k && |lines| > k + 2 && lines[..k] == p.descLines
      && lines[k] == p.cmdLine && lines[k + 1] == p.eventsLine && lines[k + 2..] == tail
  {
    var lines := p.descLines + [p.cmdLine, p.eventsLine] + tail;
    assert p.cmdLine[0] == 'c' by { assert "cmd: "[0] == 'c'; }
    assert "desc: "[0] == 'd';
    DescCountOf(p.descLines, [p.cmdLine, p.eventsLine] + tail);
    assert lines == p.descLines + ([p.cmdLine, p.eventsLine] + tail);
  }

  /** Without events, neither a line of counts nor the summary line is accepted. */
  lemma NoEventsUnreadable(b: Body, m: Outer)
    requires OuterOk(m, 0) && OuterFits(m) && b.summary == []
    ensures ParseBody(0, b, OuterLines(m) + ["summary:" + SummaryCells([])]).Err?
  {
    var line := "summary:" + SummaryCells([]);
    if m == [] {
      assert OuterLines(m) + [line] == [line] && line == "summary:";
      hide SummaryCells, Row, InnerLines, OuterLines;
      NotName(line);
    } else {
      hide SummaryCells, ParseBody, OuterLines, InnerLines;
      var key, rest := m[0].0, OuterLines(m[1..]) + [line];
      NextFunction(m, [line]);
      NamesParsed(0, b, key, InnerLines(m[0].1) + rest);
      assert InnerOk(m[0].1, 0);
      EmptyRowsRejected(b.(fl := key.file, fn := key.fn), m[0].1, rest);
    }
  }

  lemma EmptyRowsRejected(b: Body, m: Inner, more: seq<string>)
    requires m != [] && InnerOk(m, 0) && Fits(m) && b.summary == []
    ensures ParseBody(0, b, InnerLines(m) + more).Err?
  {
    var rows := InnerLines(m[1..]);
    assert InnerLines(m) == [Row(m[0].0, [])] + rows;
    hide InnerLines, ParseBody;
    EmptyRowRejected(b, m[0].0, rows + more);
    Reassociate([Row(m[0].0, [])], rows, more);
  }

  /** A line number alone is not a line of counts. */
  lemma EmptyRowRejected(b: Body, n: int, more: seq<string>)
    requires 0 <= n < ULONG && b.summary == []
    ensures ParseBody(0, b, [Row(n, [])] + more).Err?
  {
    RowNumbers(n, []);
    hide Row;
    var lines := [Row(n, [])] + more;
    assert lines[0] == Row(n, []);
    if n < SIGN {
      assert HandleCounts(0, b, lines[0]).Err?;
    } else {
      assert "fn="[0] == 'f' && "fl="[0] == 'f' && "summary: "[0] == 's';
    }
  }

  /** Reading what was written gives the profile back if there is an event and all numbers are below
      2^63, and an error if not. */
  lemma RoundTrip(p: Profile)
    requires ProfileOk(p)
    ensures OuterFits(p.outer) && Wide(p.summary)
    ensures if p.nEvents >= 1 && SmallProfile(p) then Parse(Render(p)) == Ok(p) else Parse(Render(p)).Err?
  {
    hide ParseBody, CheckSummary, DescCount, OuterLines;
    AllFit(p);
    var n, line := p.nEvents, "summary:" + SummaryCells(p.summary);
    var tail := OuterLines(p.outer) + [line];
    HeadParsed(p, tail);
    assert Render(p) == p.descLines + [p.cmdLine, p.eventsLine] + tail;
    var b := Body("???", "???", [], Zeroed(n));
    if n == 0 {
      NoEventsUnreadable(b, p.outer);
    } else {
      assert [] + p.outer == p.outer;
      var b' := OuterBody(n, b, [], p.outer, [line]);
      assert SmallProfile(p) <==> Small(p.summary) && SmallOuter(p.outer);
      if SmallOuter(p.outer) {
        SummaryParsed(n, b');
      }
    }
  }

  // ---------------------------------------------------------------- as text

  ghost predicate NamesOk(p: Profile) {
    && NoNewlines(p.descLines) && '\n' !in p.cmdLine && '\n' !in p.eventsLine
    && forall i :: 0 <= i < |p.outer| ==> '\n' !in p.outer[i].0.file && '\n' !in p.outer[i].0.fn
  }

  lemma {:induction false} NoNewlineInCells(ns: seq<nat>)
    requires Wide(ns)
    ensures '\n' !in Cells(ns) && '\n' !in SummaryCells(ns)
  {
    if ns != [] {
      NoNewlineInCells(ns[1..]);
      assert '\n' !in Signed(ns[0]);
    }
  }

  lemma {:induction false} NoNewlineInRows(m: Inner)
    requires Fits(m)
    ensures NoNewlines(InnerLines(m))
  {
    if m != [] {
      NoNewlineInCells(m[0].1);
      assert '\n' !in Signed(m[0].0) && '\n' !in Row(m[0].0, m[0].1);
      NoNewlineInRows(m[1..]);
    }
  }

  lemma {:induction false} NoNewlineInBody(m: Outer)
    requires forall i :: 0 <= i < |m| ==> Fits(m[i].1) && '\n' !in m[i].0.file && '\n' !in m[i].0.fn
    ensures NoNewlines(OuterLines(m))
  {
    if m != [] {
      NoNewlineInRows(m[0].1);
      NoNewlineInBody(m[1..]);
      assert '\n' !in "fl=" + m[0].0.file && '\n' !in "fn=" + m[0].0.fn;
    }
  }

  lemma NoNewlineInRender(p: Profile)
    requires NamesOk(p) && OuterFits(p.outer) && Wide(p.summary)
    ensures NoNewlines(Render(p)) && Render(p) != []
  {
    hide OuterLines, SummaryCells;
    NoNewlineInBody(p.outer);
    NoNewlineInCells(p.summary);
  }

  /** The same for the text of a file, whose names have no newlines in them. */
  lemma TextRoundTrip(p: Profile)
    requires ProfileOk(p) && NamesOk(p)
    ensures OuterFits(p.outer) && Wide(p.summary)
    ensures var r := Parse(Lines(Text(Render(p)))); if p.nEvents >= 1 && SmallProfile(p) then r == Ok(p) else r.Err?
  {
    hide *;
    RoundTrip(p);
    NoNewlineInRender(p);
    LinesOfText(Render(p));
  }

  /** What merging two files that were read writes is read again, and passes the check of the summary,
      unless a number in it has reached 2^63. */
  lemma MergedIsReadable(a: seq<string>, b: seq<string>)
    requires Parse(a).Ok? && Parse(b).Ok?
    requires Merge(Parse(a).value, Parse(b).value).Ok?
    ensures var m := Merge(Parse(a).value, Parse(b).value).value;
      && OuterFits(m.outer) && Wide(m.summary)
      && (if m.nEvents >= 1 && SmallProfile(m) then Parse(Render(m)) == Ok(m) else Parse(Render(m)).Err?)
  {
    hide Parse;
    ParsedIsOk(a);
    ParsedIsOk(b);
    MergeKeepsOk(Parse(a).value, Parse(b).value);
    RoundTrip(Merge(Parse(a).value, Parse(b).value).value);
  }
}
