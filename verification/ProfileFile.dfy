/**
 Reading, writing and merging profiles (`cg_merge.c`) on the heap: the maps are WordFMs of
 WordFMs of blocks of counts, changed in place, and are proved to hold what `ProfileModel`
 says.
*/
module ProfileFile {
  import opened Common
  import opened AvlTree
  import opened AvlMap
  import opened ProfileText
  import opened ProfileModel
  import opened ProfileSums
  import opened WordFmApi
  import opened ProfileLines
  import opened ProfileFiles
  import Iter = WordFmIter

  /** `parse_ULong`, from position `ptr` on. */
  method ReadULong(s: string, ptr: nat) returns (ok: bool, res: nat, end: nat)
    requires ptr <= |s|
    ensures ptr <= end <= |s| && (ok ==> end > ptr)
    ensures ParseULong(s[ptr..]) == (if ok then Some(res) else None, s[end..])
  {
    end := ptr;
    while end < |s| && IsSpace(s[end])
      invariant ptr <= end <= |s| && SkipSpaces(s[ptr..]) == SkipSpaces(s[end..])
    {
      assert s[end..][1..] == s[end + 1..];
      end := end + 1;
    }
    ok, res := false, 0;
    if end == |s| || !IsDigit(s[end]) {
      return;
    }
    ok := true;
    ghost var first := end;
    res := ValueOf(s[end]);
    end := end + 1;
    assert s[first..][1..] == s[end..];
    while end < |s| && IsDigit(s[end])
      invariant first < end <= |s|
      invariant TakeDigits(ValueOf(s[first]), s[first + 1..]) == TakeDigits(res, s[end..])
    {
      assert s[end..][1..] == s[end + 1..];
      res := (res * 10 + ValueOf(s[end])) % ULONG;
      end := end + 1;
    }
  }

  /** `splitUpCountsLine` */
  method SplitUpCountsLine(s: string, atLeast: nat) returns (r: Result<seq<nat>, ParseError>)
    ensures r == SplitCounts(s, atLeast)
  {
    var counts, ptr := [], 0;
    assert s[0..] == s && [] + Numbers(s).0 == Numbers(s).0;
    var ok, n, end := ReadULong(s, 0);
    while ok
      invariant ptr <= end <= |s| && (ok ==> end > ptr)
      invariant ParseULong(s[ptr..]) == (if ok then Some(n) else None, s[end..])
      invariant Numbers(s) == (counts + Numbers(s[ptr..]).0, Numbers(s[ptr..]).1)
      decreases |s| - ptr, ok
    {
      assert counts + ([n] + Numbers(s[end..]).0) == counts + [n] + Numbers(s[end..]).0;
      counts := counts + [n];
      ptr := end;
      ok, n, end := ReadULong(s, ptr);
    }
    assert counts + [] == counts;
    if end != |s| {
      return Err(Garbage);
    }
    if |counts| < atLeast {
      return Err(TooFewCounts);
    }
    return Ok(counts);
  }

  /** `new_Counts` */
  method NewCounts(counts: seq<nat>) returns (cts: Block)
    ensures fresh(cts) && cts[..] == counts
  {
    cts := new nat[|counts|](i requires 0 <= i < |counts| => counts[i]);
  }

  class CacheProfFile {
    const descLines: seq<string>
    const cmdLine: string
    const eventsLine: string
    const nEvents: nat
    const outerMap: FileMap
    const summary: Block

    /** All objects of the profile. */
    ghost function Repr(): set<object>
      reads outerMap`tree, Maps(outerMap.Contents())`tree
    {
      AllCells(outerMap) + {summary}
    }

    ghost predicate Valid()
      reads outerMap, Maps(outerMap.Contents()), Repr()
    {
      FilesOk(outerMap, nEvents) && summary.Length == nEvents && summary !in AllCells(outerMap)
    }

    ghost function Contents(): Profile
      reads outerMap, Maps(outerMap.Contents()), Repr()
    {
      Profile(descLines, cmdLine, eventsLine, nEvents, Files(outerMap), summary[..])
    }

    constructor (descLines: seq<string>, cmdLine: string, eventsLine: string, nEvents: nat)
      ensures Valid() && Contents() == Profile(descLines, cmdLine, eventsLine, nEvents, [], Zeroed(nEvents))
      ensures this.nEvents == nEvents && fresh(Repr())
    {
      this.descLines, this.cmdLine, this.eventsLine, this.nEvents := descLines, cmdLine, eventsLine, nEvents;
      hide FilesOk, Files, AllCells, Inside, FileValues;
      var summary := new nat[nEvents](_ => 0);
      var outerMap := NewFileMap(nEvents);
      assert allocated(AllCells(outerMap)) && allocated(Maps(outerMap.Contents()));
      this.summary, this.outerMap := summary, outerMap;
    }

    /** No map is too deep for the stack of its iterator. */
    ghost predicate Iterable()
      reads outerMap`tree, Maps(outerMap.Contents())`tree
    {
      Iter.LeftDepth(outerMap.tree) <= Iter.STACK_MAX && Shallow(outerMap.Contents())
    }

    /** The next line of the body. */
    lemma BodyStep(n: nat, b: Body, lines: seq<string>)
      requires |b.summary| == n
      ensures lines == [] ==> ParseBody(n, b, lines) == Err(EofBeforeSummary)
      ensures lines != [] && lines[0] != "" && IsDigit(lines[0][0]) ==>
        var r := ProfileModel.HandleCounts(n, b, lines[0]);
        ParseBody(n, b, lines) == if r.Err? then Err(r.error) else ParseBody(n, r.value, lines[1..])
      ensures lines != [] && !(lines[0] != "" && IsDigit(lines[0][0])) ==>
        var line := lines[0];
        ParseBody(n, b, lines) ==
          if Starts(line, "fn=") then ParseBody(n, b.(fn := line[3..]), lines[1..])
          else if Starts(line, "fl=") then ParseBody(n, b.(fl := line[3..]), lines[1..])
          else if Starts(line, "summary: ") then Ok((b, lines))
          else Err(UnexpectedLine)
    {
      hide ProfileModel.HandleCounts, Starts;
    }

    lemma SummaryLength()
      requires Valid()
      ensures summary.Length == nEvents
    {
    }

    lemma ReprParts()
      ensures Repr() == AllCells(outerMap) + {summary}
      ensures Valid() <==> FilesOk(outerMap, nEvents) && summary.Length == nEvents && summary !in AllCells(outerMap)
      ensures Contents() == Profile(descLines, cmdLine, eventsLine, nEvents, Files(outerMap), summary[..])
      ensures Iterable() <==> Iter.LeftDepth(outerMap.tree) <= Iter.STACK_MAX && Shallow(outerMap.Contents())
    {
    }

    /** The second half of `handle_counts`. */
    method AddCountsOf(topKey: FileFn, lnno: int, newCounts: Block)
      requires Valid() && newCounts.Length == nEvents && newCounts !in Repr()
      modifies Repr()
      ensures Valid() && forall o :: o in Repr() ==> o in old(Repr()) || o == newCounts || fresh(o)
      ensures Files(outerMap) == AddRow(old(Files(outerMap)), topKey, lnno, old(newCounts[..]))
      ensures summary[..] == Add(old(summary[..]), old(newCounts[..]))
    {
      hide *;
      ReprParts();
      Parts(outerMap);
      assert allocated(Repr()) && allocated(Maps(outerMap.Contents()));
      var freeNewCounts := AddRowTo(outerMap, topKey, lnno, newCounts, nEvents);
      Parts(outerMap);
      assert summary !in AllCells(outerMap);
      assert allocated(AllCells(outerMap)) && allocated(Maps(outerMap.Contents())) && allocated(Inside(outerMap.Contents()));
      ghost var fs := Files(outerMap);
      AddCounts(summary, newCounts);
      assert Files(outerMap) == fs;
      ReprParts();
    }

    /** `handle_counts` */
    method HandleCounts(fi: string, fn: string, line: string) returns (error: Option<ParseError>)
      requires Valid()
      modifies Repr()
      ensures Valid() && forall o :: o in Repr() ==> o in old(Repr()) || fresh(o)
      ensures var r := ProfileModel.HandleCounts(nEvents, Body(fi, fn, old(Files(outerMap)), old(summary[..])), line);
        match r
        case Err(e) => error == Some(e)
        case Ok(b) => error == None && Files(outerMap) == b.outer && summary[..] == b.summary
    {
      hide Valid, Repr, Files, AllCells, AddRow, SplitCounts;
      SummaryLength();
      assert allocated(Repr()) && allocated(Maps(outerMap.Contents())) && allocated(AllCells(outerMap));
      var counts := SplitUpCountsLine(line, 2);
      if counts.Err? {
        return Some(counts.error);
      }
      if |counts.value| - 1 != nEvents {
        return Some(WrongCounts);
      }
      var newCounts := NewCounts(counts.value[1..]);
      AddCountsOf(FileFn(fi, fn), counts.value[0], newCounts);
      return None;
    }

    /** Reads the lines up to the summary; `i` is where that is. */
    method ReadBody(lines: seq<string>, first: nat) returns (error: Option<ParseError>, i: nat)
      requires first <= |lines| && Valid()
      modifies Repr()
      ensures Valid() && forall o :: o in Repr() ==> o in old(Repr()) || fresh(o)
      ensures var r := ParseBody(nEvents, Body("???", "???", old(Files(outerMap)), old(summary[..])), lines[first..]);
        match r
        case Err(e) => error == Some(e)
        case Ok((b, rest)) =>
          error == None && i <= |lines| && rest == lines[i..] && Files(outerMap) == b.outer && summary[..] == b.summary
    {
      hide Valid, Repr, Files, ParseBody;
      SummaryLength();
      var currFl, currFn := "???", "???";
      ghost var r := ParseBody(nEvents, Body("???", "???", Files(outerMap), summary[..]), lines[first..]);
      i := first;
      while i < |lines| && !(Starts(lines[i], "summary: ") && !IsDigit(lines[i][0]) && !Starts(lines[i], "fn=")
                             && !Starts(lines[i], "fl="))
        invariant i <= |lines| && Valid() && forall o :: o in Repr() ==> o in old(Repr()) || fresh(o)
        invariant ParseBody(nEvents, Body(currFl, currFn, Files(outerMap), summary[..]), lines[i..]) == r
      {
        var line := lines[i];
        assert lines[i..][1..] == lines[i + 1..];
        BodyStep(nEvents, Body(currFl, currFn, Files(outerMap), summary[..]), lines[i..]);
        if line != "" && IsDigit(line[0]) {
          error := HandleCounts(currFl, currFn, line);
          if error.Some? {
            return;
          }
        } else if Starts(line, "fn=") {
          currFn := line[3..];
        } else if Starts(line, "fl=") {
          currFl := line[3..];
        } else {
          return Some(UnexpectedLine), i;
        }
        i := i + 1;
      }
      BodyStep(nEvents, Body(currFl, currFn, Files(outerMap), summary[..]), lines[i..]);
      error := if i == |lines| then Some(EofBeforeSummary) else None;
    }

    /** The comparison of the counts read with those summed up. */
    method CheckSummary(lines: seq<string>, i: nat) returns (error: Option<ParseError>)
      requires i < |lines| && |lines[i]| >= 8 && summary.Length == nEvents
      ensures match ProfileModel.CheckSummary(nEvents, summary[..], lines[i..])
        case Err(e) => error == Some(e)
        case Ok(_) => error == None
    {
      if |lines| > i + 1 {
        return Some(ExtraContent);
      }
      var summaryRead := SplitUpCountsLine(lines[i][8..], 1);
      if summaryRead.Err? {
        return Some(summaryRead.error);
      }
      if |summaryRead.value| != nEvents {
        return Some(WrongSummaryCounts);
      }
      var j := 0;
      while j < nEvents
        invariant j <= nEvents && forall k :: 0 <= k < j ==> summaryRead.value[k] == summary[k]
      {
        if summaryRead.value[j] != summary[j] {
          return Some(SummaryMismatch);
        }
        j := j + 1;
      }
      return None;
    }

    /** Reads the counts and compares their sum with the summary. */
    method ReadCounts(lines: seq<string>, first: nat) returns (error: Option<ParseError>)
      requires first <= |lines| && Valid()
      modifies Repr()
      ensures Valid() && forall o :: o in Repr() ==> o in old(Repr()) || fresh(o)
      ensures |old(summary[..])| == nEvents
      ensures var r := ParseBody(nEvents, Body("???", "???", old(Files(outerMap)), old(summary[..])), lines[first..]);
        match r
        case Err(e) => error == Some(e)
        case Ok((b, rest)) =>
          match ProfileModel.CheckSummary(nEvents, b.summary, rest)
          case Err(e) => error == Some(e)
          case Ok(_) => error == None && Files(outerMap) == b.outer && summary[..] == b.summary
    {
      hide Valid, Repr, Files, AllCells, Inside, ParseBody, ProfileModel.CheckSummary;
      SummaryLength();
      var i;
      error, i := ReadBody(lines, first);
      assert allocated(Repr()) && allocated(Maps(outerMap.Contents())) && allocated(AllCells(outerMap));
      if error == None {
        error := CheckSummary(lines, i);
      }
    }
  }

  method CountDescLines(lines: seq<string>) returns (k: nat)
    ensures k == DescCount(lines)
  {
    k := 0;
    assert lines[0..] == lines;
    while k < |lines| && Starts(lines[k], "desc: ")
      invariant k <= |lines| && DescCount(lines) == k + DescCount(lines[k..])
    {
      assert lines[k..][1..] == lines[k + 1..];
      k := k + 1;
    }
  }

  method CountEventsIn(line: string) returns (n: nat)
    requires |line| >= 6
    ensures n == CountEvents(line[6..])
  {
    n := 0;
    var p := 6;
    while p + 1 < |line|
      invariant 6 <= p <= |line| && n + CountEvents(line[p..]) == CountEvents(line[6..])
    {
      assert line[p..][1..] == line[p + 1..];
      if line[p] == ' ' && IsAlpha(line[p + 1]) {
        n := n + 1;
      }
      p := p + 1;
    }
  }

  /** `parse_CacheProfFile` */
  method ReadFile(lines: seq<string>) returns (error: Option<ParseError>, cpf: CacheProfFile?)
    ensures match Parse(lines)
      case Err(e) => error == Some(e)
      case Ok(p) => error == None && cpf != null && cpf.Valid() && cpf.Contents() == p && fresh(cpf.Repr())
  {
    hide ParseBody, ProfileModel.CheckSummary, CacheProfFile.Valid, CacheProfFile.Repr, Files, AllCells, Inside;
    cpf := null;
    var k := CountDescLines(lines);
    if k == 0 {
      return Some(NoDesc), null;
    }
    if k == |lines| || !Starts(lines[k], "cmd: ") {
      return Some(NoCmd), null;
    }
    if k + 1 == |lines| {
      return Some(EofBeforeEvents), null;
    }
    if !Starts(lines[k + 1], "events: ") {
      return Some(NoEvents), null;
    }
    var n := CountEventsIn(lines[k + 1]);
    cpf := new CacheProfFile(lines[..k], lines[k], lines[k + 1], n);
    error := cpf.ReadCounts(lines, k + 2);
  }

  /** `show_CacheProfFile` */
  method Show(cpf: CacheProfFile) returns (out: seq<string>)
    requires cpf.Valid() && OuterFits(Files(cpf.outerMap)) && Wide(cpf.summary[..]) && cpf.Iterable()
    modifies cpf.outerMap`stackTop, cpf.outerMap`frames, cpf.outerMap.nodeStack, cpf.outerMap.numStack
    modifies Maps(cpf.outerMap.Contents())`stackTop, Maps(cpf.outerMap.Contents())`frames, Stacks(cpf.outerMap.Contents())
    ensures cpf.Valid() && cpf.Contents() == old(cpf.Contents()) && out == Render(cpf.Contents())
  {
    hide *;
    cpf.ReprParts();
    Parts(cpf.outerMap);
    out := cpf.descLines + [cpf.cmdLine, cpf.eventsLine];
    ghost var s := cpf.outerMap.Contents();
    assert allocated(AllCells(cpf.outerMap)) && allocated(Maps(s));
    assert cpf.outerMap in Top(cpf.outerMap);
    var shown := ShowMaps(cpf.outerMap, cpf.nEvents);
    cpf.ReprParts();
    out := out + shown + ["summary:" + SummaryCells(cpf.summary[..])];
    Rendered(cpf.Contents());
  }

  lemma Rendered(p: Profile)
    requires OuterFits(p.outer) && Wide(p.summary)
    ensures Render(p) == p.descLines + [p.cmdLine, p.eventsLine] + OuterLines(p.outer) + ["summary:" + SummaryCells(p.summary)]
  {
  }

  /** `merge_CacheProfInfo`.  The two profiles stay apart, and of the source only the iterators are touched. */
  method MergeInto(dst: CacheProfFile, src: CacheProfFile) returns (error: Option<ParseError>)
    requires dst.Valid() && src.Valid() && dst.Repr() !! src.Repr() && src.Iterable()
    modifies dst.Repr(), src.outerMap`stackTop, src.outerMap`frames, src.outerMap.nodeStack, src.outerMap.numStack
    modifies Maps(src.outerMap.Contents())`stackTop, Maps(src.outerMap.Contents())`frames, Stacks(src.outerMap.Contents())
    ensures match Merge(old(dst.Contents()), old(src.Contents()))
      case Err(e) => error == Some(e) && dst.Contents() == old(dst.Contents())
      case Ok(p) => error == None && dst.Contents() == p
    ensures dst.Valid() && src.Valid() && src.Contents() == old(src.Contents())
    ensures dst.Repr() !! src.Repr() && src.Repr() == old(src.Repr())
    ensures forall o :: o in dst.Repr() ==> o in old(dst.Repr()) || fresh(o)
  {
    hide *;
    dst.ReprParts();
    src.ReprParts();
    Parts(dst.outerMap);
    Parts(src.outerMap);
    MergeCases(dst.Contents(), src.Contents());
    if dst.eventsLine != src.eventsLine {
      return Some(EventsDiffer);
    }
    if dst.summary.Length != src.summary.Length {
      return Some(InconsistentCounts);
    }
    MergeOuterMaps(dst, src);
    AddSummary(dst, src);
    return None;
  }

  /** The first half: the counts of each line. */
  method MergeOuterMaps(dst: CacheProfFile, src: CacheProfFile)
    requires dst.Valid() && src.Valid() && dst.Repr() !! src.Repr() && src.Iterable() && dst.nEvents == src.nEvents
    modifies AllCells(dst.outerMap), src.outerMap`stackTop, src.outerMap`frames, src.outerMap.nodeStack, src.outerMap.numStack
    modifies Maps(src.outerMap.Contents())`stackTop, Maps(src.outerMap.Contents())`frames, Stacks(src.outerMap.Contents())
    ensures dst.Contents()
         == old(dst.Contents()).(outer := MergeOuter(old(dst.Contents()).outer, old(src.Contents()).outer))
    ensures dst.Valid() && src.Valid() && src.Contents() == old(src.Contents())
    ensures dst.Repr() !! src.Repr() && src.Repr() == old(src.Repr())
    ensures forall o :: o in dst.Repr() ==> o in old(dst.Repr()) || fresh(o)
  {
    hide *;
    dst.ReprParts();
    src.ReprParts();
    Parts(src.outerMap);
    assert allocated(dst.Repr()) && allocated(src.Repr()) && allocated(Maps(src.outerMap.Contents()));
    MergeMaps(dst.outerMap, src.outerMap, dst.nEvents);
    dst.ReprParts();
    src.ReprParts();
  }

  /** The second half: the summary. */
  method AddSummary(dst: CacheProfFile, src: CacheProfFile)
    requires dst.Valid() && src.Valid() && dst.Repr() !! src.Repr() && dst.summary.Length == src.summary.Length
    modifies dst.summary
    ensures dst.Contents() == old(dst.Contents()).(summary := Add(old(dst.Contents()).summary, old(src.Contents()).summary))
    ensures dst.Valid() && src.Valid() && src.Contents() == old(src.Contents())
    ensures dst.Repr() == old(dst.Repr()) && src.Repr() == old(src.Repr())
  {
    hide *;
    dst.ReprParts();
    src.ReprParts();
    Parts(dst.outerMap);
    Parts(src.outerMap);
    assert allocated(AllCells(dst.outerMap)) && allocated(AllCells(src.outerMap));
    assert allocated(Maps(dst.outerMap.Contents())) && allocated(Maps(src.outerMap.Contents()));
    AddCounts(dst.summary, src.summary);
    dst.ReprParts();
    src.ReprParts();
  }

  lemma MergeCases(d: Profile, s: Profile)
    ensures d.eventsLine != s.eventsLine ==> Merge(d, s) == Err(EventsDiffer)
    ensures d.eventsLine == s.eventsLine && |d.summary| != |s.summary| ==> Merge(d, s) == Err(InconsistentCounts)
    ensures d.eventsLine == s.eventsLine && |d.summary| == |s.summary| ==>
      Merge(d, s) == Ok(d.(outer := MergeOuter(d.outer, s.outer), summary := Add(d.summary, s.summary)))
  {
  }

  /** Counts added to the merged profile later, in place, do not show in the profile that was merged into it. */
  method CountAfterMerge(dst: CacheProfFile, src: CacheProfFile, fi: string, fn: string, line: string)
      returns (error: Option<ParseError>)
    requires dst.Valid() && src.Valid() && dst.Repr() !! src.Repr() && src.Iterable()
    modifies dst.Repr(), src.outerMap`stackTop, src.outerMap`frames, src.outerMap.nodeStack, src.outerMap.numStack
    modifies Maps(src.outerMap.Contents())`stackTop, Maps(src.outerMap.Contents())`frames, Stacks(src.outerMap.Contents())
    ensures dst.Valid() && src.Valid() && dst.Repr() !! src.Repr() && src.Contents() == old(src.Contents())
    ensures match Merge(old(dst.Contents()), old(src.Contents()))
      case Err(e) => error == Some(e)
      case Ok(p) =>
        match ProfileModel.HandleCounts(p.nEvents, Body(fi, fn, p.outer, p.summary), line)
        case Err(e) => error == Some(e)
        case Ok(b) => error == None && dst.Contents() == p.(outer := b.outer, summary := b.summary)
  {
    hide *;
    MergeCases(dst.Contents(), src.Contents());
    error := MergeInto(dst, src);
    dst.ReprParts();
    src.ReprParts();
    Parts(src.outerMap);
    assert allocated(dst.Repr()) && allocated(src.Repr()) && allocated(Maps(src.outerMap.Contents()));
    if error == None {
      error := dst.HandleCounts(fi, fn, line);
      dst.ReprParts();
    }
  }

  // ---------------------------------------------------------------- how large a profile may be

  ghost predicate FewLines(m: Outer) {
    |m| < Iter.ITER_LIMIT && forall i :: 0 <= i < |m| ==> |m[i].1| < Iter.ITER_LIMIT
  }

  lemma SmallLines(m: LineMap, n: nat)
    requires LinesOk(m, n) && |LinesOf(m)| < Iter.ITER_LIMIT
    ensures Iter.LeftDepth(m.tree) <= Iter.STACK_MAX
  {
    HeldFacts(m, n);
    Iter.SmallFits(m.tree);
  }

  /** Profiles with fewer than 9227464 functions, and fewer than that many lines in each, can be iterated over. */
  lemma SmallIsIterable(cpf: CacheProfFile)
    requires cpf.Valid() && FewLines(cpf.Contents().outer)
    ensures cpf.Iterable()
  {
    hide LinesOk, LinesOf, Iter.LeftDepth;
    var m, n := cpf.outerMap, cpf.nEvents;
    FilesFacts(m, n);
    Iter.SmallFits(m.tree);
    var s := m.Contents();
    forall e | e in s ensures Iter.LeftDepth(e.1.tree) <= Iter.STACK_MAX {
      var i :| 0 <= i < |s| && s[i] == e;
      assert Files(m)[i].1 == LinesOf(e.1);
      SmallLines(e.1, n);
    }
  }
}
