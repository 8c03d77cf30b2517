/**
 Cachegrind profiles (`cg_merge.c`): what is in an output file, how it is read, written and
 merged.  A profile keeps its counts in a WordFM of WordFMs, which here are the sorted
 lists of bindings that `AvlMap` shows a WordFM to be; `ProfileFile` has them on the heap.
*/
module ProfileModel {
  import opened Common
  import opened AvlTree
  import opened AvlMap
  import opened ProfileText

  type Counts = seq<nat>

  datatype FileFn = FileFn(file: string, fn: string)

  type Inner = seq<(int, Counts)>           // by line number

  type Outer = seq<(FileFn, Inner)>

  datatype Profile = Profile(descLines: seq<string>, cmdLine: string, eventsLine: string, nEvents: nat,
                             outer: Outer, summary: Counts)

  datatype ParseError =
    | NoDesc | NoCmd | EofBeforeEvents | NoEvents | EofBeforeSummary | UnexpectedLine | Garbage | TooFewCounts
    | WrongCounts | ExtraContent | WrongSummaryCounts | SummaryMismatch | EventsDiffer | InconsistentCounts

  // ---------------------------------------------------------------- keys

  function Compare(a: int, b: int): int { if a < b then -1 else if a > b then 1 else 0 }

  /** `strcmp` */
  function StrCmp(a: string, b: string): int {
    if a == "" then (if b == "" then 0 else -1)
    else if b == "" then 1
    else if a[0] != b[0] then Compare(a[0] as nat, b[0] as nat)
    else StrCmp(a[1..], b[1..])
  }

  function CmpFileFn(a: FileFn, b: FileFn): int {
    if StrCmp(a.file, b.file) == 0 then StrCmp(a.fn, b.fn) else StrCmp(a.file, b.file)
  }

  // ---------------------------------------------------------------- counts

  function Zeroed(n: nat): Counts { seq(n, _ => 0) }

  function Add(a: Counts, b: Counts): (r: Counts)
    requires |a| == |b|
    ensures |r| == |a| && forall i :: 0 <= i < |a| ==> r[i] == (a[i] + b[i]) % ULONG
  {
    seq(|a|, i requires 0 <= i < |a| => (a[i] + b[i]) % ULONG)
  }

  /** Every vector of counts has one for each event. */
  ghost predicate InnerOk(m: Inner, n: nat) {
    Sorted(Compare, m) && forall i :: 0 <= i < |m| ==> |m[i].1| == n && Wide(m[i].1) && 0 <= m[i].0 < ULONG
  }

  ghost predicate OuterOk(m: Outer, n: nat) {
    Sorted(CmpFileFn, m) && forall i :: 0 <= i < |m| ==> m[i].1 != [] && InnerOk(m[i].1, n)
  }

  /** `addCountsToMap` */
  function AddLine(m: Inner, line: int, c: Counts): Inner {
    match Lookup(Compare, m, line)
    case None => Put(Compare, m, line, c)
    case Some(o) => Put(Compare, m, line, if |o| == |c| then Add(o, c) else o)
  }

  /** What `handle_counts` does to the outer map. */
  function AddRow(m: Outer, key: FileFn, line: int, c: Counts): Outer {
    match Lookup(CmpFileFn, m, key)
    case None => Put(CmpFileFn, m, key, AddLine([], line, c))
    case Some(inner) => Put(CmpFileFn, m, key, AddLine(inner, line, c))
  }

  // ---------------------------------------------------------------- reading

  predicate Starts(line: string, prefix: string) { prefix <= line }

  /** `splitUpCountsLine` */
  function SplitCounts(s: string, atLeast: nat): Result<seq<nat>, ParseError> {
    var (ns, rest) := Numbers(s);
    if rest != "" then Err(Garbage)
    else if |ns| < atLeast then Err(TooFewCounts)
    else Ok(ns)
  }

  /** The number of transitions from a space to a letter, from the colon on. */
  function CountEvents(s: string): nat {
    if |s| < 2 then 0 else CountEvents(s[1..]) + if s[0] == ' ' && IsAlpha(s[1]) then 1 else 0
  }

  datatype Body = Body(fl: string, fn: string, outer: Outer, summary: Counts)

  /** `handle_counts` */
  function HandleCounts(n: nat, b: Body, line: string): Result<Body, ParseError>
    requires |b.summary| == n
  {
    match SplitCounts(line, 2)
    case Err(e) => Err(e)
    case Ok(ns) =>
      if |ns| - 1 != n then Err(WrongCounts)
      else Ok(b.(outer := AddRow(b.outer, FileFn(b.fl, b.fn), ns[0], ns[1..]), summary := Add(b.summary, ns[1..])))
  }

  /** The lines up to the summary line, which is the first of what is left. */
  function ParseBody(n: nat, b: Body, lines: seq<string>): (r: Result<(Body, seq<string>), ParseError>)
    requires |b.summary| == n
    ensures r.Ok? ==> |r.value.0.summary| == n && r.value.1 != [] && Starts(r.value.1[0], "summary: ")
    decreases |lines|
  {
    if lines == [] then Err(EofBeforeSummary)
    else
      var line := lines[0];
      if line != "" && IsDigit(line[0]) then
        match HandleCounts(n, b, line)
        case Err(e) => Err(e)
        case Ok(b') => ParseBody(n, b', lines[1..])
      else if Starts(line, "fn=") then ParseBody(n, b.(fn := line[3..]), lines[1..])
      else if Starts(line, "fl=") then ParseBody(n, b.(fl := line[3..]), lines[1..])
      else if Starts(line, "summary: ") then Ok((b, lines))
      else Err(UnexpectedLine)
  }

  function CheckSummary(n: nat, summary: Counts, lines: seq<string>): Result<(), ParseError>
    requires lines != [] && |lines[0]| >= 8
  {
    if |lines| > 1 then Err(ExtraContent)
    else
      match SplitCounts(lines[0][8..], 1)
      case Err(e) => Err(e)
      case Ok(ns) =>
        if |ns| != n then Err(WrongSummaryCounts) else if ns != summary then Err(SummaryMismatch) else Ok(())
  }

  function DescCount(lines: seq<string>): (k: nat)
    ensures k <= |lines|
  {
    if lines != [] && Starts(lines[0], "desc: ") then 1 + DescCount(lines[1..]) else 0
  }

  /** `parse_CacheProfFile`.  A file that ends after its "desc:" lines makes the source dereference NULL; that is
      taken for a missing "cmd:" line. */
  function Parse(lines: seq<string>): Result<Profile, ParseError> {
    var k := DescCount(lines);
    if k == 0 then Err(NoDesc)
    else if |lines| == k || !Starts(lines[k], "cmd: ") then Err(NoCmd)
    else if |lines| == k + 1 then Err(EofBeforeEvents)
    else if !Starts(lines[k + 1], "events: ") then Err(NoEvents)
    else
      var n := CountEvents(lines[k + 1][6..]);
      match ParseBody(n, Body("???", "???", [], Zeroed(n)), lines[k + 2..])
      case Err(e) => Err(e)
      case Ok((b, rest)) =>
        match CheckSummary(n, b.summary, rest)
        case Err(e) => Err(e)
        case Ok(_) => Ok(Profile(lines[..k], lines[k], lines[k + 1], n, b.outer, b.summary))
  }

  // ---------------------------------------------------------------- writing

  function Row(line: nat, c: Counts): string
    requires line < ULONG && Wide(c)
  {
    Signed(line) + "   " + Cells(c)
  }

  /** All numbers are 64 bits wide. */
  predicate Fits(m: Inner) {
    forall i :: 0 <= i < |m| ==> Wide(m[i].1) && 0 <= m[i].0 < ULONG
  }

  function InnerLines(m: Inner): seq<string>
    requires Fits(m)
  {
    if m == [] then [] else [Row(m[0].0, m[0].1)] + InnerLines(m[1..])
  }

  predicate OuterFits(m: Outer) {
    forall i :: 0 <= i < |m| ==> Fits(m[i].1)
  }

  function OuterLines(m: Outer): seq<string>
    requires OuterFits(m)
  {
    if m == [] then []
    else ["fl=" + m[0].0.file, "fn=" + m[0].0.fn] + InnerLines(m[0].1) + OuterLines(m[1..])
  }

  /** `show_CacheProfFile` */
  function Render(p: Profile): seq<string>
    requires OuterFits(p.outer) && Wide(p.summary)
  {
    p.descLines + [p.cmdLine, p.eventsLine] + OuterLines(p.outer) + ["summary:" + SummaryCells(p.summary)]
  }

  // ---------------------------------------------------------------- merging

  function MergeInner(d: Inner, s: Inner): Inner
    decreases |s|
  {
    if s == [] then d else MergeInner(AddLine(d, s[0].0, s[0].1), s[1..])
  }

  /** One file and function of the source map is merged. */
  function MergeFile(d: Outer, k: FileFn, m: Inner): Outer {
    match Lookup(CmpFileFn, d, k)
    case None => Put(CmpFileFn, d, k, m)
    case Some(inner) => Put(CmpFileFn, d, k, MergeInner(inner, m))
  }

  function MergeOuter(d: Outer, s: Outer): Outer
    decreases |s|
  {
    if s == [] then d else MergeOuter(MergeFile(d, s[0].0, s[0].1), s[1..])
  }

  /** `merge_CacheProfInfo` */
  function Merge(d: Profile, s: Profile): Result<Profile, ParseError> {
    if d.eventsLine != s.eventsLine then Err(EventsDiffer)
    else if |d.summary| != |s.summary| then Err(InconsistentCounts)
    else Ok(d.(outer := MergeOuter(d.outer, s.outer), summary := Add(d.summary, s.summary)))
  }

  // ---------------------------------------------------------------- totals

  /** The sum of the vectors of a list of bindings. */
  function Sum<K, V>(m: seq<(K, V)>, w: V -> Counts, n: nat): (r: Counts)
    ensures |r| == n
  {
    if m == [] then Zeroed(n)
    else
      var rest := Sum(m[1..], w, n);
      if |w(m[0].1)| == n then Add(w(m[0].1), rest) else rest
  }

  function Itself(c: Counts): Counts { c }

  function InnerTotal(n: nat): Inner -> Counts {
    (m: Inner) => Sum(m, Itself, n)
  }

  /** The sum of the counts of all lines. */
  function Total(m: Outer, n: nat): Counts {
    Sum(m, InnerTotal(n), n)
  }

  /** What a profile that was parsed or merged is like. */
  ghost predicate ProfileOk(p: Profile) {
    && OuterOk(p.outer, p.nEvents) && p.summary == Total(p.outer, p.nEvents)
    && p.descLines != [] && (forall i :: 0 <= i < |p.descLines| ==> Starts(p.descLines[i], "desc: "))
    && Starts(p.cmdLine, "cmd: ") && Starts(p.eventsLine, "events: ") && p.nEvents == CountEvents(p.eventsLine[6..])
  }
}
