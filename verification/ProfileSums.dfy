/**
 Conservation: the summary kept while counts are added to a profile is always the sum over
 its lines.
*/
module ProfileSums {
  import opened Common
  import opened AvlTree
  import opened AvlMap
  import opened ProfileText
  import opened ProfileModel

  // ---------------------------------------------------------------- the order of keys

  lemma {:induction false} StrCmpSign(a: string, b: string)
    ensures StrCmp(a, b) == 0 <==> a == b
    ensures StrCmp(a, b) < 0 <==> StrCmp(b, a) > 0
    ensures -1 <= StrCmp(a, b) <= 1
  {
    if a != "" && b != "" {
      StrCmpSign(a[1..], b[1..]);
      assert a == [a[0]] + a[1..] && b == [b[0]] + b[1..];
    }
  }

  lemma {:induction false} StrCmpTransitive(a: string, b: string, c: string)
    requires StrCmp(a, b) < 0 && StrCmp(b, c) < 0
    ensures StrCmp(a, c) < 0
  {
    if a != "" && b != "" && c != "" && a[0] == b[0] == c[0] {
      StrCmpTransitive(a[1..], b[1..], c[1..]);
    }
  }

  lemma LineOrder()
    ensures TotalOrder(Compare)
  {
  }

  /** File and function names are ordered as `strcmp` orders them. */
  lemma FileFnOrder()
    ensures TotalOrder(CmpFileFn)
  {
    forall a: FileFn, b: FileFn
      ensures (CmpFileFn(a, b) == 0 <==> a == b) && (CmpFileFn(a, b) < 0 <==> CmpFileFn(b, a) > 0)
    {
      StrCmpSign(a.file, b.file);
      StrCmpSign(b.file, a.file);
      StrCmpSign(a.fn, b.fn);
    }
    forall a: FileFn, b: FileFn, c: FileFn | CmpFileFn(a, b) < 0 && CmpFileFn(b, c) < 0
      ensures CmpFileFn(a, c) < 0
    {
      StrCmpSign(a.file, b.file);
      StrCmpSign(b.file, c.file);
      StrCmpSign(a.file, c.file);
      if StrCmp(a.file, b.file) < 0 && StrCmp(b.file, c.file) < 0 {
        StrCmpTransitive(a.file, b.file, c.file);
      }
      if StrCmp(a.fn, b.fn) < 0 && StrCmp(b.fn, c.fn) < 0 {
        StrCmpTransitive(a.fn, b.fn, c.fn);
      }
    }
  }

  // ---------------------------------------------------------------- the algebra of counts

  lemma AddCommutes(a: Counts, b: Counts)
    requires |a| == |b|
    ensures Add(a, b) == Add(b, a)
  {
  }

  lemma ModAdd(x: nat, y: nat, z: nat)
    ensures ((x + y) % ULONG + z) % ULONG == (x + (y + z) % ULONG) % ULONG
  {
  }

  lemma AddAssociates(a: Counts, b: Counts, c: Counts)
    requires |a| == |b| == |c|
    ensures Add(Add(a, b), c) == Add(a, Add(b, c))
  {
    forall i | 0 <= i < |a| ensures Add(Add(a, b), c)[i] == Add(a, Add(b, c))[i] {
      ModAdd(a[i], b[i], c[i]);
    }
  }

  lemma AddZero(a: Counts)
    requires Wide(a)
    ensures Add(a, Zeroed(|a|)) == a && Add(Zeroed(|a|), a) == a
  {
  }

  // ---------------------------------------------------------------- sums

  lemma {:induction false} SumWide<K, V>(m: seq<(K, V)>, w: V -> Counts, n: nat)
    ensures Wide(Sum(m, w, n))
  {
    if m != [] {
      SumWide(m[1..], w, n);
    }
  }

  /** Changing what a key is bound to changes the sum by the difference. */
  lemma {:induction false} SumPut<K(!new), V>(cmp: (K, K) -> int, m: seq<(K, V)>, k: K, v: V, w: V -> Counts, n: nat,
                                              d: Counts)
    requires TotalOrder(cmp) && Sorted(cmp, m) && |d| == n && Wide(d)
    requires forall i :: 0 <= i < |m| ==> |w(m[i].1)| == n && Wide(w(m[i].1))
    requires |w(v)| == n && w(v) == match Lookup(cmp, m, k) case None => d case Some(o) => if |w(o)| == n then Add(w(o), d) else d
    ensures Sum(Put(cmp, m, k, v), w, n) == Add(Sum(m, w, n), d)
  {
    var s := Sum(m, w, n);
    if m == [] {
      assert [(k, v)][1..] == [];
      AddCommutes(d, Zeroed(n));
    } else if cmp(m[0].0, k) < 0 {
      var rest := Sum(m[1..], w, n);
      SumPut(cmp, m[1..], k, v, w, n, d);
      assert Put(cmp, m, k, v)[1..] == Put(cmp, m[1..], k, v);
      AddAssociates(w(m[0].1), rest, d);
    } else if cmp(m[0].0, k) == 0 {
      var rest, o := Sum(m[1..], w, n), w(m[0].1);
      assert Put(cmp, m, k, v)[1..] == m[1..];
      AddAssociates(o, d, rest);
      AddCommutes(d, rest);
      AddAssociates(o, rest, d);
    } else {
      assert Put(cmp, m, k, v)[1..] == m;
      Absent(cmp, m, k);
      AddCommutes(d, s);
    }
  }

  /** A key that comes before the first one is not bound. */
  lemma Absent<K(!new), V>(cmp: (K, K) -> int, m: seq<(K, V)>, k: K)
    requires TotalOrder(cmp) && Sorted(cmp, m) && (m != [] ==> cmp(m[0].0, k) > 0)
    ensures Lookup(cmp, m, k) == None
  {
    forall e | e in m ensures cmp(e.0, k) > 0 {
      var i :| 0 <= i < |m| && m[i] == e;
      if i > 0 {
        assert cmp(k, m[0].0) < 0 && cmp(m[0].0, m[i].0) < 0;
      }
    }
    LookupNone(cmp, m, k);
  }

  lemma {:induction false} LookupPut<K(!new), V>(cmp: (K, K) -> int, m: seq<(K, V)>, k: K, v: V, k': K)
    requires TotalOrder(cmp) && Sorted(cmp, m)
    ensures Lookup(cmp, Put(cmp, m, k, v), k') == if k' == k then Some(v) else Lookup(cmp, m, k')
  {
    if m != [] {
      if cmp(m[0].0, k) < 0 {
        LookupPut(cmp, m[1..], k, v, k');
        assert Put(cmp, m, k, v)[1..] == Put(cmp, m[1..], k, v);
      } else if cmp(m[0].0, k) == 0 {
        assert Put(cmp, m, k, v)[1..] == m[1..];
      } else {
        assert Put(cmp, m, k, v)[1..] == m;
      }
    }
  }

  /** What is looked up is one of the bindings. */
  lemma {:induction false} LookupIn<K(!new), V>(cmp: (K, K) -> int, m: seq<(K, V)>, k: K) returns (i: nat)
    requires TotalOrder(cmp) && Lookup(cmp, m, k).Some?
    ensures i < |m| && m[i] == (k, Lookup(cmp, m, k).value)
  {
    if cmp(m[0].0, k) == 0 {
      i := 0;
    } else {
      var j := LookupIn(cmp, m[1..], k);
      i := j + 1;
    }
  }

  /** The bindings after a change are those before and the new one. */
  lemma {:induction false} PutIn<K, V>(cmp: (K, K) -> int, m: seq<(K, V)>, k: K, v: V, i: nat)
    requires i < |Put(cmp, m, k, v)|
    ensures var e := Put(cmp, m, k, v)[i]; e in m || (e.1 == v && (e.0 == k || HasKey(m, e.0)))
  {
    if m != [] {
      if cmp(m[0].0, k) < 0 {
        if i > 0 {
          PutIn(cmp, m[1..], k, v, i - 1);
          assert forall x :: x in m[1..] ==> x in m;
        } else {
          assert m[0] in m;
        }
      } else if cmp(m[0].0, k) == 0 {
        assert m[0] in m;
        if i > 0 {
          assert Put(cmp, m, k, v)[i] == m[i];
        }
      } else if i > 0 {
        assert Put(cmp, m, k, v)[i] == m[i - 1];
      }
    }
  }

  // ---------------------------------------------------------------- counts added

  lemma InnerPut(m: Inner, line: nat, c: Counts, n: nat)
    requires InnerOk(m, n) && |c| == n && Wide(c) && line < ULONG
    ensures InnerOk(Put(Compare, m, line, c), n) && Put(Compare, m, line, c) != []
  {
    LineOrder();
    PutSorted(Compare, m, line, c);
    var r := Put(Compare, m, line, c);
    forall i | 0 <= i < |r| ensures |r[i].1| == n && Wide(r[i].1) && 0 <= r[i].0 < ULONG {
      PutIn(Compare, m, line, c, i);
    }
  }

  /** Adding counts to a line adds them to the total of the function. */
  lemma AddLineTotal(m: Inner, line: nat, c: Counts, n: nat)
    requires InnerOk(m, n) && |c| == n && Wide(c) && line < ULONG
    ensures InnerOk(AddLine(m, line, c), n) && AddLine(m, line, c) != []
    ensures InnerTotal(n)(AddLine(m, line, c)) == Add(InnerTotal(n)(m), c)
  {
    LineOrder();
    var v := c;
    if Lookup(Compare, m, line).Some? {
      var i := LookupIn(Compare, m, line);
      v := Add(m[i].1, c);
    }
    InnerPut(m, line, v, n);
    SumPut(Compare, m, line, v, Itself, n, c);
  }

  lemma OuterPut(m: Outer, k: FileFn, inner: Inner, n: nat)
    requires OuterOk(m, n) && InnerOk(inner, n) && inner != []
    ensures OuterOk(Put(CmpFileFn, m, k, inner), n)
  {
    FileFnOrder();
    PutSorted(CmpFileFn, m, k, inner);
    var r := Put(CmpFileFn, m, k, inner);
    forall i | 0 <= i < |r| ensures r[i].1 != [] && InnerOk(r[i].1, n) {
      PutIn(CmpFileFn, m, k, inner, i);
    }
  }

  /** Binding a function to lines whose total has grown by `d` makes the total grow by `d`. */
  lemma OuterPutTotal(m: Outer, k: FileFn, inner: Inner, n: nat, d: Counts)
    requires OuterOk(m, n) && InnerOk(inner, n) && inner != [] && |d| == n && Wide(d)
    requires InnerTotal(n)(inner)
      == match Lookup(CmpFileFn, m, k) case None => d case Some(o) => Add(InnerTotal(n)(o), d)
    ensures OuterOk(Put(CmpFileFn, m, k, inner), n)
    ensures Total(Put(CmpFileFn, m, k, inner), n) == Add(Total(m, n), d)
  {
    FileFnOrder();
    OuterPut(m, k, inner, n);
    forall i | 0 <= i < |m| ensures |InnerTotal(n)(m[i].1)| == n && Wide(InnerTotal(n)(m[i].1)) {
      SumWide(m[i].1, Itself, n);
    }
    SumPut(CmpFileFn, m, k, inner, InnerTotal(n), n, d);
  }

  lemma FoundOk(m: Outer, k: FileFn, n: nat)
    requires OuterOk(m, n) && Lookup(CmpFileFn, m, k).Some?
    ensures var o := Lookup(CmpFileFn, m, k).value; InnerOk(o, n) && o != []
  {
    FileFnOrder();
    var i := LookupIn(CmpFileFn, m, k);
  }

  /** A line of counts adds to the total what it adds to the running summary. */
  lemma AddRowTotal(m: Outer, k: FileFn, line: nat, c: Counts, n: nat)
    requires OuterOk(m, n) && |c| == n && Wide(c) && line < ULONG
    ensures OuterOk(AddRow(m, k, line, c), n)
    ensures Total(AddRow(m, k, line, c), n) == Add(Total(m, n), c)
  {
    var o := Lookup(CmpFileFn, m, k);
    if o.None? {
      AddLineTotal([], line, c, n);
      AddZero(c);
      OuterPutTotal(m, k, AddLine([], line, c), n, c);
    } else {
      FoundOk(m, k, n);
      AddLineTotal(o.value, line, c, n);
      OuterPutTotal(m, k, AddLine(o.value, line, c), n, c);
    }
  }

  // ---------------------------------------------------------------- merging

  lemma {:induction false} MergeInnerTotal(d: Inner, s: Inner, n: nat)
    requires InnerOk(d, n) && InnerOk(s, n)
    ensures InnerOk(MergeInner(d, s), n) && (d != [] || s != [] ==> MergeInner(d, s) != [])
    ensures InnerTotal(n)(MergeInner(d, s)) == Add(InnerTotal(n)(d), InnerTotal(n)(s))
    decreases |s|
  {
    if s == [] {
      SumWide(d, Itself, n);
      AddZero(InnerTotal(n)(d));
    } else {
      AddLineTotal(d, s[0].0, s[0].1, n);
      MergeInnerTotal(AddLine(d, s[0].0, s[0].1), s[1..], n);
      AddAssociates(InnerTotal(n)(d), s[0].1, InnerTotal(n)(s[1..]));
    }
  }

  /** Merging conserves the counts: the total of the result is the sum of the totals. */
  lemma {:induction false} MergeOuterTotal(d: Outer, s: Outer, n: nat)
    requires OuterOk(d, n) && OuterOk(s, n)
    ensures OuterOk(MergeOuter(d, s), n)
    ensures Total(MergeOuter(d, s), n) == Add(Total(d, n), Total(s, n))
    decreases |s|
  {
    if s == [] {
      SumWide(d, InnerTotal(n), n);
      AddZero(Total(d, n));
    } else {
      var k, i, o := s[0].0, s[0].1, Lookup(CmpFileFn, d, s[0].0);
      SumWide(i, Itself, n);
      var inner := i;
      if o.Some? {
        FoundOk(d, k, n);
        inner := MergeInner(o.value, i);
        MergeInnerTotal(o.value, i, n);
      }
      OuterPutTotal(d, k, inner, n, InnerTotal(n)(i));
      MergeOuterTotal(Put(CmpFileFn, d, k, inner), s[1..], n);
      AddAssociates(Total(d, n), InnerTotal(n)(i), Total(s[1..], n));
    }
  }

  /** Merging two profiles gives one whose summary is the sum over its lines. */
  lemma MergeKeepsOk(d: Profile, s: Profile)
    requires ProfileOk(d) && ProfileOk(s)
    ensures Merge(d, s).Ok? <==> d.eventsLine == s.eventsLine
    ensures Merge(d, s).Ok? ==> ProfileOk(Merge(d, s).value)
  {
    if d.eventsLine == s.eventsLine {
      MergeOuterTotal(d.outer, s.outer, d.nEvents);
    }
  }

  lemma {:induction false} BodyKeepsTotal(n: nat, b: Body, lines: seq<string>)
    requires OuterOk(b.outer, n) && b.summary == Total(b.outer, n)
    ensures ParseBody(n, b, lines).Ok? ==>
      var b' := ParseBody(n, b, lines).value.0; OuterOk(b'.outer, n) && b'.summary == Total(b'.outer, n)
    decreases |lines|
  {
    if lines != [] {
      var line := lines[0];
      if line != "" && IsDigit(line[0]) {
        var h := HandleCounts(n, b, line);
        if h.Ok? {
          NumbersWide(line);
          var ns := Numbers(line).0;
          AddRowTotal(b.outer, FileFn(b.fl, b.fn), ns[0], ns[1..], n);
          BodyKeepsTotal(n, h.value, lines[1..]);
        }
      } else if Starts(line, "fn=") {
        BodyKeepsTotal(n, b.(fn := line[3..]), lines[1..]);
      } else if Starts(line, "fl=") {
        BodyKeepsTotal(n, b.(fl := line[3..]), lines[1..]);
      }
    }
  }

  lemma {:induction false} TakeWide(acc: nat, s: string)
    requires acc < ULONG
    ensures TakeDigits(acc, s).0 < ULONG
    decreases |s|
  {
    if s != "" && IsDigit(s[0]) {
      TakeWide((acc * 10 + ValueOf(s[0])) % ULONG, s[1..]);
    }
  }

  lemma {:induction false} NumbersWide(s: string)
    ensures Wide(Numbers(s).0)
    decreases |s|
  {
    var (o, rest) := ParseULong(s);
    if o.Some? {
      var s1 := SkipSpaces(s);
      TakeWide(ValueOf(s1[0]), s1[1..]);
      NumbersWide(rest);
    }
  }

  lemma {:induction false} DescLines(lines: seq<string>)
    ensures forall i :: 0 <= i < DescCount(lines) ==> Starts(lines[i], "desc: ")
    ensures DescCount(lines) < |lines| ==> !Starts(lines[DescCount(lines)], "desc: ")
  {
    if lines != [] && Starts(lines[0], "desc: ") {
      DescLines(lines[1..]);
      forall i | 0 <= i < DescCount(lines) ensures Starts(lines[i], "desc: ") {
        if i > 0 {
          assert lines[i] == lines[1..][i - 1];
        }
      }
    }
  }

  /** Whatever is parsed without an error has a summary that is the sum over its lines. */
  lemma ParsedIsOk(lines: seq<string>)
    ensures Parse(lines).Ok? ==> ProfileOk(Parse(lines).value)
  {
    hide ParseBody;
    DescLines(lines);
    var k := DescCount(lines);
    if k > 0 && |lines| > k + 1 && Starts(lines[k + 1], "events: ") {
      var n := CountEvents(lines[k + 1][6..]);
      BodyKeepsTotal(n, Body("???", "???", [], Zeroed(n)), lines[k + 2..]);
    }
  }
}
