/**
 `cg_merge` as a whole: the files are read one after the other and merged into the first
 one.  What comes out does not depend on their order.
*/
module MergeFiles {
  import opened Common
  import opened AvlMap
  import opened ProfileModel
  import opened ProfileSums
  import opened ProfileMerge
  import opened ProfileLines
  import opened ProfileFiles
  import opened ProfileFile

  /** The profile after reading and merging all files, or the first error. */
  function Merged(inputs: seq<seq<string>>): Result<Option<Profile>, ParseError> {
    if inputs == [] then Ok(None)
    else
      var last := |inputs| - 1;
      match Merged(inputs[..last])
      case Err(e) => Err(e)
      case Ok(d) => MergeNext(d, Parse(inputs[last]))
  }

  function MergeNext(d: Option<Profile>, s: Result<Profile, ParseError>): Result<Option<Profile>, ParseError> {
    match s
    case Err(e) => Err(e)
    case Ok(s) =>
      if d == None then Ok(Some(s))
      else
        match Merge(d.value, s)
        case Err(e) => Err(e)
        case Ok(p) => Ok(Some(p))
  }

  lemma {:induction false} FirstError(inputs: seq<seq<string>>, i: nat)
    requires i <= |inputs| && Merged(inputs[..i]).Err?
    ensures Merged(inputs) == Merged(inputs[..i])
    decreases |inputs|
  {
    if i < |inputs| {
      assert inputs[..|inputs| - 1][..i] == inputs[..i];
      FirstError(inputs[..|inputs| - 1], i);
    } else {
      assert inputs[..i] == inputs;
    }
  }

  /** One turn of the loop of `main`, when there is a profile to merge into. */
  method AddInput(cpf: CacheProfFile, input: seq<string>) returns (error: Option<ParseError>)
    requires cpf.Valid() && (Parse(input).Ok? ==> FewLines(Parse(input).value.outer))
    modifies cpf.Repr()
    ensures cpf.Valid() && forall o :: o in cpf.Repr() ==> o in old(cpf.Repr()) || fresh(o)
    ensures var r := MergeNext(Some(old(cpf.Contents())), Parse(input));
      if r.Ok? then error == None && r.value == Some(cpf.Contents()) else error == Some(r.error)
  {
    hide *;
    cpf.ReprParts();
    Next(Some(cpf.Contents()), Parse(input));
    assert allocated(cpf.Repr()) && allocated(Maps(cpf.outerMap.Contents()));
    var cpfTmp;
    error, cpfTmp := ReadFile(input);
    if error == None {
      SmallIsIterable(cpfTmp);
      cpfTmp.ReprParts();
      Parts(cpfTmp.outerMap);
      InTop(cpfTmp.outerMap);
      error := MergeInto(cpf, cpfTmp);
    }
  }

  lemma InTop(m: FileMap)
    ensures m in Top(m) && m.nodeStack in Top(m) && m.numStack in Top(m)
  {
  }

  lemma Next(d: Option<Profile>, s: Result<Profile, ParseError>)
    ensures s.Err? ==> MergeNext(d, s) == Err(s.error)
    ensures s.Ok? && d == None ==> MergeNext(d, s) == Ok(Some(s.value))
    ensures s.Ok? && d.Some? && Merge(d.value, s.value).Err? ==> MergeNext(d, s) == Err(Merge(d.value, s.value).error)
    ensures s.Ok? && d.Some? && Merge(d.value, s.value).Ok? ==> MergeNext(d, s) == Ok(Some(Merge(d.value, s.value).value))
  {
  }

  lemma MergedStep(inputs: seq<seq<string>>, i: nat)
    requires i < |inputs| && Merged(inputs[..i]).Ok?
    ensures Merged(inputs[..i + 1]) == MergeNext(Merged(inputs[..i]).value, Parse(inputs[i]))
  {
    assert inputs[..i + 1][..i] == inputs[..i];
  }

  /** The loop of `main`.  Every file must be small enough to be iterated over. */
  method MergeInputs(inputs: seq<seq<string>>) returns (error: Option<ParseError>, cpf: CacheProfFile?)
    requires forall i :: 0 <= i < |inputs| && Parse(inputs[i]).Ok? ==> FewLines(Parse(inputs[i]).value.outer)
    ensures match Merged(inputs)
      case Err(e) => error == Some(e)
      case Ok(None) => error == None && cpf == null
      case Ok(Some(p)) => error == None && cpf != null && cpf.Valid() && cpf.Contents() == p
  {
    hide Parse, MergeNext, CacheProfFile.Valid, CacheProfFile.Repr, CacheProfFile.Contents, FewLines;
    cpf := null;
    var i := 0;
    while i < |inputs|
      invariant i <= |inputs| && Merged(inputs[..i]).Ok?
      invariant if cpf == null then Merged(inputs[..i]).value == None
                else cpf.Valid() && Merged(inputs[..i]).value == Some(cpf.Contents()) && forall o :: o in cpf.Repr() ==> fresh(o)
    {
      MergedStep(inputs, i);
      if cpf == null {
        Next(None, Parse(inputs[i]));
        error, cpf := ReadFile(inputs[i]);
      } else {
        error := AddInput(cpf, inputs[i]);
      }
      i := i + 1;
      if error != None {
        FirstError(inputs, i);
        return;
      }
    }
    assert inputs[..i] == inputs;
    error := None;
  }

  // ---------------------------------------------------------------- order

  ghost predicate InOrder(inputs: seq<seq<string>>) {
    forall x :: x in inputs ==> Parse(x).Ok?
  }

  /** All files are in order and count the same events. */
  ghost predicate Mergeable(inputs: seq<seq<string>>) {
    && InOrder(inputs)
    && (forall x, y :: x in inputs && y in inputs ==> Parse(x).value.eventsLine == Parse(y).value.eventsLine)
  }

  ghost function Outers(inputs: seq<seq<string>>): (r: seq<Outer>)
    requires InOrder(inputs)
  {
    seq(|inputs|, i requires 0 <= i < |inputs| => assert inputs[i] in inputs; Parse(inputs[i]).value.outer)
  }

  lemma MergeableFront(inputs: seq<seq<string>>)
    requires inputs != []
    ensures var last := |inputs| - 1;
      Mergeable(inputs) <==>
        Mergeable(inputs[..last]) && Parse(inputs[last]).Ok?
        && (last > 0 ==> Parse(inputs[0]).value.eventsLine == Parse(inputs[last]).value.eventsLine)
  {
    hide Parse;
    var last := |inputs| - 1;
    assert inputs == inputs[..last] + [inputs[last]];
    assert forall x :: x in inputs <==> x in inputs[..last] || x == inputs[last];
    assert last > 0 ==> inputs[0] in inputs[..last];
  }

  lemma OutersFront(inputs: seq<seq<string>>)
    requires inputs != [] && InOrder(inputs)
    ensures var last := |inputs| - 1;
      && inputs[last] in inputs && InOrder(inputs[..last])
      && MergeAll(Outers(inputs)) == MergeOuter(MergeAll(Outers(inputs[..last])), Parse(inputs[last]).value.outer)
  {
    hide Parse, MergeOuter;
    var last := |inputs| - 1;
    var os := Outers(inputs);
    assert os[..last] == Outers(inputs[..last]);
  }

  /** The files can be merged exactly if they are all in order and count the same events, and then the counts are
      those of all files and the summary is their sum. */
  lemma {:induction false} MergedExact(inputs: seq<seq<string>>)
    ensures Merged(inputs).Ok? <==> Mergeable(inputs)
    ensures Merged(inputs).Ok? && inputs == [] ==> Merged(inputs).value == None
    ensures Merged(inputs).Ok? && inputs != [] ==>
      var m := Merged(inputs).value;
      m.Some? && ProfileOk(m.value) && m.value.outer == MergeAll(Outers(inputs))
      && m.value.eventsLine == Parse(inputs[0]).value.eventsLine
  {
    hide Parse, ProfileOk, MergeOuter, Merge, MergeAll, Mergeable, Outers, MergeNext;
    if inputs == [] {
      assert Mergeable(inputs) by { NothingMergeable(); }
    } else {
      var last := |inputs| - 1;
      MergedExact(inputs[..last]);
      MergeableFront(inputs);
      if Merged(inputs[..last]).Ok? {
        NextExact(inputs);
      }
    }
  }

  lemma NothingMergeable()
    ensures Mergeable([])
  {
  }

  lemma NextExact(inputs: seq<seq<string>>)
    requires inputs != [] && Merged(inputs[..|inputs| - 1]).Ok? && Mergeable(inputs[..|inputs| - 1])
    requires var m, front := Merged(inputs[..|inputs| - 1]).value, inputs[..|inputs| - 1];
      if front == [] then m == None
      else m.Some? && ProfileOk(m.value) && m.value.outer == MergeAll(Outers(front))
           && m.value.eventsLine == Parse(front[0]).value.eventsLine
    ensures Merged(inputs).Ok? <==> Mergeable(inputs)
    ensures Merged(inputs).Ok? ==>
      var m := Merged(inputs).value;
      m.Some? && ProfileOk(m.value) && m.value.outer == MergeAll(Outers(inputs))
      && m.value.eventsLine == Parse(inputs[0]).value.eventsLine
  {
    hide Parse, ProfileOk, MergeOuter, Merge, MergeAll, Mergeable, Outers, MergeNext;
    var last := |inputs| - 1;
    var d, s := Merged(inputs[..last]).value, Parse(inputs[last]);
    MergeableFront(inputs);
    ParsedIsOk(inputs[last]);
    Next(d, s);
    if s.Ok? {
      if d.Some? {
        MergeCases(d.value, s.value);
        MergeKeepsOk(d.value, s.value);
      } else {
        StartOk(inputs, s.value);
      }
      if Mergeable(inputs) {
        AllInOrder(inputs);
        OutersFront(inputs);
      }
    }
  }

  lemma AllInOrder(inputs: seq<seq<string>>)
    requires Mergeable(inputs)
    ensures InOrder(inputs)
  {
  }

  lemma StartOk(inputs: seq<seq<string>>, s: Profile)
    requires |inputs| == 1 && Parse(inputs[0]) == Ok(s) && ProfileOk(s)
    ensures InOrder(inputs[..0])
    ensures MergeOuter(MergeAll(Outers(inputs[..0])), s.outer) == s.outer
  {
    hide Parse;
    MergeEmpty(s.outer, s.nEvents);
  }

  lemma OutersWithout(s: seq<seq<string>>, i: nat)
    requires InOrder(s) && i < |s|
    ensures var rest := s[..i] + s[i + 1..];
      && s[i] in s && InOrder(rest) && multiset(rest) == multiset(s) - multiset{s[i]}
      && multiset(Outers(s)) == multiset(Outers(rest)) + multiset{Parse(s[i]).value.outer}
  {
    hide Parse;
    var rest, os := s[..i] + s[i + 1..], Outers(s);
    Without(s, i);
    Without(os, i);
    assert forall x :: x in rest ==> x in s;
    assert Outers(rest) == os[..i] + os[i + 1..];
    assert os[i] in os;
  }

  lemma {:induction false} SameOuters(a: seq<seq<string>>, b: seq<seq<string>>)
    requires multiset(a) == multiset(b) && InOrder(a) && InOrder(b)
    ensures multiset(Outers(a)) == multiset(Outers(b))
    decreases |a|
  {
    hide Parse, InOrder, Outers;
    if a == [] {
      assert |multiset(b)| == |b|;
      assert b == a;
    } else {
      var last := |a| - 1;
      assert a[last] in multiset(b);
      var i :| 0 <= i < |b| && b[i] == a[last];
      OutersWithout(a, last);
      OutersWithout(b, i);
      SameOuters(a[..last] + a[last + 1..], b[..i] + b[i + 1..]);
    }
  }

  lemma SameMergeable(a: seq<seq<string>>, b: seq<seq<string>>)
    requires multiset(a) == multiset(b) && Mergeable(a)
    ensures Mergeable(b) && InOrder(a) && InOrder(b) && |a| == |b|
    ensures a != [] ==> Parse(a[0]).Ok? && Parse(b[0]).Ok? && Parse(a[0]).value.eventsLine == Parse(b[0]).value.eventsLine
  {
    hide Parse;
    assert |multiset(a)| == |a| && |multiset(b)| == |b|;
    forall x | x in b ensures x in a {
      assert x in multiset(b);
    }
    assert a != [] ==> a[0] in a && b[0] in b;
  }

  lemma OutersOk(inputs: seq<seq<string>>, n: nat)
    requires inputs != [] && Mergeable(inputs) && InOrder(inputs)
    requires inputs[0] in inputs && n == Parse(inputs[0]).value.nEvents
    ensures forall i :: 0 <= i < |Outers(inputs)| ==> OuterOk(Outers(inputs)[i], n)
  {
    hide Parse, OuterOk;
    ParsedIsOk(inputs[0]);
    forall i | 0 <= i < |inputs| ensures OuterOk(Outers(inputs)[i], n) {
      assert inputs[i] in inputs;
      ParsedIsOk(inputs[i]);
    }
  }

  lemma SummaryIsTotal(p: Profile, q: Profile)
    requires ProfileOk(p) && ProfileOk(q) && p.eventsLine == q.eventsLine && p.outer == q.outer
    ensures p.summary == q.summary
  {
  }

  /** The files may be given in any order: the same ones are merged, with the same counts and the same summary. */
  lemma AnyInputOrder(a: seq<seq<string>>, b: seq<seq<string>>)
    requires multiset(a) == multiset(b)
    ensures Merged(a).Ok? <==> Merged(b).Ok?
    ensures Merged(a).Ok? ==>
      match (Merged(a).value, Merged(b).value)
      case (None, None) => a == b == []
      case (Some(p), Some(q)) => p.eventsLine == q.eventsLine && p.outer == q.outer && p.summary == q.summary
      case _ => false
  {
    hide Parse, Merged, Mergeable, MergeAll, Outers, InOrder, ProfileOk;
    MergedExact(a);
    MergedExact(b);
    if Mergeable(b) {
      SameMergeable(b, a);
    }
    if Mergeable(a) {
      SameMergeable(a, b);
      if a != [] {
        SameOuters(a, b);
        OutersOk(a, Parse(a[0]).value.nEvents);
        AnyOrder(Outers(a), Outers(b), Parse(a[0]).value.nEvents);
        SummaryIsTotal(Merged(a).value.value, Merged(b).value.value);
      }
    }
  }
}
