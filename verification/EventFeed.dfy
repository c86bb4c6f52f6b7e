/** Feed entries and the run-length view the console draws of them. */
module EventFeed {

  datatype Kind = NodeEntry | StatusTransition | RepairProgress | AuditActivity | CodeSent

  /** The message type is a parameter: collapsing only ever compares messages for equality. */
  datatype Event<M> = Event(at: int, kind: Kind, message: M)

  datatype Collapsed<M> = Collapsed(kind: Kind, message: M, at: int, count: int)

  datatype Label<M> = Label(kind: Kind, message: M)

  function LabelOf<M>(e: Event<M>): Label<M> { Label(e.kind, e.message) }

  function LabelOfRun<M>(r: Collapsed<M>): Label<M> { Label(r.kind, r.message) }

  function Labels<M>(es: seq<Event<M>>): seq<Label<M>> {
    if es == [] then [] else Labels(es[..|es|-1]) + [LabelOf(es[|es|-1])]
  }

  function Repeat<M>(l: Label<M>, n: int): seq<Label<M>> {
    if n <= 0 then [] else Repeat(l, n - 1) + [l]
  }

  function Expand<M>(rs: seq<Collapsed<M>>): seq<Label<M>> {
    if rs == [] then [] else Expand(rs[..|rs|-1]) + Repeat(LabelOfRun(rs[|rs|-1]), rs[|rs|-1].count)
  }

  /** Run lengths are positive and each run carries the time of its last event. */
  ghost predicate Timed<M>(rs: seq<Collapsed<M>>, es: seq<Event<M>>) {
    if rs == [] then es == []
    else
      var r := rs[|rs|-1];
      && 0 < r.count <= |es|
      && r.at == es[|es|-1].at
      && Timed(rs[..|rs|-1], es[..|es|-r.count])
  }

  ghost predicate NoEqualNeighbours<M>(rs: seq<Collapsed<M>>) {
    forall i, j :: 0 <= i && j == i + 1 && j < |rs| ==> LabelOfRun(rs[i]) != LabelOfRun(rs[j])
  }

  /** The run-length encoding of a feed, said without computing it. */
  ghost predicate Encodes<M>(rs: seq<Collapsed<M>>, es: seq<Event<M>>) {
    Expand(rs) == Labels(es) && NoEqualNeighbours(rs) && Timed(rs, es)
  }

  lemma EncodeRepeat<M>(rs: seq<Collapsed<M>>, es: seq<Event<M>>, e: Event<M>)
    requires Encodes(rs, es) && rs != [] && LabelOfRun(rs[|rs|-1]) == LabelOf(e)
    ensures Encodes(rs[|rs|-1 := rs[|rs|-1].(count := rs[|rs|-1].count + 1, at := e.at)], es + [e])
  {
    var n := |rs| - 1;
    var r := rs[n].(count := rs[n].count + 1, at := e.at);
    var rs' := rs[n := r];
    assert rs'[..n] == rs[..n] && (es + [e])[..|es|] == es;
    assert (es + [e])[..|es|+1-r.count] == es[..|es|-rs[n].count];
    assert Repeat(LabelOf(e), r.count) == Repeat(LabelOf(e), rs[n].count) + [LabelOf(e)];
  }

  lemma EncodeFresh<M>(rs: seq<Collapsed<M>>, es: seq<Event<M>>, e: Event<M>)
    requires Encodes(rs, es) && (rs != [] ==> LabelOfRun(rs[|rs|-1]) != LabelOf(e))
    ensures Encodes(rs + [Collapsed(e.kind, e.message, e.at, 1)], es + [e])
  {
    var r := Collapsed(e.kind, e.message, e.at, 1);
    assert (rs + [r])[..|rs|] == rs && (es + [e])[..|es|] == es;
    assert Repeat(LabelOf(e), 1) == [LabelOf(e)];
  }

  method CollapseRepeatedEvents<M(==)>(events: seq<Event<M>>) returns (out: seq<Collapsed<M>>)
    ensures Encodes(out, events)
  {
    out := [];
    for i := 0 to |events|
      invariant Encodes(out, events[..i])
    {
      var e, n := events[i], |out|;
      assert events[..i+1] == events[..i] + [e];
      if n > 0 && out[n-1].kind == e.kind && out[n-1].message == e.message {
        EncodeRepeat(out, events[..i], e);
        out := out[n-1 := out[n-1].(count := out[n-1].count + 1, at := e.at)];
      } else {
        EncodeFresh(out, events[..i], e);
        out := out + [Collapsed(e.kind, e.message, e.at, 1)];
      }
    }
    assert events[..|events|] == events;
  }

  lemma {:induction false} RepeatAt<M>(l: Label<M>, n: nat)
    ensures |Repeat(l, n)| == n && forall i :: 0 <= i < n ==> Repeat(l, n)[i] == l
  {
    if n > 0 { RepeatAt(l, n - 1); }
  }

  lemma {:induction false} LabelsAt<M>(es: seq<Event<M>>)
    ensures |Labels(es)| == |es| && forall i :: 0 <= i < |es| ==> Labels(es)[i] == LabelOf(es[i])
  {
    if es != [] { LabelsAt(es[..|es|-1]); }
  }

  /** The last run covers exactly the last `count` events, and stops at a different one. */
  lemma LastRun<M>(rs: seq<Collapsed<M>>, es: seq<Event<M>>)
    requires Encodes(rs, es) && rs != []
    ensures
      var r := rs[|rs|-1];
      && 0 < r.count <= |es|
      && (forall i :: |es| - r.count <= i < |es| ==> LabelOf(es[i]) == LabelOfRun(r))
      && (r.count < |es| ==> LabelOf(es[|es|-r.count-1]) != LabelOfRun(r))
      && Encodes(rs[..|rs|-1], es[..|es|-r.count])
  {
    var n := |rs| - 1;
    var r := rs[n];
    var m := |es| - r.count;
    LabelsAt(es);
    LabelsAt(es[..m]);
    RepeatAt(LabelOfRun(r), r.count);
    assert |Expand(rs[..n])| == m;
    forall i | 0 <= i < m ensures Expand(rs[..n])[i] == Labels(es[..m])[i] {
      assert Expand(rs[..n])[i] == Expand(rs)[i];
    }
    assert Encodes(rs[..n], es[..m]) by {
      assert forall i, j :: 0 <= i && j == i + 1 && j < n ==> rs[..n][i] == rs[i] && rs[..n][j] == rs[j];
    }
    forall i | m <= i < |es| ensures LabelOf(es[i]) == LabelOfRun(r) {
      assert Expand(rs)[i] == Repeat(LabelOfRun(r), r.count)[i - m];
    }
    if m > 0 {
      assert rs[..n] != [];
      var q := rs[n-1];
      assert q == rs[..n][n-1];
      RepeatAt(LabelOfRun(q), q.count);
      assert Expand(rs[..n])[m-1] == LabelOfRun(q);
    }
  }

  /** Nothing else encodes the feed: collapsing is a function of the feed alone. */
  lemma {:induction false} EncodingIsUnique<M>(a: seq<Collapsed<M>>, b: seq<Collapsed<M>>, es: seq<Event<M>>)
    requires Encodes(a, es) && Encodes(b, es)
    ensures a == b
    decreases |es|
  {
    if a != [] && b != [] {
      var r, q := a[|a|-1], b[|b|-1];
      LastRun(a, es);
      LastRun(b, es);
      assert LabelOfRun(r) == LabelOf(es[|es|-1]) == LabelOfRun(q);
      assert r.count == q.count;
      EncodingIsUnique(a[..|a|-1], b[..|b|-1], es[..|es|-r.count]);
      assert a == a[..|a|-1] + [r] && b == b[..|b|-1] + [q];
    }
  }
}

/** Announcing the lines of an append-only log exactly once, by remembering only how many were read. */
module LogTail {

  /** Lines of this read past the ones already announced. */
  function Unseen<E>(log: seq<E>, seen: nat): seq<E> {
    if |log| > seen then log[seen..] else []
  }

  /** The lines announced over a sequence of reads; the mark is always the last read's length. */
  function Announced<E>(logs: seq<seq<E>>): seq<E> {
    if logs == [] then []
    else
      var n := |logs| - 1;
      Announced(logs[..n]) + Unseen(logs[n], if n == 0 then 0 else |logs[n-1]|)
  }

  /** The longest read so far. */
  function Longest<E>(logs: seq<seq<E>>): seq<E> {
    if logs == [] then []
    else
      var before, last := Longest(logs[..|logs|-1]), logs[|logs|-1];
      if |last| >= |before| then last else before
  }

  /** The log only grows; a read gives some first part of it, none at all when the file cannot be opened. */
  ghost predicate PrefixesOf<E>(logs: seq<seq<E>>, full: seq<E>) {
    forall i :: 0 <= i < |logs| ==> logs[i] <= full
  }

  predicate DipAt<E>(logs: seq<seq<E>>, i: int, j: int, k: int) {
    0 <= i < j < k < |logs| && |logs[j]| < |logs[i]| && |logs[j]| < |logs[k]|
  }

  /** A shorter read stands between two longer ones. */
  ghost predicate Dip<E(!new)>(logs: seq<seq<E>>) {
    exists i, j, k :: DipAt(logs, i, j, k)
  }

  lemma {:induction false} LongestIsARead<E>(logs: seq<seq<E>>) returns (i: int)
    ensures forall j :: 0 <= j < |logs| ==> |logs[j]| <= |Longest(logs)|
    ensures if logs == [] then Longest(logs) == [] else 0 <= i < |logs| && logs[i] == Longest(logs)
  {
    i := |logs| - 1;
    if logs != [] {
      var k := LongestIsARead(logs[..|logs|-1]);
      if |logs[|logs|-1]| < |Longest(logs[..|logs|-1])| { i := k; }
    }
  }

  /** The last read completes a dip exactly when it grows from a read shorter than the longest. */
  lemma DipStep<E(!new)>(logs: seq<seq<E>>)
    requires |logs| > 1
    ensures
      var n := |logs| - 1;
      var init := logs[..n];
      Dip(logs) <==> Dip(init) || (|logs[n]| > |logs[n-1]| && |logs[n-1]| < |Longest(init)|)
  {
    var n := |logs| - 1;
    var init := logs[..n];
    var m := LongestIsARead(init);
    if Dip(init) {
      var i, j, k :| DipAt(init, i, j, k);
      assert DipAt(logs, i, j, k);
    } else {
      if |logs[n]| > |logs[n-1]| && |logs[n-1]| < |Longest(init)| {
        assert init[m] == logs[m] && init[n-1] == logs[n-1];
        assert DipAt(logs, m, n - 1, n);
      }
      if Dip(logs) {
        var i, j, k :| DipAt(logs, i, j, k);
        DipEndsLast(logs, i, j, k);
      }
    }
  }

  lemma DipEndsLast<E(!new)>(logs: seq<seq<E>>, i: int, j: int, k: int)
    requires DipAt(logs, i, j, k) && !Dip(logs[..|logs|-1])
    ensures
      var n := |logs| - 1;
      n > 0 && |logs[n]| > |logs[n-1]| && |logs[n-1]| < |Longest(logs[..n])|
  {
    var n := |logs| - 1;
    var init := logs[..n];
    assert !DipAt(init, i, j, k) && !DipAt(init, i, j, n - 1);
    var m := LongestIsARead(init);
    assert init[i] == logs[i] && init[j] == logs[j] && init[n-1] == logs[n-1];
  }

  /** Growing from a read announces exactly the growth. */
  lemma GrowTail<E>(had: seq<E>, log: seq<E>, full: seq<E>)
    requires had <= full && log <= full
    ensures |log| > |had| ==> had + Unseen(log, |had|) == log
    ensures |log| <= |had| ==> Unseen(log, |had|) == []
    ensures |Unseen(log, |had|)| == if |log| > |had| then |log| - |had| else 0
  {
  }

  lemma AnnouncedNext<E>(logs: seq<seq<E>>)
    requires |logs| > 1
    ensures
      var n := |logs| - 1;
      Announced(logs) == Announced(logs[..n]) + Unseen(logs[n], |logs[n-1]|)
  {
  }

  /**
    Over an append-only log, each line is announced exactly once and in order if and only if no read
    shorter than an earlier one is followed by a longer one: any shorter read rewinds the mark.
   */
  lemma {:induction false} AnnouncedOnceIffNoDip<E(!new)>(logs: seq<seq<E>>, full: seq<E>)
    requires PrefixesOf(logs, full)
    ensures !Dip(logs) ==> Announced(logs) == Longest(logs)
    ensures Dip(logs) ==> |Announced(logs)| > |Longest(logs)|
  {
    if |logs| == 1 {
      assert Longest(logs[..0]) == [] && Announced(logs[..0]) == [];
    } else if |logs| > 1 {
      var n := |logs| - 1;
      var init := logs[..n];
      assert forall j :: 0 <= j < n ==> init[j] == logs[j];
      AnnouncedOnceIffNoDip(init, full);
      AnnouncedNext(logs);
      DipStep(logs);
      GrowTail(logs[n-1], logs[n], full);
      var i := LongestIsARead(init);
      assert init[n-1] == logs[n-1];
      if |logs[n-1]| == |Longest(init)| { SamePrefix(logs[n-1], Longest(init), full); }
    }
  }

  lemma SamePrefix<E>(a: seq<E>, b: seq<E>, full: seq<E>)
    requires a <= full && b <= full && |a| == |b|
    ensures a == b
  {
  }
}
