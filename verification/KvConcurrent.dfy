/** Size under concurrent writers. A Size call visits the shards one after the other and holds
    one shard lock at a time; puts, and other Size calls, may come between any two visits. */
module KvConcurrent {
  import opened Text
  import opened KvStore

  /** A Size call that has visited the shards below `next`, and when it was called. */
  datatype Scan = Scan(next: nat, total: nat, since: nat)

  datatype Action = Put(key: string, value: string) | CallSize(tid: nat) | Visit(tid: nat)

  datatype World = World(table: Table, scans: map<nat, Scan>, moment: nat)

  ghost function Step(place: string -> nat, w: World, a: Action): (v: World)
    requires Places(place, |w.table|)
    ensures |v.table| == |w.table|
  {
    var v := w.(moment := w.moment + 1);
    match a
    case Put(k, x) => v.(table := PutIn(place, w.table, k, x))
    case CallSize(t) => v.(scans := w.scans[t := Scan(0, 0, w.moment)])
    case Visit(t) =>
      if t in w.scans && w.scans[t].next < |w.table| then
        var s := w.scans[t];
        v.(scans := w.scans[t := Scan(s.next + 1, s.total + |w.table[s.next]|, s.since)])
      else v
  }

  ghost function Exec(place: string -> nat, n: nat, run: seq<Action>): (w: World)
    requires Places(place, n)
    ensures |w.table| == n && w.moment == |run|
  {
    if run == [] then World(Empty(n), map[], 0)
    else Step(place, Exec(place, n, run[..|run| - 1]), run[|run| - 1])
  }

  /** The size of the abstract map at a moment of the run. */
  ghost function SizeAt(place: string -> nat, n: nat, run: seq<Action>, m: nat): nat
    requires Places(place, n) && m <= |run|
  {
    |Union(Exec(place, n, run[..m]).table)|
  }

  lemma {:induction false} TableLocated(place: string -> nat, n: nat, run: seq<Action>)
    requires Places(place, n)
    ensures Located(place, Exec(place, n, run).table)
  {
    if run != [] {
      var front := run[..|run| - 1];
      TableLocated(place, n, front);
      var a := run[|run| - 1];
      if a.Put? {
        PutRefines(place, Exec(place, n, front).table, a.key, a.value);
      }
    }
  }

  /** Between two moments the abstract size never shrinks and never jumps. */
  lemma SizeStep(place: string -> nat, n: nat, run: seq<Action>, m: nat)
    requires Places(place, n)
    requires m < |run|
    ensures var before, now := SizeAt(place, n, run, m), SizeAt(place, n, run, m + 1);
      before <= now <= before + 1
  {
    assert run[..m + 1][..m] == run[..m];
    TableLocated(place, n, run[..m]);
    var a, t := run[m], Exec(place, n, run[..m]).table;
    if a.Put? {
      PutRefines(place, t, a.key, a.value);
      PutSize(Union(t), a.key, a.value);
    }
  }

  lemma {:induction false} TotalSizeSplit(t: Table, i: nat)
    requires i < |t|
    ensures TotalSize(t[i..]) == |t[i]| + TotalSize(t[i + 1..])
    decreases |t|
  {
    var front := t[..|t| - 1];
    if i < |front| {
      TotalSizeSplit(front, i);
      assert t[i..][..|t| - i - 1] == front[i..];
      assert t[i + 1..][..|t| - i - 2] == front[i + 1..];
    } else {
      assert t[i..] == [t[i]];
      assert t[i..][..0] == [];
    }
  }

  lemma {:induction false} TotalSizeConcat(a: Table, b: Table)
    ensures TotalSize(a + b) == TotalSize(a) + TotalSize(b)
  {
    if b == [] {
      assert a + b == a;
    } else {
      var front := b[..|b| - 1];
      TotalSizeConcat(a, front);
      assert (a + b)[..|a + b| - 1] == a + front;
    }
  }

  lemma TotalSizeUpdate(t: Table, i: nat, m: map<string, string>)
    requires i < |t|
    ensures TotalSize(t[i := m]) == TotalSize(t) - |t[i]| + |m|
  {
    TotalSizeConcat(t[..i], t[i..]);
    TotalSizeConcat(t[..i], t[i := m][i..]);
    assert t == t[..i] + t[i..];
    assert t[i := m] == t[..i] + t[i := m][i..];
    TotalSizeSplit(t, i);
    TotalSizeSplit(t[i := m], i);
    assert t[i := m][i + 1..] == t[i + 1..];
  }

  /** What a Size call in progress has seen, bracketed: its total so far plus the shards it has
      still to visit is at least the size when it was called, and its total so far is at most
      the current size of the shards it has visited. */
  ghost predicate Bracketed(atCall: nat, table: Table, s: Scan) {
    && s.next <= |table|
    && atCall <= s.total + TotalSize(table[s.next..])
    && s.total <= TotalSize(table[..s.next])
  }

  lemma GrowsBy(place: string -> nat, t: Table, k: string, x: string, i: nat)
    requires Places(place, |t|) && i <= |t|
    ensures var u := PutIn(place, t, k, x);
      && TotalSize(t[..i]) <= TotalSize(u[..i])
      && TotalSize(t[i..]) <= TotalSize(u[i..])
  {
    var j := place(k);
    var m := t[j][k := x];
    PutSize(t[j], k, x);
    var u := PutIn(place, t, k, x);
    if j < i {
      TotalSizeUpdate(t[..i], j, m);
      assert u[..i] == t[..i][j := m];
      assert u[i..] == t[i..];
    } else {
      TotalSizeUpdate(t[i..], j - i, m);
      assert u[..i] == t[..i];
      assert u[i..] == t[i..][j - i := m];
    }
  }

  lemma CallIsBracketed(place: string -> nat, table: Table, since: nat)
    requires Located(place, table)
    ensures Bracketed(|Union(table)|, table, Scan(0, 0, since))
  {
    SizeIsCardinality(place, table);
    assert table[0..] == table;
  }

  lemma VisitKeepsBracket(atCall: nat, t: Table, s: Scan)
    requires Bracketed(atCall, t, s) && s.next < |t|
    ensures Bracketed(atCall, t, Scan(s.next + 1, s.total + |t[s.next]|, s.since))
  {
    TotalSizeSplit(t, s.next);
    assert t[..s.next + 1][..s.next] == t[..s.next];
  }

  /** One step keeps every bracket, for any size `atCall` the call started from. */
  lemma StepKeepsBracket(place: string -> nat, w: World, a: Action, t: nat, atCall: nat)
    requires Places(place, |w.table|) && t in w.scans && a != CallSize(t)
    requires Bracketed(atCall, w.table, w.scans[t])
    ensures var v := Step(place, w, a);
      t in v.scans && v.scans[t].since == w.scans[t].since && Bracketed(atCall, v.table, v.scans[t])
  {
    if a.Put? {
      GrowsBy(place, w.table, a.key, a.value, w.scans[t].next);
    } else if a == Visit(t) && w.scans[t].next < |w.table| {
      VisitKeepsBracket(atCall, w.table, w.scans[t]);
    }
  }

  lemma {:induction false} ScanIsBracketed(place: string -> nat, n: nat, run: seq<Action>, t: nat)
    requires Places(place, n)
    requires t in Exec(place, n, run).scans
    ensures var w := Exec(place, n, run);
      var s := w.scans[t];
      s.since <= |run| && Bracketed(SizeAt(place, n, run, s.since), w.table, s)
  {
    var front, a := run[..|run| - 1], run[|run| - 1];
    var w, s := Exec(place, n, front), Exec(place, n, run).scans[t];
    if a == CallSize(t) {
      TableLocated(place, n, front);
      CallIsBracketed(place, w.table, s.since);
      assert run[..|front|] == front;
    } else {
      assert t in w.scans;
      ScanIsBracketed(place, n, front, t);
      var since := w.scans[t].since;
      StepKeepsBracket(place, w, a, t, SizeAt(place, n, front, since));
      assert run[..since] == front[..since];
    }
  }

  /** A sequence of sizes that moves by at most one takes every value in between. */
  lemma {:induction false} IntermediateSize(place: string -> nat, n: nat, run: seq<Action>,
                                            lo: nat, hi: nat, value: nat)
    requires Places(place, n)
    requires lo <= hi <= |run|
    requires SizeAt(place, n, run, lo) <= value <= SizeAt(place, n, run, hi)
    ensures exists m :: lo <= m <= hi && SizeAt(place, n, run, m) == value
    decreases hi - lo
  {
    if SizeAt(place, n, run, lo) == value {
    } else if lo < hi {
      SizeStep(place, n, run, lo);
      IntermediateSize(place, n, run, lo + 1, hi, value);
    }
  }

  /** The shard sizes at a moment, added up at that moment. */
  lemma SizeAtEnd(place: string -> nat, n: nat, run: seq<Action>)
    requires Places(place, n)
    ensures SizeAt(place, n, run, |run|) == TotalSize(Exec(place, n, run).table)
  {
    TableLocated(place, n, run);
    SizeIsCardinality(place, Exec(place, n, run).table);
    assert run[..|run|] == run;
  }

  lemma CompleteBracket(atCall: nat, t: Table, s: Scan)
    requires Bracketed(atCall, t, s) && s.next == |t|
    ensures atCall <= s.total <= TotalSize(t)
  {
    assert t[|t|..] == [];
    assert t[..|t|] == t;
  }

  // ----- In terms of the puts of the run -----

  /** The puts of a run, in order. */
  ghost function PutsOf(run: seq<Action>): seq<Write> {
    if run == [] then []
    else
      var before, a := PutsOf(run[..|run| - 1]), run[|run| - 1];
      if a.Put? then before + [Write(a.key, a.value)] else before
  }

  /** No put is lost or made up, whatever Size calls are under way. */
  lemma {:induction false} TableIsAfterPuts(place: string -> nat, n: nat, run: seq<Action>)
    requires Places(place, n)
    ensures Exec(place, n, run).table == After(place, n, PutsOf(run))
  {
    if run != [] {
      var front, a := run[..|run| - 1], run[|run| - 1];
      TableIsAfterPuts(place, n, front);
      if a.Put? {
        var w := Write(a.key, a.value);
        assert (PutsOf(front) + [w])[..|PutsOf(front)|] == PutsOf(front);
      }
    }
  }

  /** How many different keys have been put by a moment of the run. */
  ghost function KeysPut(run: seq<Action>, m: nat): nat
    requires m <= |run|
  {
    |KeysOf(PutsOf(run[..m]))|
  }

  lemma SizeIsKeysPut(place: string -> nat, n: nat, run: seq<Action>, m: nat)
    requires Places(place, n) && m <= |run|
    ensures SizeAt(place, n, run, m) == KeysPut(run, m)
  {
    TableIsAfterPuts(place, n, run[..m]);
    UnionKeys(place, n, PutsOf(run[..m]));
    var u := Union(Exec(place, n, run[..m]).table);
    assert |u.Keys| == |u|;
  }

  // ----- Where a Size call stands -----

  /** The last call of Size by t. */
  ghost function LastCall(run: seq<Action>, t: nat): (r: Option<nat>)
    ensures r.Some? ==> r.value < |run| && run[r.value] == CallSize(t)
    ensures forall j | (if r.Some? then r.value + 1 else 0) <= j < |run| :: run[j] != CallSize(t)
  {
    if run == [] then None
    else if run[|run| - 1] == CallSize(t) then Some(|run| - 1)
    else LastCall(run[..|run| - 1], t)
  }

  /** The visits that t makes after its last call. */
  ghost function VisitsSince(run: seq<Action>, t: nat): nat {
    if run == [] || run[|run| - 1] == CallSize(t) then 0
    else VisitsSince(run[..|run| - 1], t) + (if run[|run| - 1] == Visit(t) then 1 else 0)
  }

  /** A Size call began at its last CallSize, and has visited a shard for each of its visits
      since, as long as there were any. */
  ghost predicate Progress(scans: map<nat, Scan>, n: nat, run: seq<Action>, t: nat) {
    && (t in scans <==> LastCall(run, t).Some?)
    && (t in scans ==>
          && LastCall(run, t) == Some(scans[t].since)
          && scans[t].next == if VisitsSince(run, t) <= n then VisitsSince(run, t) else n)
  }

  lemma {:induction false} ScanProgress(place: string -> nat, n: nat, run: seq<Action>, t: nat)
    requires Places(place, n)
    ensures Progress(Exec(place, n, run).scans, n, run, t)
  {
    if run != [] {
      ScanProgress(place, n, run[..|run| - 1], t);
    }
  }

  lemma ScanIsLinearizable(place: string -> nat, n: nat, run: seq<Action>, t: nat)
    requires Places(place, n)
    requires t in Exec(place, n, run).scans && Exec(place, n, run).scans[t].next == n
    ensures var s := Exec(place, n, run).scans[t];
      && s.since <= |run|
      && SizeAt(place, n, run, s.since) <= s.total <= SizeAt(place, n, run, |run|)
      && exists m :: s.since <= m <= |run| && SizeAt(place, n, run, m) == s.total
  {
    var w := Exec(place, n, run);
    var s := w.scans[t];
    ScanIsBracketed(place, n, run, t);
    SizeAtEnd(place, n, run);
    CompleteBracket(SizeAt(place, n, run, s.since), w.table, s);
    IntermediateSize(place, n, run, s.since, |run|, s.total);
  }

  /** `total` was the number of different keys put at some moment from `since` to the end. */
  ghost predicate Linearizable(run: seq<Action>, since: nat, total: nat) {
    exists m | since <= m <= |run| :: total == KeysPut(run, m)
  }

  /** A Size call about to return, in any interleaving: after a visit to every shard its result is
      the number of different keys put by some moment between its call and now. */
  lemma SizeIsLinearizable(place: string -> nat, n: nat, run: seq<Action>, t: nat)
    requires Places(place, n)
    requires LastCall(run, t).Some? && VisitsSince(run, t) >= n
    ensures t in Exec(place, n, run).scans
    ensures var total := Exec(place, n, run).scans[t].total;
      var since := LastCall(run, t).value;
      && KeysPut(run, since) <= total <= KeysPut(run, |run|)
      && Linearizable(run, since, total)
  {
    ScanProgress(place, n, run, t);
    ScanIsLinearizable(place, n, run, t);
    var s := Exec(place, n, run).scans[t];
    var m :| s.since <= m <= |run| && SizeAt(place, n, run, m) == s.total;
    SizeIsKeysPut(place, n, run, m);
    SizeIsKeysPut(place, n, run, s.since);
    SizeIsKeysPut(place, n, run, |run|);
  }
}
