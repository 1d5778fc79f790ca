/** The sharded key-value store of examples/kv/kv_service.cpp, for an arbitrary hash. */
module KvStore {

  type Table = seq<map<string, string>>

  /** The shard of a key: its hash modulo the number of shards. */
  function Placement(hash: string -> nat, n: nat): string -> nat
    requires n > 0
  {
    (key: string) => hash(key) % n
  }

  /** The only thing the proofs use of a placement. */
  ghost predicate Places(place: string -> nat, n: nat) {
    forall k :: place(k) < n
  }

  lemma PlacementPlaces(hash: string -> nat, n: nat)
    requires n > 0
    ensures Places(Placement(hash, n), n)
  {
  }

  /** Every key lives in the shard it is placed in, and nowhere else. */
  ghost predicate Located(place: string -> nat, t: Table) {
    && Places(place, |t|)
    && forall i, k | 0 <= i < |t| && k in t[i] :: place(k) == i
  }

  /** The one map that the table stands for. */
  ghost function Union(t: Table): map<string, string> {
    if t == [] then map[] else Union(t[..|t| - 1]) + t[|t| - 1]
  }

  ghost function TotalSize(t: Table): nat {
    if t == [] then 0 else TotalSize(t[..|t| - 1]) + |t[|t| - 1]|
  }

  ghost function PutIn(place: string -> nat, t: Table, key: string, value: string): Table
    requires Places(place, |t|)
  {
    t[place(key) := t[place(key)][key := value]]
  }

  lemma {:induction false} UnionHas(t: Table, k: string)
    ensures k in Union(t) <==> exists i :: 0 <= i < |t| && k in t[i]
    ensures k in Union(t) ==> exists i :: 0 <= i < |t| && k in t[i] && Union(t)[k] == t[i][k]
  {
    if t != [] {
      var front := t[..|t| - 1];
      UnionHas(front, k);
      if k in t[|t| - 1] {
      } else if k in Union(front) {
        var i :| 0 <= i < |front| && k in front[i] && Union(front)[k] == front[i][k];
        assert t[i] == front[i];
      } else {
        assert forall i | 0 <= i < |front| :: t[i] == front[i];
      }
    }
  }

  /** Looking a key up in its own shard is looking it up in the union. */
  lemma LookupIsLocal(place: string -> nat, t: Table, k: string)
    requires Located(place, t)
    ensures var shard := t[place(k)];
      && (k in Union(t) <==> k in shard)
      && (k in shard ==> Union(t)[k] == shard[k])
  {
    UnionHas(t, k);
  }

  lemma PutRefines(place: string -> nat, t: Table, key: string, value: string)
    requires Located(place, t)
    ensures Located(place, PutIn(place, t, key, value))
    ensures Union(PutIn(place, t, key, value)) == Union(t)[key := value]
  {
    var u := PutIn(place, t, key, value);
    assert Located(place, u);
    forall k
      ensures k in Union(u) <==> k in Union(t)[key := value]
      ensures k in Union(u) ==> Union(u)[k] == Union(t)[key := value][k]
    {
      LookupIsLocal(place, t, k);
      LookupIsLocal(place, u, k);
    }
  }

  lemma PutSize(m: map<string, string>, key: string, value: string)
    ensures |m| <= |m[key := value]| <= |m| + 1
  {
    assert m[key := value].Keys == m.Keys + {key};
  }

  lemma DisjointSize(a: map<string, string>, b: map<string, string>)
    requires a.Keys !! b.Keys
    ensures |a + b| == |a| + |b|
  {
    assert (a + b).Keys == a.Keys + b.Keys;
    assert |(a + b).Keys| == |a.Keys| + |b.Keys|;
  }

  /** Shards with pairwise disjoint keys. */
  ghost predicate Disjoint(t: Table) {
    forall i, j, k | 0 <= i < j < |t| && k in t[i] :: k !in t[j]
  }

  lemma {:induction false} DisjointTotal(t: Table)
    requires Disjoint(t)
    ensures TotalSize(t) == |Union(t)|
  {
    if t != [] {
      var front, last := t[..|t| - 1], t[|t| - 1];
      DisjointTotal(front);
      forall k | k in Union(front)
        ensures k !in last
      {
        UnionHas(front, k);
      }
      DisjointSize(Union(front), last);
    }
  }

  lemma SizeIsCardinality(place: string -> nat, t: Table)
    requires Located(place, t)
    ensures TotalSize(t) == |Union(t)|
  {
    forall i, j, k | 0 <= i < j < |t| && k in t[i]
      ensures k !in t[j]
    {
      assert place(k) == i;
    }
    DisjointTotal(t);
  }

  // ----- Histories of puts -----

  datatype Write = Write(key: string, value: string)

  ghost function Empty(n: nat): Table {
    seq(n, i => map[])
  }

  ghost function After(place: string -> nat, n: nat, h: seq<Write>): (t: Table)
    requires Places(place, n)
    ensures |t| == n
  {
    if h == [] then Empty(n)
    else
      var w := h[|h| - 1];
      PutIn(place, After(place, n, h[..|h| - 1]), w.key, w.value)
  }

  lemma UnionOfEmpty(t: Table)
    requires forall i | 0 <= i < |t| :: t[i] == map[]
    ensures Union(t) == map[]
  {
    forall k
      ensures k !in Union(t)
    {
      UnionHas(t, k);
    }
  }

  ghost function KeysOf(h: seq<Write>): set<string> {
    set w <- h :: w.key
  }

  lemma {:induction false} UnionKeys(place: string -> nat, n: nat, h: seq<Write>)
    requires Places(place, n)
    ensures var t := After(place, n, h);
      && Located(place, t)
      && Union(t).Keys == KeysOf(h)
  {
    var t := After(place, n, h);
    if h == [] {
      UnionOfEmpty(t);
      assert KeysOf(h) == {};
    } else {
      var front, w := h[..|h| - 1], h[|h| - 1];
      UnionKeys(place, n, front);
      PutRefines(place, After(place, n, front), w.key, w.value);
      assert forall x :: x in h <==> x in front || x == w;
      assert KeysOf(h) == KeysOf(front) + {w.key};
    }
  }

  /** h[i] is the last write to its key. */
  ghost predicate IsLastWrite(h: seq<Write>, i: nat) {
    i < |h| && forall j | i < j < |h| :: h[j].key != h[i].key
  }

  lemma UnionSnoc(place: string -> nat, n: nat, h: seq<Write>)
    requires Places(place, n)
    requires h != []
    ensures var w := h[|h| - 1];
      Union(After(place, n, h)) == Union(After(place, n, h[..|h| - 1]))[w.key := w.value]
  {
    var front, w := h[..|h| - 1], h[|h| - 1];
    UnionKeys(place, n, front);
    PutRefines(place, After(place, n, front), w.key, w.value);
  }

  lemma {:induction false} UnionValue(place: string -> nat, n: nat, h: seq<Write>, i: nat)
    requires Places(place, n)
    requires IsLastWrite(h, i)
    ensures var u := Union(After(place, n, h));
      h[i].key in u && u[h[i].key] == h[i].value
  {
    UnionSnoc(place, n, h);
    if i < |h| - 1 {
      UnionValue(place, n, h[..|h| - 1], i);
    }
  }

  /** After any history a key is found in its shard exactly when it was ever put, with the value
      put last, and the shard sizes add up to the number of distinct keys. */
  lemma ReadsLastWrite(place: string -> nat, n: nat, h: seq<Write>, k: string)
    requires Places(place, n)
    ensures var t := After(place, n, h);
      var shard := t[place(k)];
      && (k in shard <==> k in KeysOf(h))
      && (forall i: nat | IsLastWrite(h, i) && h[i].key == k :: k in shard && shard[k] == h[i].value)
      && TotalSize(t) == |KeysOf(h)|
  {
    var t := After(place, n, h);
    UnionKeys(place, n, h);
    LookupIsLocal(place, t, k);
    SizeIsCardinality(place, t);
    forall i: nat | IsLastWrite(h, i) && h[i].key == k
      ensures k in Union(t) && Union(t)[k] == h[i].value
    {
      UnionValue(place, n, h, i);
    }
  }

  // ----- The object -----

  class Shard {
    var kv: map<string, string>

    constructor ()
      ensures kv == map[]
    {
      kv := map[];
    }
  }

  class ShardedKvStore {
    const hash: string -> nat
    const shards: nat
    const table: seq<Shard>

    ghost function View(): (t: Table)
      reads table
      ensures |t| == |table|
      ensures forall i | 0 <= i < |t| :: t[i] == table[i].kv
    {
      seq(|table|, i requires 0 <= i < |table| reads table => table[i].kv)
    }

    ghost predicate Valid()
      reads table
    {
      && |table| == shards > 0
      && (forall i, j | 0 <= i < j < |table| :: table[i] != table[j])
      && Located(Placement(hash, shards), View())
    }

    /** The abstract map. */
    ghost function Contents(): map<string, string>
      reads table
    {
      Union(View())
    }

    constructor (hash: string -> nat, n: nat)
      ensures Valid() && fresh(table)
      ensures shards == (if n == 0 then 1 else n)
      ensures this.hash == hash
      ensures View() == Empty(shards) && Contents() == map[]
    {
      this.hash := hash;
      var count := if n == 0 then 1 else n;
      var t: seq<Shard> := [];
      for i := 0 to count
        invariant |t| == i && fresh(t)
        invariant forall j | 0 <= j < i :: t[j].kv == map[]
        invariant forall j, k | 0 <= j < k < i :: t[j] != t[k]
      {
        var s := new Shard();
        t := t + [s];
      }
      this.shards := count;
      this.table := t;
      new;
      UnionOfEmpty(View());
      PlacementPlaces(hash, shards);
    }

    method ShardIndex(key: string) returns (i: nat)
      requires shards > 0
      ensures i == Placement(hash, shards)(key) < shards
    {
      i := hash(key) % shards;
    }

    method Put(key: string, value: string)
      requires Valid()
      modifies table
      ensures Valid()
      ensures View() == PutIn(Placement(hash, shards), old(View()), key, value)
      ensures Contents() == old(Contents())[key := value]
    {
      var i := ShardIndex(key);
      PutRefines(Placement(hash, shards), View(), key, value);
      table[i].kv := table[i].kv[key := value];
      assert View() == PutIn(Placement(hash, shards), old(View()), key, value);
    }

    /** `current` is the caller's out_value, which a failed lookup leaves alone. */
    method Get(key: string, current: string) returns (found: bool, value: string)
      requires Valid()
      ensures found <==> key in Contents()
      ensures value == if found then Contents()[key] else current
    {
      var i := ShardIndex(key);
      LookupIsLocal(Placement(hash, shards), View(), key);
      if key !in table[i].kv {
        return false, current;
      }
      return true, table[i].kv[key];
    }

    /** Size with no writer running. */
    method Size() returns (total: nat)
      requires Valid()
      ensures total == |Contents()|
    {
      total := 0;
      for i := 0 to |table|
        invariant total == TotalSize(View()[..i])
      {
        assert View()[..i + 1][..i] == View()[..i];
        total := total + |table[i].kv|;
      }
      assert View()[..|table|] == View();
      SizeIsCardinality(Placement(hash, shards), View());
    }
  }
}
