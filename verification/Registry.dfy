/** The metrics registry of src/core/metrics.cpp: metrics are found by a key text, and the
    theorem is that for decodable names this is as good as finding them by name and labels. */
module Registry {
  import opened Words
  import opened Labels
  import MetricsHistogram

  // ----- What a history of calls leaves behind, for any type of metric -----

  /** A lookup of a metric together with what is then done to it. A use through a reference kept
      from an earlier lookup is a call with that lookup's name and labels. */
  datatype Call<A> = Call(name: string, help: string, labels: seq<Label>, use: A)

  datatype Cell<S> = Cell(help: string, labels: seq<Label>, state: S)

  /** A type of metric: how the call that creates one sets it up, and what a use does to it. */
  datatype Kind<!A, !S> = Kind(create: A -> S, apply: (S, A) -> S)

  function KeyOf<A>(c: Call<A>): string {
    KeyText(c.name, c.labels)
  }

  ghost function Apply<A, S>(kind: Kind<A, S>, m: map<string, Cell<S>>, c: Call<A>): map<string, Cell<S>> {
    var k := KeyOf(c);
    var cell := if k in m then m[k] else Cell(c.help, c.labels, kind.create(c.use));
    m[k := cell.(state := kind.apply(cell.state, c.use))]
  }

  ghost function After<A, S>(kind: Kind<A, S>, h: seq<Call<A>>): map<string, Cell<S>> {
    if h == [] then map[] else Apply(kind, After(kind, h[..|h| - 1]), h[|h| - 1])
  }

  lemma AfterSnoc<A, S>(kind: Kind<A, S>, h: seq<Call<A>>, c: Call<A>)
    ensures After(kind, h + [c]) == Apply(kind, After(kind, h), c)
  {
    assert (h + [c])[..|h|] == h;
  }

  /** `try_emplace`. */
  ghost function Emplaced<S>(m: map<string, Cell<S>>, key: string, cell: Cell<S>): map<string, Cell<S>> {
    if key in m then m else m[key := cell]
  }

  // ----- The same, by identity -----

  predicate Concerns<A>(c: Call<A>, name: string, labels: seq<Label>) {
    c.name == name && c.labels == labels
  }

  /** The calls about one metric, in order. */
  ghost function Own<A>(h: seq<Call<A>>, name: string, labels: seq<Label>): (own: seq<Call<A>>)
  {
    if h == [] then []
    else
      var before := Own(h[..|h| - 1], name, labels);
      if Concerns(h[|h| - 1], name, labels) then before + [h[|h| - 1]] else before
  }

  /** What a metric's own calls make of it, starting from a state. */
  ghost function Used<A, S>(kind: Kind<A, S>, s: S, own: seq<Call<A>>): S {
    if own == [] then s else kind.apply(Used(kind, s, own[..|own| - 1]), own[|own| - 1].use)
  }

  /** The metric that its own calls amount to: set up, and given its help, by the first of them. */
  ghost function OwnCell<A, S>(kind: Kind<A, S>, own: seq<Call<A>>): Cell<S>
    requires own != []
  {
    Cell(own[0].help, own[0].labels, Used(kind, kind.create(own[0].use), own))
  }

  ghost predicate AllDecodable<A>(h: seq<Call<A>>) {
    forall c <- h :: Decodable(c.name, c.labels)
  }

  lemma UsedSnoc<A, S>(kind: Kind<A, S>, s: S, own: seq<Call<A>>, c: Call<A>)
    ensures Used(kind, s, own + [c]) == kind.apply(Used(kind, s, own), c.use)
  {
    assert (own + [c])[..|own|] == own;
  }

  lemma OwnCellSnoc<A, S>(kind: Kind<A, S>, own: seq<Call<A>>, c: Call<A>)
    ensures OwnCell(kind, own + [c]) ==
      var cell := if own == [] then Cell(c.help, c.labels, kind.create(c.use)) else OwnCell(kind, own);
      cell.(state := kind.apply(cell.state, c.use))
  {
    var first := if own == [] then c else own[0];
    assert (own + [c])[0] == first;
    UsedSnoc(kind, kind.create(first.use), own, c);
  }

  /** For decodable names the string-keyed registry is a registry keyed by name and labels: a
      metric exists once it was named, with the first caller's help and labels, and it is in
      the state that its own calls alone put it in, whatever was done to others. */
  lemma {:induction false} RegistryRefines<A, S>(kind: Kind<A, S>, h: seq<Call<A>>, name: string, labels: seq<Label>)
    requires AllDecodable(h) && Decodable(name, labels)
    ensures var m, k, own := After(kind, h), KeyText(name, labels), Own(h, name, labels);
      && (k in m <==> own != [])
      && (k in m ==> m[k] == OwnCell(kind, own) && m[k].labels == labels)
  {
    if h != [] {
      var front, c := h[..|h| - 1], h[|h| - 1];
      RegistryRefines(kind, front, name, labels);
      KeyIsInjective(c.name, c.labels, name, labels);
      if Concerns(c, name, labels) {
        OwnCellSnoc(kind, Own(front, name, labels), c);
      } else {
        assert KeyOf(c) != KeyText(name, labels);
      }
    }
  }

  lemma {:induction false} OwnConcern<A>(h: seq<Call<A>>, name: string, labels: seq<Label>)
    ensures forall c <- Own(h, name, labels) :: Concerns(c, name, labels) && c in h
    ensures forall c <- h :: Concerns(c, name, labels) ==> c in Own(h, name, labels)
  {
    if h != [] {
      OwnConcern(h[..|h| - 1], name, labels);
    }
  }

  // ----- Counters -----

  /** `counter.Inc(amount)`; a mere lookup has amount 0. */
  function Counters(): Kind<int, int> {
    Kind((amount: int) => 0, (value: int, amount: int) => AddSigned64(value, amount))
  }

  ghost function Increased(m: map<string, Cell<int>>, key: string, amount: int): map<string, Cell<int>>
    requires key in m
  {
    m[key := m[key].(state := AddSigned64(m[key].state, amount))]
  }

  ghost function Total(own: seq<Call<int>>): int {
    if own == [] then 0 else Total(own[..|own| - 1]) + own[|own| - 1].use
  }

  /** A plain sum of amounts: it adds up part by part, and each call counts once. */
  lemma {:induction false} TotalConcat(a: seq<Call<int>>, b: seq<Call<int>>)
    ensures Total(a + b) == Total(a) + Total(b)
    ensures |b| == 1 ==> Total(b) == b[0].use
  {
    if b == [] {
      assert a + b == a;
    } else {
      TotalConcat(a, b[..|b| - 1]);
      assert (a + b)[..|a + b| - 1] == a + b[..|b| - 1];
    }
  }

  lemma {:induction false} CounterIsTotal(own: seq<Call<int>>)
    ensures Used(Counters(), 0, own) == Signed64(Total(own))
  {
    if own != [] {
      CounterIsTotal(own[..|own| - 1]);
      AddThenWrap(Total(own[..|own| - 1]), own[|own| - 1].use);
    }
  }

  lemma {:induction false} CellsInRange(h: seq<Call<int>>)
    ensures forall k <- After(Counters(), h) :: Signed64(After(Counters(), h)[k].state) == After(Counters(), h)[k].state
  {
    if h != [] {
      CellsInRange(h[..|h| - 1]);
    }
  }

  /** A lookup creates what is missing and changes nothing else. */
  lemma CounterLookup(h: seq<Call<int>>, c: Call<int>)
    requires c.use == 0
    ensures After(Counters(), h + [c]) ==
      Emplaced(After(Counters(), h), KeyOf(c), Cell(c.help, c.labels, 0))
  {
    AfterSnoc(Counters(), h, c);
    CellsInRange(h);
  }

  lemma CounterUse(h: seq<Call<int>>, c: Call<int>)
    requires KeyOf(c) in After(Counters(), h)
    ensures After(Counters(), h + [c]) == Increased(After(Counters(), h), KeyOf(c), c.use)
  {
    AfterSnoc(Counters(), h, c);
  }

  // ----- Histograms -----

  /** The bounds that a lookup brings along, and what is then observed. */
  datatype Observing = Observing(bounds: seq<real>, seen: seq<real>)

  datatype HistogramState = HistogramState(buckets: seq<real>, observations: seq<real>)

  function Histograms(): Kind<Observing, HistogramState> {
    Kind((use: Observing) => NewHistogram(use.bounds),
         (s: HistogramState, use: Observing) => s.(observations := s.observations + use.seen))
  }

  function NewHistogram(bounds: seq<real>): HistogramState {
    HistogramState(MetricsHistogram.Sort(bounds), [])
  }

  ghost function Observed(m: map<string, Cell<HistogramState>>, key: string, seen: seq<real>): map<string, Cell<HistogramState>>
    requires key in m
  {
    var cell := m[key];
    m[key := cell.(state := HistogramState(cell.state.buckets, cell.state.observations + seen))]
  }

  ghost function Seen(own: seq<Call<Observing>>): seq<real> {
    if own == [] then [] else Seen(own[..|own| - 1]) + own[|own| - 1].use.seen
  }

  lemma {:induction false} HistogramSeesAll(s: HistogramState, own: seq<Call<Observing>>)
    requires s.observations == []
    ensures Used(Histograms(), s, own) == HistogramState(s.buckets, Seen(own))
  {
    if own != [] {
      HistogramSeesAll(s, own[..|own| - 1]);
    }
  }

  lemma HistogramUse(h: seq<Call<Observing>>, c: Call<Observing>)
    requires KeyOf(c) in After(Histograms(), h)
    ensures After(Histograms(), h + [c]) == Observed(After(Histograms(), h), KeyOf(c), c.use.seen)
  {
    AfterSnoc(Histograms(), h, c);
  }

  lemma NothingSeen(s: HistogramState, bounds: seq<real>)
    ensures Histograms().apply(s, Observing(bounds, [])) == s
  {
    assert s.observations + [] == s.observations;
  }

  lemma HistogramLookup(h: seq<Call<Observing>>, c: Call<Observing>)
    requires c.use.seen == []
    ensures After(Histograms(), h + [c]) ==
      Emplaced(After(Histograms(), h), KeyOf(c), Cell(c.help, c.labels, NewHistogram(c.use.bounds)))
  {
    AfterSnoc(Histograms(), h, c);
    var m := After(Histograms(), h);
    var s := if KeyOf(c) in m then m[KeyOf(c)].state else Histograms().create(c.use);
    NothingSeen(s, c.use.bounds);
    assert c.use == Observing(c.use.bounds, []);
  }

  // ----- The objects -----

  class Counter {
    var value: int

    constructor ()
      ensures value == 0
    {
      value := 0;
    }

    method Inc(amount: int)
      modifies this
      ensures value == AddSigned64(old(value), amount)
      ensures FitsSigned64(old(value) + amount) ==> value == old(value) + amount
    {
      SignedIsCongruent(value + amount);
      value := AddSigned64(value, amount);
    }
  }

  datatype Entry<T> = Entry(help: string, labels: seq<Label>, metric: T)

  class MetricsRegistry {
    var counters: map<string, Entry<Counter>>
    var histograms: map<string, Entry<MetricsHistogram.Histogram>>
    ghost var counterCalls: seq<Call<int>>
    ghost var histogramCalls: seq<Call<Observing>>

    ghost function CounterObjects(): set<object>
      reads this`counters
    {
      set k | k in counters :: counters[k].metric
    }

    ghost function HistogramObjects(): set<MetricsHistogram.Histogram>
      reads this`histograms
    {
      set k | k in histograms :: histograms[k].metric
    }

    ghost function HistogramArrays(): set<array<uint64>>
      reads this`histograms
    {
      set k | k in histograms :: histograms[k].metric.bucketCounts
    }

    /** Different keys never share a counter. */
    ghost predicate DistinctCounters()
      reads this`counters
    {
      forall k, k' | k in counters && k' in counters && k != k' ::
        counters[k].metric != counters[k'].metric
    }

    ghost predicate DistinctHistograms()
      reads this`histograms
    {
      forall k, k' | k in histograms && k' in histograms && k != k' ::
        && histograms[k].metric != histograms[k'].metric
        && histograms[k].metric.bucketCounts != histograms[k'].metric.bucketCounts
    }

    ghost predicate ShowsCounter(k: string, cell: Cell<int>)
      requires k in counters
      reads this`counters, counters[k].metric
    {
      Cell(counters[k].help, counters[k].labels, counters[k].metric.value) == cell
    }

    ghost predicate ShowsHistogram(k: string, cell: Cell<HistogramState>)
      requires k in histograms
      reads this`histograms, histograms[k].metric, histograms[k].metric.bucketCounts
    {
      var e := histograms[k];
      && e.metric.Valid()
      && Cell(e.help, e.labels, HistogramState(e.metric.buckets, e.metric.observations)) == cell
    }

    /** The entries are exactly these cells. */
    ghost predicate CountersShow(m: map<string, Cell<int>>)
      reads this`counters, CounterObjects()
    {
      && DistinctCounters()
      && counters.Keys == m.Keys
      && forall k <- counters :: ShowsCounter(k, m[k])
    }

    ghost predicate HistogramsShow(m: map<string, Cell<HistogramState>>)
      reads this`histograms, HistogramObjects(), HistogramArrays()
    {
      && DistinctHistograms()
      && histograms.Keys == m.Keys
      && forall k <- histograms :: ShowsHistogram(k, m[k])
    }

    /** The entries are what the calls so far leave behind. The two types of metric are kept
        apart: no method below touches what the other type's validity reads. */
    ghost predicate ValidCounters()
      reads this`counters, this`counterCalls, CounterObjects()
    {
      CountersShow(After(Counters(), counterCalls))
    }

    ghost predicate ValidHistograms()
      reads this`histograms, this`histogramCalls, HistogramObjects(), HistogramArrays()
    {
      HistogramsShow(After(Histograms(), histogramCalls))
    }

    constructor ()
      ensures ValidCounters() && ValidHistograms() && counterCalls == [] && histogramCalls == []
      ensures counters == map[] && histograms == map[]
    {
      counters, histograms := map[], map[];
      counterCalls, histogramCalls := [], [];
    }

    /** `find` and, when the key is not there, `try_emplace`. */
    method FindOrEmplace(key: string, help: string, labels: seq<Label>, ghost m: map<string, Cell<int>>)
      returns (c: Counter)
      requires CountersShow(m)
      modifies this`counters
      ensures CountersShow(Emplaced(m, key, Cell(help, labels, 0)))
      ensures key in counters && c == counters[key].metric
      ensures key in old(counters) ==> counters == old(counters)
      ensures key !in old(counters) ==>
        fresh(c) && counters == old(counters)[key := Entry(help, labels, c)]
    {
      if key in counters {
        return counters[key].metric;
      }
      c := new Counter();
      assert c !in CounterObjects();
      counters := counters[key := Entry(help, labels, c)];
    }

    method CounterMetric(name: string, help: string, labels: seq<Label>) returns (c: Counter)
      requires ValidCounters()
      modifies this`counters, this`counterCalls
      ensures ValidCounters() && counterCalls == old(counterCalls) + [Call(name, help, labels, 0)]
      ensures KeyText(name, labels) in counters && c == counters[KeyText(name, labels)].metric
      ensures KeyText(name, labels) in old(counters) ==> counters == old(counters)
      ensures KeyText(name, labels) !in old(counters) ==>
        fresh(c) && counters == old(counters)[KeyText(name, labels) := Entry(help, labels, c)]
    {
      var key := Key(name, labels);
      CounterLookup(counterCalls, Call(name, help, labels, 0));
      c := FindOrEmplace(key, help, labels, After(Counters(), counterCalls));
      RememberCounter(Call(name, help, labels, 0));
    }

    ghost method RememberCounter(call: Call<int>)
      requires CountersShow(After(Counters(), counterCalls + [call]))
      modifies this`counterCalls
      ensures ValidCounters() && counterCalls == old(counterCalls) + [call]
    {
      counterCalls := counterCalls + [call];
    }

    method IncEntry(c: Counter, amount: int, ghost key: string, ghost m: map<string, Cell<int>>)
      requires CountersShow(m) && key in m && c == counters[key].metric
      modifies c
      ensures CountersShow(Increased(m, key, amount))
    {
      assert ShowsCounter(key, m[key]);
      c.Inc(amount);
    }

    /** Inc through a reference that an earlier lookup of this metric returned. */
    method IncThrough(c: Counter, amount: int, ghost name: string, ghost labels: seq<Label>)
      requires ValidCounters()
      requires KeyText(name, labels) in counters && c == counters[KeyText(name, labels)].metric
      modifies this`counterCalls, c
      ensures ValidCounters() && counterCalls == old(counterCalls) + [Call(name, "", labels, amount)]
    {
      CounterUse(counterCalls, Call(name, "", labels, amount));
      IncEntry(c, amount, KeyText(name, labels), After(Counters(), counterCalls));
      RememberCounter(Call(name, "", labels, amount));
    }

    /** The same for histograms. */
    method FindOrEmplaceHistogram(key: string, help: string, bounds: seq<real>, labels: seq<Label>,
                                  ghost m: map<string, Cell<HistogramState>>)
      returns (h: MetricsHistogram.Histogram)
      requires HistogramsShow(m)
      modifies this`histograms
      ensures HistogramsShow(Emplaced(m, key, Cell(help, labels, NewHistogram(bounds))))
      ensures key in histograms && h == histograms[key].metric
      ensures key in old(histograms) ==> histograms == old(histograms)
      ensures key !in old(histograms) ==>
        fresh(h) && fresh(h.bucketCounts) && histograms == old(histograms)[key := Entry(help, labels, h)]
    {
      if key in histograms {
        return histograms[key].metric;
      }
      h := new MetricsHistogram.Histogram(bounds);
      EmplaceHistogram(key, Entry(help, labels, h), m);
    }

    method EmplaceHistogram(key: string, e: Entry<MetricsHistogram.Histogram>, ghost m: map<string, Cell<HistogramState>>)
      requires HistogramsShow(m) && key !in histograms
      requires e.metric.Valid() && e.metric !in HistogramObjects() && e.metric.bucketCounts !in HistogramArrays()
      modifies this`histograms
      ensures HistogramsShow(
                m[key := Cell(e.help, e.labels, HistogramState(e.metric.buckets, e.metric.observations))])
      ensures histograms == old(histograms)[key := e]
    {
      histograms := histograms[key := e];
    }

    method HistogramMetric(name: string, help: string, bounds: seq<real>, labels: seq<Label>)
      returns (h: MetricsHistogram.Histogram)
      requires ValidHistograms()
      modifies this`histograms, this`histogramCalls
      ensures ValidHistograms()
      ensures histogramCalls == old(histogramCalls) + [Call(name, help, labels, Observing(bounds, []))]
      ensures KeyText(name, labels) in histograms && h == histograms[KeyText(name, labels)].metric
      ensures KeyText(name, labels) in old(histograms) ==> histograms == old(histograms)
      ensures KeyText(name, labels) !in old(histograms) ==>
        fresh(h) && histograms == old(histograms)[KeyText(name, labels) := Entry(help, labels, h)]
    {
      var key := Key(name, labels);
      HistogramLookup(histogramCalls, Call(name, help, labels, Observing(bounds, [])));
      h := FindOrEmplaceHistogram(key, help, bounds, labels, After(Histograms(), histogramCalls));
      RememberHistogram(Call(name, help, labels, Observing(bounds, [])));
    }

    ghost method RememberHistogram(call: Call<Observing>)
      requires HistogramsShow(After(Histograms(), histogramCalls + [call]))
      modifies this`histogramCalls
      ensures ValidHistograms() && histogramCalls == old(histogramCalls) + [call]
    {
      histogramCalls := histogramCalls + [call];
    }

    method ObserveEntry(h: MetricsHistogram.Histogram, v: real, ghost key: string,
                        ghost m: map<string, Cell<HistogramState>>)
      requires HistogramsShow(m) && key in m && h == histograms[key].metric
      modifies h, h.bucketCounts
      ensures HistogramsShow(Observed(m, key, [v]))
    {
      assert ShowsHistogram(key, m[key]);
      h.Observe(v);
    }

    /** Observe through a reference that an earlier lookup of this metric returned. */
    method ObserveThrough(h: MetricsHistogram.Histogram, v: real, ghost name: string, ghost labels: seq<Label>)
      requires ValidHistograms()
      requires KeyText(name, labels) in histograms && h == histograms[KeyText(name, labels)].metric
      modifies this`histogramCalls, h, h.bucketCounts
      ensures ValidHistograms()
      ensures histogramCalls == old(histogramCalls) + [Call(name, "", labels, Observing([], [v]))]
    {
      HistogramUse(histogramCalls, Call(name, "", labels, Observing([], [v])));
      ObserveEntry(h, v, KeyText(name, labels), After(Histograms(), histogramCalls));
      RememberHistogram(Call(name, "", labels, Observing([], [v])));
    }

    /** For decodable histories the value behind a reference is the sum of that metric's own
        increments, on 64 bits (the plain sum as long as it fits), and the first caller's help
        is kept. */
    lemma CounterMeaning(name: string, labels: seq<Label>)
      requires ValidCounters() && AllDecodable(counterCalls) && Decodable(name, labels)
      requires KeyText(name, labels) in counters
      ensures var e, own := counters[KeyText(name, labels)], Own(counterCalls, name, labels);
        && own != [] && e.help == own[0].help && e.labels == labels
        && e.metric.value == Signed64(Total(own))
        && (FitsSigned64(Total(own)) ==> e.metric.value == Total(own))
    {
      RegistryRefines(Counters(), counterCalls, name, labels);
      CounterIsTotal(Own(counterCalls, name, labels));
      SignedIsCongruent(Total(Own(counterCalls, name, labels)));
    }

    /** For decodable histories a histogram keeps the first caller's bounds, in order, with help
        and labels, and has seen exactly the observations made of that metric. */
    lemma HistogramMeaning(name: string, labels: seq<Label>)
      requires ValidHistograms() && AllDecodable(histogramCalls) && Decodable(name, labels)
      requires KeyText(name, labels) in histograms
      ensures var e, own := histograms[KeyText(name, labels)], Own(histogramCalls, name, labels);
        && own != [] && e.help == own[0].help && e.labels == labels
        && e.metric.buckets == MetricsHistogram.Sort(own[0].use.bounds)
        && e.metric.observations == Seen(own)
    {
      RegistryRefines(Histograms(), histogramCalls, name, labels);
      var own := Own(histogramCalls, name, labels);
      HistogramSeesAll(Histograms().create(own[0].use), own);
    }
  }
}
