/** Traffic Stats batching: points are aggregated per database and retention policy, exported in
    chunks by concurrent goroutines, and sent back to be aggregated again when a write fails.
    InfluxDB is the only exporter, and every export retries. */
module TrafficStats {
  import opened Words

  // A measurement; what is in it does not matter here.
  type Point(==, !new)

  datatype Batch = Batch(db: string, policy: string, points: seq<Point>)

  // The key of the aggregation map.
  function Key(b: Batch): string {
    b.db + b.policy
  }

  /** A goroutine that holds points: a producer or an exporter. Sending on the unbuffered batch
      channel blocks until the main loop receives. */
  datatype Worker =
    | Offering(batch: Batch)                        // a producer, blocked sending a new batch
    | Connecting(batch: Batch)                      // an exporter, about to connect
    | Writing(batch: Batch)                         // an exporter with these points left to write
    | Requeueing(batch: Batch, rest: seq<Point>)    // blocked sending `batch` back, `rest` still to write
    | Ended

  // The main loop's map, the goroutines, and the record of what was produced and written.
  datatype State = State(bps: map<string, Batch>, workers: seq<Worker>, produced: seq<Batch>, written: seq<Batch>)

  datatype Step =
    | Produce(batch: Batch)
    | Receive(i: nat)
    | Publish(order: seq<string>)      // the map's keys, in the order the range visits them
    | Connect(i: nat, ok: bool)
    | Write(i: nat, ok: bool)
    | Finish(i: nat)

  predicate Enabled(s: State, st: Step) {
    match st
    case Produce(_) => true
    case Receive(i) => i < |s.workers| && (s.workers[i].Offering? || s.workers[i].Requeueing?)
    case Publish(order) => Distinct(order) && (forall k | k in order :: k in s.bps) && (forall k | k in s.bps :: k in order)
    case Connect(i, _) => i < |s.workers| && s.workers[i].Connecting?
    case Write(i, _) => i < |s.workers| && s.workers[i].Writing? && s.workers[i].batch.points != []
    case Finish(i) => i < |s.workers| && s.workers[i].Writing? && s.workers[i].batch.points == []
  }

  predicate Distinct(s: seq<string>) {
    forall i, j | 0 <= i < j < |s| :: s[i] != s[j]
  }

  // intMin
  function Min(a: nat, b: nat): nat {
    if a < b then a else b
  }

  // The next chunk to write, and what remains after it.
  function Chunk(max: nat, b: Batch): Batch {
    b.(points := b.points[..Min(max, |b.points|)])
  }

  function Rest(max: nat, b: Batch): Batch {
    b.(points := b.points[Min(max, |b.points|)..])
  }

  // The main loop's handling of a received batch.
  function Aggregate(bps: map<string, Batch>, b: Batch): map<string, Batch> {
    if Key(b) in bps then bps[Key(b) := bps[Key(b)].(points := bps[Key(b)].points + b.points)] else bps[Key(b) := b]
  }

  function Exporters(bps: map<string, Batch>, order: seq<string>): seq<Worker>
    requires forall k | k in order :: k in bps
  {
    if order == [] then [] else [Connecting(bps[order[0]])] + Exporters(bps, order[1..])
  }

  function Apply(max: nat, s: State, st: Step): State
    requires Enabled(s, st)
  {
    match st
    case Produce(b) => s.(workers := s.workers + [Offering(b)], produced := s.produced + [b])
    case Receive(i) =>
      var w := s.workers[i];
      s.(bps := Aggregate(s.bps, w.batch),
         workers := s.workers[i := if w.Offering? then Ended else Writing(w.batch.(points := w.rest))])
    case Publish(order) => s.(bps := map[], workers := s.workers + Exporters(s.bps, order))
    case Connect(i, ok) =>
      var b := s.workers[i].batch;
      s.(workers := s.workers[i := if ok then Writing(b) else Requeueing(b, [])])
    case Write(i, ok) =>
      var b := s.workers[i].batch;
      if ok then s.(workers := s.workers[i := Writing(Rest(max, b))], written := s.written + [Chunk(max, b)])
      else s.(workers := s.workers[i := Requeueing(Chunk(max, b), Rest(max, b).points)])
    case Finish(i) => s.(workers := s.workers[i := Ended])
  }

  // ---------- where the points are ----------

  /** A point as it is accounted for: with the database and policy it belongs to, or, when
      `routed` is false, on its own. */
  datatype Tag = Tag(db: string, policy: string, point: Point)

  function TagOf(routed: bool, db: string, policy: string, p: Point): Tag {
    if routed then Tag(db, policy, p) else Tag("", "", p)
  }

  function Tags(routed: bool, b: Batch): multiset<Tag> {
    TagsOf(routed, b.db, b.policy, b.points)
  }

  function TagsOf(routed: bool, db: string, policy: string, points: seq<Point>): multiset<Tag> {
    multiset(Tagged(routed, db, policy, points))
  }

  function Tagged(routed: bool, db: string, policy: string, points: seq<Point>): (tags: seq<Tag>)
    ensures |tags| == |points|
    ensures forall i | 0 <= i < |points| :: tags[i] == TagOf(routed, db, policy, points[i])
  {
    seq(|points|, i requires 0 <= i < |points| => TagOf(routed, db, policy, points[i]))
  }

  function InBatches(routed: bool, bs: seq<Batch>): multiset<Tag> {
    if bs == [] then multiset{} else InBatches(routed, bs[..|bs| - 1]) + Tags(routed, bs[|bs| - 1])
  }

  function Holding(routed: bool, w: Worker): multiset<Tag> {
    match w
    case Offering(b) => Tags(routed, b)
    case Connecting(b) => Tags(routed, b)
    case Writing(b) => Tags(routed, b)
    case Requeueing(b, rest) => Tags(routed, b) + TagsOf(routed, b.db, b.policy, rest)
    case Ended => multiset{}
  }

  function InWorkers(routed: bool, ws: seq<Worker>): multiset<Tag> {
    if ws == [] then multiset{} else Holding(routed, ws[0]) + InWorkers(routed, ws[1..])
  }

  ghost function InMap(routed: bool, bps: map<string, Batch>): multiset<Tag> {
    if bps == map[] then multiset{}
    else
      var k :| k in bps;
      Tags(routed, bps[k]) + InMap(routed, bps - {k})
  }

  // Every produced point is in exactly one place: aggregated, held by a goroutine, or written.
  ghost predicate Conserved(routed: bool, s: State) {
    InBatches(routed, s.produced) == InMap(routed, s.bps) + InWorkers(routed, s.workers) + InBatches(routed, s.written)
  }

  // ---------- sums ----------

  // If replacing `h` by `h'` turns `a` into `a'`, and `h'` is `h` without `x`, then `a'` is `a` without `x`.
  lemma Moved(a: multiset<Tag>, a': multiset<Tag>, h: multiset<Tag>, h': multiset<Tag>, x: multiset<Tag>)
    requires a' + h == a + h' && h == h' + x
    ensures a == a' + x
  {
    forall t ensures a[t] == a'[t] + x[t] {
      assert (a' + h)[t] == (a + h')[t];
    }
  }

  lemma TagsConcat(routed: bool, db: string, policy: string, a: seq<Point>, b: seq<Point>)
    ensures TagsOf(routed, db, policy, a + b) == TagsOf(routed, db, policy, a) + TagsOf(routed, db, policy, b)
  {
    hide TagOf;
    assert Tagged(routed, db, policy, a + b) == Tagged(routed, db, policy, a) + Tagged(routed, db, policy, b);
  }

  lemma {:induction false} WorkersUpdate(routed: bool, ws: seq<Worker>, i: nat, w: Worker)
    requires i < |ws|
    ensures InWorkers(routed, ws[i := w]) + Holding(routed, ws[i]) == InWorkers(routed, ws) + Holding(routed, w)
  {
    hide Holding;
    if i == 0 {
      assert ws[i := w][1..] == ws[1..];
    } else {
      assert ws[i := w][1..] == ws[1..][i - 1 := w];
      WorkersUpdate(routed, ws[1..], i - 1, w);
      Regroup(Holding(routed, ws[0]), InWorkers(routed, ws[1..][i - 1 := w]), Holding(routed, ws[i]),
              InWorkers(routed, ws[1..]), Holding(routed, w));
    }
  }

  lemma Regroup(x: multiset<Tag>, a: multiset<Tag>, b: multiset<Tag>, c: multiset<Tag>, d: multiset<Tag>)
    requires a + b == c + d
    ensures (x + a) + b == (x + c) + d
  {
    assert (x + a) + b == x + (a + b);
    assert (x + c) + d == x + (c + d);
  }

  lemma {:induction false} WorkersConcat(routed: bool, a: seq<Worker>, b: seq<Worker>)
    ensures InWorkers(routed, a + b) == InWorkers(routed, a) + InWorkers(routed, b)
  {
    if a == [] {
      assert a + b == b;
    } else {
      hide *;
      var w, rest := a[0], a[1..];
      assert a == [w] + rest && a + b == [w] + (rest + b);
      WorkersConcat(routed, rest, b);
      WorkersCons(routed, w, rest);
      WorkersCons(routed, w, rest + b);
      Joins(InWorkers(routed, rest), InWorkers(routed, b), Holding(routed, w));
    }
  }

  // The sum over the map does not depend on the order entries are taken in.
  lemma {:induction false} MapTakes(routed: bool, bps: map<string, Batch>, k: string)
    requires k in bps
    ensures InMap(routed, bps) == Tags(routed, bps[k]) + InMap(routed, bps - {k})
    decreases |bps|
  {
    hide Tags;
    var x :| x in bps && InMap(routed, bps) == Tags(routed, bps[x]) + InMap(routed, bps - {x});
    if x != k {
      MapTakes(routed, bps - {x}, k);
      MapTakes(routed, bps - {k}, x);
      assert bps - {x} - {k} == bps - {k} - {x};
    }
  }

  lemma MapPuts(routed: bool, bps: map<string, Batch>, k: string, b: Batch)
    ensures InMap(routed, bps[k := b]) == Tags(routed, b) + InMap(routed, bps - {k})
  {
    MapTakes(routed, bps[k := b], k);
    assert bps[k := b] - {k} == bps - {k};
  }

  lemma {:induction false} ExportersHold(routed: bool, bps: map<string, Batch>, order: seq<string>)
    requires Distinct(order) && forall k :: k in order <==> k in bps
    ensures InWorkers(routed, Exporters(bps, order)) == InMap(routed, bps)
  {
    hide Tags;
    if order == [] {
      assert bps == map[];
    } else {
      var k, rest := order[0], order[1..];
      assert order == [k] + rest;
      assert k !in rest by { assert forall i | 0 <= i < |rest| :: rest[i] == order[i + 1]; }
      assert Distinct(rest) by { assert forall i | 0 <= i < |rest| :: rest[i] == order[i + 1]; }
      ExportersHold(routed, bps - {k}, rest);
      ExportersSame(bps, bps - {k}, rest);
      assert Exporters(bps, order) == [Connecting(bps[k])] + Exporters(bps - {k}, rest);
      hide InMap, Exporters, Distinct;
      MapTakes(routed, bps, k);
      WorkersCons(routed, Connecting(bps[k]), Exporters(bps - {k}, rest));
    }
  }

  lemma WorkersCons(routed: bool, w: Worker, ws: seq<Worker>)
    ensures InWorkers(routed, [w] + ws) == Holding(routed, w) + InWorkers(routed, ws)
  {
    assert ([w] + ws)[1..] == ws;
  }

  lemma {:induction false} ExportersSame(a: map<string, Batch>, b: map<string, Batch>, order: seq<string>)
    requires forall k | k in order :: k in a && k in b && a[k] == b[k]
    ensures Exporters(a, order) == Exporters(b, order)
  {
    if order != [] {
      ExportersSame(a, b, order[1..]);
    }
  }

  // ---------- every step conserves the points ----------

  // No two of these databases and policies share an aggregation key.
  predicate KeysApart(routes: set<(string, string)>) {
    forall a, b | a in routes && b in routes && a.0 + a.1 == b.0 + b.1 :: a == b
  }

  predicate OnRoute(routes: set<(string, string)>, b: Batch) {
    (b.db, b.policy) in routes
  }

  // Every batch in the system is for one of `routes`, and aggregated under its own key.
  predicate Routed(routes: set<(string, string)>, s: State) {
    && (forall k | k in s.bps :: OnRoute(routes, s.bps[k]) && Key(s.bps[k]) == k)
    && (forall i | 0 <= i < |s.workers| && !s.workers[i].Ended? :: OnRoute(routes, s.workers[i].batch))
  }

  // The environment produces batches for `routes` only.
  predicate StepOnRoute(routes: set<(string, string)>, st: Step) {
    st.Produce? ==> OnRoute(routes, st.batch)
  }

  lemma {:induction false} ExportersOnRoute(routes: set<(string, string)>, bps: map<string, Batch>, order: seq<string>)
    requires forall k | k in order :: k in bps && OnRoute(routes, bps[k])
    ensures forall i | 0 <= i < |Exporters(bps, order)| :: Exporters(bps, order)[i].Connecting? && OnRoute(routes, Exporters(bps, order)[i].batch)
  {
    if order != [] {
      ExportersOnRoute(routes, bps, order[1..]);
    }
  }

  lemma RoutedKept(max: nat, routes: set<(string, string)>, s: State, st: Step)
    requires Routed(routes, s) && Enabled(s, st) && StepOnRoute(routes, st)
    ensures Routed(routes, Apply(max, s, st))
  {
    if st.Publish? {
      ExportersOnRoute(routes, s.bps, st.order);
    }
  }

  // Aggregating adds the batch's points, under its own tag if the keys are apart.
  lemma AggregateHolds(routed: bool, routes: set<(string, string)>, bps: map<string, Batch>, b: Batch)
    requires forall k | k in bps :: OnRoute(routes, bps[k]) && Key(bps[k]) == k
    requires OnRoute(routes, b) && (routed ==> KeysApart(routes))
    ensures InMap(routed, Aggregate(bps, b)) == InMap(routed, bps) + Tags(routed, b)
  {
    hide TagsOf;
    var k := Key(b);
    if k in bps {
      var held := bps[k];
      if routed {
        assert (held.db, held.policy) == (b.db, b.policy);
      }
      SameTags(routed, held, b);
      TagsConcat(routed, held.db, held.policy, held.points, b.points);
      MapTakes(routed, bps, k);
      MapPuts(routed, bps, k, held.(points := held.points + b.points));
    } else {
      MapPuts(routed, bps, k, b);
      assert bps - {k} == bps;
    }
  }

  lemma SameTags(routed: bool, a: Batch, b: Batch)
    requires routed ==> a.db == b.db && a.policy == b.policy
    ensures TagsOf(routed, a.db, a.policy, b.points) == Tags(routed, b)
  {
    assert Tagged(routed, a.db, a.policy, b.points) == Tagged(routed, b.db, b.policy, b.points);
  }

  // Cutting off a chunk loses nothing.
  lemma ChunkHolds(routed: bool, max: nat, b: Batch)
    ensures Tags(routed, Chunk(max, b)) + Tags(routed, Rest(max, b)) == Tags(routed, b)
  {
    var n := Min(max, |b.points|);
    assert b.points == b.points[..n] + b.points[n..];
    TagsConcat(routed, b.db, b.policy, b.points[..n], b.points[n..]);
  }

  lemma BatchesSnoc(routed: bool, bs: seq<Batch>, b: Batch)
    ensures InBatches(routed, bs + [b]) == InBatches(routed, bs) + Tags(routed, b)
  {
  }

  // What a goroutine's step leaves it holding, with what the step wrote, is what it held.
  lemma WorkerKeeps(routed: bool, max: nat, s: State, st: Step)
    requires Enabled(s, st) && (st.Connect? || st.Write? || st.Finish?)
    ensures Holding(routed, s.workers[st.i]) == Holding(routed, Apply(max, s, st).workers[st.i]) + Wrote(routed, max, s, st)
  {
    hide TagsOf, Tags, Chunk, Rest;
    var b := s.workers[st.i].batch;
    EmptyTags(routed, b);
    WriteKeeps(routed, max, b);
    Nothing(Holding(routed, Apply(max, s, st).workers[st.i]));
    if st.Connect? {
      Nothing(Tags(routed, b));
    }
  }

  lemma Nothing(a: multiset<Tag>)
    ensures a + multiset{} == a
  {
  }

  lemma WriteKeeps(routed: bool, max: nat, b: Batch)
    ensures var c, rest := Chunk(max, b), Rest(max, b);
      && Tags(routed, b) == Tags(routed, rest) + Tags(routed, c)
      && Tags(routed, b) == Tags(routed, c) + TagsOf(routed, c.db, c.policy, rest.points)
  {
    ChunkHolds(routed, max, b);
    hide TagsOf;
  }

  // The points a step writes.
  function Wrote(routed: bool, max: nat, s: State, st: Step): multiset<Tag>
    requires Enabled(s, st)
  {
    if st.Write? && st.ok then Tags(routed, Chunk(max, s.workers[st.i].batch)) else multiset{}
  }

  lemma WorkerStepConserves(routed: bool, max: nat, s: State, st: Step)
    requires Conserved(routed, s) && Enabled(s, st) && (st.Connect? || st.Write? || st.Finish?)
    ensures Conserved(routed, Apply(max, s, st))
  {
    hide Tags, Holding, InWorkers, InBatches, InMap, Chunk, Rest;
    var s' := Apply(max, s, st);
    var w, w' := s.workers[st.i], s'.workers[st.i];
    WorkersUpdate(routed, s.workers, st.i, w');
    WorkerKeeps(routed, max, s, st);
    Moved(InWorkers(routed, s.workers), InWorkers(routed, s'.workers), Holding(routed, w), Holding(routed, w'), Wrote(routed, max, s, st));
    if st.Write? && st.ok {
      BatchesSnoc(routed, s.written, Chunk(max, s.workers[st.i].batch));
    }
  }

  lemma EmptyTags(routed: bool, b: Batch)
    ensures TagsOf(routed, b.db, b.policy, []) == multiset{}
    ensures b.points == [] ==> Tags(routed, b) == multiset{}
  {
  }

  lemma ReceiveConserves(routed: bool, max: nat, routes: set<(string, string)>, s: State, st: Step)
    requires Conserved(routed, s) && Routed(routes, s) && (routed ==> KeysApart(routes)) && Enabled(s, st) && st.Receive?
    ensures Conserved(routed, Apply(max, s, st))
  {
    hide TagsOf, InWorkers, InBatches, InMap, Aggregate, KeysApart;
    var s' := Apply(max, s, st);
    var w, w' := s.workers[st.i], s'.workers[st.i];
    WorkersUpdate(routed, s.workers, st.i, w');
    AggregateHolds(routed, routes, s.bps, w.batch);
    assert Holding(routed, w) == Holding(routed, w') + Tags(routed, w.batch);
    Moved(InWorkers(routed, s.workers), InWorkers(routed, s'.workers), Holding(routed, w), Holding(routed, w'), Tags(routed, w.batch));
  }

  lemma StepConserves(routed: bool, max: nat, routes: set<(string, string)>, s: State, st: Step)
    requires Conserved(routed, s) && Routed(routes, s) && (routed ==> KeysApart(routes))
    requires Enabled(s, st) && StepOnRoute(routes, st)
    ensures Conserved(routed, Apply(max, s, st))
  {
    match st
    case Produce(_) => SpawnConserves(routed, max, s, st);
    case Receive(_) => ReceiveConserves(routed, max, routes, s, st);
    case Publish(_) => SpawnConserves(routed, max, s, st);
    case _ => WorkerStepConserves(routed, max, s, st);
  }

  // A step that starts goroutines: they hold the new batch, or what the map held.
  lemma SpawnConserves(routed: bool, max: nat, s: State, st: Step)
    requires Conserved(routed, s) && Enabled(s, st) && (st.Produce? || st.Publish?)
    ensures Conserved(routed, Apply(max, s, st))
  {
    var held, working, written := InMap(routed, s.bps), InWorkers(routed, s.workers), InBatches(routed, s.written);
    if st.Produce? {
      var b := st.batch;
      assert InWorkers(routed, [Offering(b)]) == Tags(routed, b);
      hide InWorkers, InBatches, InMap, Tags;
      WorkersConcat(routed, s.workers, [Offering(b)]);
      BatchesSnoc(routed, s.produced, b);
      Grows(held, working, written, Tags(routed, b));
    } else {
      assert InMap(routed, map[]) == multiset{};
      hide InWorkers, InBatches, InMap, Tags, Exporters;
      WorkersConcat(routed, s.workers, Exporters(s.bps, st.order));
      ExportersHold(routed, s.bps, st.order);
      assert Apply(max, s, st).workers == s.workers + Exporters(s.bps, st.order);
      Grows(multiset{}, working, written, held);
    }
  }

  lemma Grows(a: multiset<Tag>, b: multiset<Tag>, c: multiset<Tag>, x: multiset<Tag>)
    ensures a + (b + x) + c == (a + b + c) + x
    ensures multiset{} + (b + x) + c == x + b + c
  {
  }

  // ---------- whole runs ----------

  ghost predicate IsRun(max: nat, s: State, steps: seq<Step>)
    decreases |steps|
  {
    steps == [] || (Enabled(s, steps[0]) && IsRun(max, Apply(max, s, steps[0]), steps[1..]))
  }

  ghost function After(max: nat, s: State, steps: seq<Step>): State
    requires IsRun(max, s, steps)
    decreases |steps|
  {
    if steps == [] then s else After(max, Apply(max, s, steps[0]), steps[1..])
  }

  const START := State(map[], [], [], [])

  lemma {:induction false} RunConserves(routed: bool, max: nat, routes: set<(string, string)>, s: State, steps: seq<Step>)
    requires Conserved(routed, s) && Routed(routes, s) && (routed ==> KeysApart(routes)) && IsRun(max, s, steps)
    requires forall i | 0 <= i < |steps| :: StepOnRoute(routes, steps[i])
    ensures Conserved(routed, After(max, s, steps)) && Routed(routes, After(max, s, steps))
    decreases |steps|
  {
    if steps != [] {
      hide Conserved, Routed, KeysApart, Apply, Enabled;
      assert StepOnRoute(routes, steps[0]);
      RoutedKept(max, routes, s, steps[0]);
      StepConserves(routed, max, routes, s, steps[0]);
      RunConserves(routed, max, routes, Apply(max, s, steps[0]), steps[1..]);
    }
  }

  // The databases and policies of the batches a run produces.
  function RoutesOf(steps: seq<Step>): set<(string, string)> {
    set i | 0 <= i < |steps| && steps[i].Produce? :: (steps[i].batch.db, steps[i].batch.policy)
  }

  lemma StepsOnRoutes(steps: seq<Step>)
    ensures forall i | 0 <= i < |steps| :: StepOnRoute(RoutesOf(steps), steps[i])
  {
  }

  /** No point is lost or duplicated: at every moment of every run, whichever connections and
      writes fail, each produced point is aggregated, held by one goroutine, or written. */
  lemma PointsConserved(max: nat, steps: seq<Step>)
    requires IsRun(max, START, steps)
    ensures Conserved(false, After(max, START, steps))
  {
    StepsOnRoutes(steps);
    RunConserves(false, max, RoutesOf(steps), START, steps);
  }

  /** And none reaches another database or policy, as long as no two of those in use have the
      same aggregation key. */
  lemma PointsStayOnRoute(max: nat, steps: seq<Step>)
    requires IsRun(max, START, steps) && KeysApart(RoutesOf(steps))
    ensures Conserved(true, After(max, START, steps))
    ensures InBatches(true, After(max, START, steps).written) <= InBatches(true, After(max, START, steps).produced)
  {
    StepsOnRoutes(steps);
    RunConserves(true, max, RoutesOf(steps), START, steps);
  }

  // Of two ways to split a string, one first part is a prefix of the other.
  lemma SplitPrefix(a: string, b: string, c: string, d: string)
    requires a + b == c + d
    ensures a <= c || c <= a
  {
    assert forall i | 0 <= i < |a| :: (a + b)[i] == a[i];
    assert forall i | 0 <= i < |c| :: (c + d)[i] == c[i];
  }

  // Keys are apart when no database name is a proper prefix of another in use.
  lemma PrefixFreeKeysApart(routes: set<(string, string)>)
    requires forall a, b | a in routes && b in routes && a.0 <= b.0 :: a.0 == b.0
    ensures KeysApart(routes)
  {
    forall a, b | a in routes && b in routes && a.0 + a.1 == b.0 + b.1 ensures a == b {
      SplitPrefix(a.0, a.1, b.0, b.1);
      assert a.1 == (a.0 + a.1)[|a.0|..] && b.1 == (b.0 + b.1)[|b.0|..];
    }
  }

  // ---------- keys that clash ----------

  // No run that produces batches for `routes` only ever writes a point to another database or policy.
  ghost predicate NeverMisroutes(max: nat, routes: set<(string, string)>) {
    forall steps | IsRun(max, START, steps) && RoutesOf(steps) <= routes ::
      InBatches(true, After(max, START, steps).written) <= InBatches(true, After(max, START, steps).produced)
  }

  // A batch for `a`, possibly without points, followed by one for `b` before the next publish.
  function ClashSteps(a: (string, string), b: (string, string), p: Point): seq<Step> {
    [Produce(Batch(a.0, a.1, [])), Receive(0), Produce(Batch(b.0, b.1, [p])), Receive(1),
     Publish([a.0 + a.1]), Connect(2, true), Write(2, true)]
  }

  // After four steps the point of `b` is in the batch of `a`.
  function Mixed(a: (string, string), b: (string, string), p: Point): State {
    State(map[a.0 + a.1 := Batch(a.0, a.1, [p])], [Ended, Ended], [Batch(a.0, a.1, []), Batch(b.0, b.1, [p])], [])
  }

  lemma ClashWrites(max: nat, a: (string, string), b: (string, string), p: Point)
    requires max > 0
    ensures var steps, s := ClashSteps(a, b, p)[4..], Mixed(a, b, p);
      && IsRun(max, s, steps)
      && After(max, s, steps).produced == s.produced && After(max, s, steps).written == [Batch(a.0, a.1, [p])]
  {
    hide IsRun, After;
    var k, mixed, s4 := a.0 + a.1, Batch(a.0, a.1, [p]), Mixed(a, b, p);
    var steps := [Publish([k]), Connect(2, true), Write(2, true)];
    var s5 := State(map[], [Ended, Ended, Connecting(mixed)], s4.produced, []);
    var s6 := State(map[], [Ended, Ended, Writing(mixed)], s4.produced, []);
    var s7 := State(map[], [Ended, Ended, Writing(mixed.(points := []))], s4.produced, [mixed]);
    assert ClashSteps(a, b, p)[4..] == steps;
    assert Apply(max, s4, steps[0]) == s5 by { assert Exporters(s4.bps, [k]) == [Connecting(mixed)]; }
    assert Apply(max, s5, steps[1]) == s6;
    assert Apply(max, s6, steps[2]) == s7 by { assert Chunk(max, mixed) == mixed && Rest(max, mixed) == mixed.(points := []); }
    hide Apply;
    RunCons(max, s7, steps[3..]);
    RunCons(max, s6, steps[2..]);
    RunCons(max, s5, steps[1..]);
    RunCons(max, s4, steps);
  }

  lemma ClashRun(max: nat, a: (string, string), b: (string, string), p: Point)
    requires max > 0 && a.0 + a.1 == b.0 + b.1
    ensures IsRun(max, START, ClashSteps(a, b, p))
    ensures After(max, START, ClashSteps(a, b, p)).produced == [Batch(a.0, a.1, []), Batch(b.0, b.1, [p])]
    ensures After(max, START, ClashSteps(a, b, p)).written == [Batch(a.0, a.1, [p])]
  {
    ClashWrites(max, a, b, p);
    hide IsRun, After;
    var first, second, k, steps := Batch(a.0, a.1, []), Batch(b.0, b.1, [p]), a.0 + a.1, ClashSteps(a, b, p);
    var s1 := State(map[], [Offering(first)], [first], []);
    var s2 := State(map[k := first], [Ended], [first], []);
    var s3 := State(map[k := first], [Ended, Offering(second)], [first, second], []);
    assert Apply(max, START, steps[0]) == s1;
    assert Apply(max, s1, steps[1]) == s2;
    assert Apply(max, s2, steps[2]) == s3;
    assert Apply(max, s3, steps[3]) == Mixed(a, b, p) by {
      assert first.points + second.points == [p];
      assert Aggregate(s3.bps, second) == Mixed(a, b, p).bps;
    }
    hide Apply, Key;
    RunCons(max, s3, steps[3..]);
    RunCons(max, s2, steps[2..]);
    RunCons(max, s1, steps[1..]);
    RunCons(max, START, steps);
  }

  lemma RunCons(max: nat, s: State, steps: seq<Step>)
    ensures steps == [] ==> IsRun(max, s, steps) && After(max, s, steps) == s
    ensures steps != [] && Enabled(s, steps[0]) && IsRun(max, Apply(max, s, steps[0]), steps[1..])
        ==> IsRun(max, s, steps) && After(max, s, steps) == After(max, Apply(max, s, steps[0]), steps[1..])
  {
  }

  // Every pair of databases and policies that share a key misroutes a point.
  lemma ClashMisroutes(max: nat, routes: set<(string, string)>, a: (string, string), b: (string, string), p: Point)
    requires max > 0 && a in routes && b in routes && a != b && a.0 + a.1 == b.0 + b.1
    ensures !NeverMisroutes(max, routes)
  {
    var steps := ClashSteps(a, b, p);
    ClashRun(max, a, b, p);
    assert RoutesOf(steps) <= routes;
    hide IsRun, After, ClashSteps, RoutesOf;
    ClashTags(a, b, p);
  }

  lemma ClashTags(a: (string, string), b: (string, string), p: Point)
    requires a != b
    ensures Tag(a.0, a.1, p) in InBatches(true, [Batch(a.0, a.1, [p])])
    ensures Tag(a.0, a.1, p) !in InBatches(true, [Batch(a.0, a.1, []), Batch(b.0, b.1, [p])])
  {
    OneTag(a.0, a.1, p);
    OneTag(b.0, b.1, p);
    EmptyTags(true, Batch(a.0, a.1, []));
    hide *;
    OneBatch(Batch(a.0, a.1, [p]));
    TwoBatches(Batch(a.0, a.1, []), Batch(b.0, b.1, [p]));
    assert Tag(a.0, a.1, p) != Tag(b.0, b.1, p);
  }

  lemma OneBatch(b: Batch)
    ensures InBatches(true, [b]) == Tags(true, b)
  {
    assert InBatches(true, []) == multiset{};
    assert [] + [b] == [b];
    hide *;
    BatchesSnoc(true, [], b);
  }

  lemma TwoBatches(b: Batch, c: Batch)
    ensures InBatches(true, [b, c]) == Tags(true, b) + Tags(true, c)
  {
    hide *;
    assert [b] + [c] == [b, c];
    OneBatch(b);
    BatchesSnoc(true, [b], c);
  }

  lemma OneTag(db: string, policy: string, p: Point)
    ensures Tags(true, Batch(db, policy, [p])) == multiset{Tag(db, policy, p)}
  {
    assert Tagged(true, db, policy, [p]) == [Tag(db, policy, p)];
  }

  /** The exact condition for points to stay with their database and policy: a set of them is
      safe if and only if no two share a key. */
  lemma RoutesSafeIff(max: nat, routes: set<(string, string)>, p: Point)
    requires max > 0
    ensures NeverMisroutes(max, routes) <==> KeysApart(routes)
  {
    if KeysApart(routes) {
      forall steps | IsRun(max, START, steps) && RoutesOf(steps) <= routes
        ensures InBatches(true, After(max, START, steps).written) <= InBatches(true, After(max, START, steps).produced)
      {
        PointsStayOnRoute(max, steps);
      }
    } else {
      var a, b :| a in routes && b in routes && a.0 + a.1 == b.0 + b.1 && a != b;
      ClashMisroutes(max, routes, a, b, p);
    }
  }

  // ---------- creating batches ----------

  // A batch without points, as its creation leaves it.
  datatype Header = Header(db: string, precision: string, policy: string)

  // NewBatchPoints; `isUnit` tells which durations "1" + precision can be parsed.
  function NewBatchPoints(h: Header, isUnit: string -> bool): Option<Header> {
    var precision := if h.precision == "" then "ns" else h.precision;
    if isUnit("1" + precision) then Some(h.(precision := precision)) else None
  }

  /** A chunk's batch is created from the fields of a batch that was itself created: that cannot
      fail, and gives the same database, policy and precision. */
  lemma ChunkCreated(h: Header, b: Header, isUnit: string -> bool)
    requires NewBatchPoints(h, isUnit) == Some(b)
    ensures NewBatchPoints(b, isUnit) == Some(b)
  {
  }

  // ---------- one export ----------

  // The chunks an export writes, in order.
  function Chunks(max: nat, b: Batch): seq<Batch>
    requires max > 0
    decreases |b.points|
  {
    if b.points == [] then [] else [Chunk(max, b)] + Chunks(max, Rest(max, b))
  }

  // The chunks whose write succeeds, or fails; `n` is the number of the first one's write.
  function Picked(chunks: seq<Batch>, ok: nat -> bool, n: nat, want: bool): seq<Batch> {
    if chunks == [] then []
    else (if ok(n) == want then [chunks[0]] else []) + Picked(chunks[1..], ok, n + 1, want)
  }

  /** The k-th chunk carries the points from k * max on: full chunks, then what is left, all with
      the batch's own database and policy. */
  lemma ChunkAt(max: nat, b: Batch, k: nat)
    requires max > 0
    ensures k < |Chunks(max, b)| <==> k * max < |b.points|
    ensures k < |Chunks(max, b)| ==> Chunks(max, b)[k] == b.(points := b.points[k * max..Min(k * max + max, |b.points|)])
  {
    ChunkFrom(max, b, k);
    OffsetIs(max, k);
  }

  // k * max, as the loop reaches it.
  function Offset(max: nat, k: nat): nat {
    if k == 0 then 0 else Offset(max, k - 1) + max
  }

  lemma {:induction false} OffsetIs(max: nat, k: nat)
    ensures Offset(max, k) == k * max
  {
    if k > 0 {
      OffsetIs(max, k - 1);
      assert (k - 1) * max + max == k * max;
    }
  }

  // The points from `at` on, at most `max` of them.
  function Slice(max: nat, points: seq<Point>, at: nat): seq<Point> {
    if at < |points| then points[at..Min(at + max, |points|)] else []
  }

  lemma {:induction false} ChunkFrom(max: nat, b: Batch, k: nat)
    requires max > 0
    ensures k < |Chunks(max, b)| <==> Offset(max, k) < |b.points|
    ensures k < |Chunks(max, b)| ==> Chunks(max, b)[k] == b.(points := Slice(max, b.points, Offset(max, k)))
    decreases k
  {
    ChunksStep(max, b);
    if b.points != [] {
      if k == 0 {
        FirstChunk(max, b);
        hide *;
      } else {
        RestOf(max, b, k);
        hide *;
        ChunkFrom(max, Rest(max, b), k - 1);
        ChunkShifts(max, b.points, Offset(max, k - 1));
        ConsAt(Chunk(max, b), Chunks(max, Rest(max, b)), k);
      }
    }
  }

  lemma FirstChunk(max: nat, b: Batch)
    requires b.points != []
    ensures Chunk(max, b) == b.(points := Slice(max, b.points, 0)) && Offset(max, 0) == 0
  {
  }

  lemma RestOf(max: nat, b: Batch, k: nat)
    requires k > 0
    ensures Rest(max, b) == b.(points := b.points[Min(max, |b.points|)..]) && Offset(max, k) == Offset(max, k - 1) + max
    ensures Min(max, |b.points|) <= |b.points|
  {
  }

  lemma ConsAt(c: Batch, rest: seq<Batch>, k: nat)
    requires k > 0
    ensures k < |[c] + rest| <==> k - 1 < |rest|
    ensures k - 1 < |rest| ==> ([c] + rest)[k] == rest[k - 1]
  {
  }

  lemma ChunkShifts(max: nat, points: seq<Point>, at: nat)
    ensures var rest := points[Min(max, |points|)..];
      (at < |rest| <==> at + max < |points|) && Slice(max, rest, at) == Slice(max, points, at + max)
  {
    var rest := points[Min(max, |points|)..];
    if at < |rest| {
      var a, b := Slice(max, rest, at), Slice(max, points, at + max);
      assert |a| == |b|;
      forall i | 0 <= i < |a| ensures a[i] == b[i] {
        assert a[i] == rest[at + i] == points[max + at + i] == b[i];
      }
    }
  }

  lemma ChunksStep(max: nat, b: Batch)
    requires max > 0
    ensures Chunks(max, b) == if b.points == [] then [] else [Chunk(max, b)] + Chunks(max, Rest(max, b))
  {
  }

  /** sendMetrics: `connected` says whether a client was found, `ok(n)` whether the n-th write
      succeeds. What it sends back on the batch channel is in `requeued`. */
  method SendMetrics(max: nat, b: Batch, retry: bool, connected: bool, ok: nat -> bool) returns (written: seq<Batch>, requeued: seq<Batch>)
    requires max > 0
    ensures !connected ==> written == [] && requeued == if retry then [b] else []
    ensures connected ==> written == Picked(Chunks(max, b), ok, 0, true)
    ensures connected ==> requeued == if retry then Picked(Chunks(max, b), ok, 0, false) else []
  {
    written, requeued := [], [];
    if !connected {
      if retry {
        requeued := [b];
      }
      return;
    }
    var pts, n := b.points, 0;
    hide Picked, Chunks;
    while |pts| > 0
      invariant Picked(Chunks(max, b), ok, 0, true) == written + Picked(Chunks(max, b.(points := pts)), ok, n, true)
      invariant retry ==> Picked(Chunks(max, b), ok, 0, false) == requeued + Picked(Chunks(max, b.(points := pts)), ok, n, false)
      invariant !retry ==> requeued == []
    {
      var chunk := b.(points := pts[..Min(max, |pts|)]);
      PickedStep(max, b.(points := pts), ok, n, true, written);
      PickedStep(max, b.(points := pts), ok, n, false, requeued);
      pts := pts[Min(max, |pts|)..];
      if ok(n) {
        written := written + [chunk];
      } else if retry {
        requeued := requeued + [chunk];
      }
      n := n + 1;
    }
    NonePicked(max, b.(points := pts), ok, n);
  }

  // One round of the loop moves the next chunk to the list it belongs to.
  lemma PickedStep(max: nat, b: Batch, ok: nat -> bool, n: nat, want: bool, before: seq<Batch>)
    requires max > 0 && b.points != []
    ensures before + Picked(Chunks(max, b), ok, n, want)
         == (if ok(n) == want then before + [Chunk(max, b)] else before) + Picked(Chunks(max, Rest(max, b)), ok, n + 1, want)
  {
    hide Chunks, Picked, Chunk, Rest;
    PickedHead(max, b, ok, n, want);
  }

  lemma PickedHead(max: nat, b: Batch, ok: nat -> bool, n: nat, want: bool)
    requires max > 0 && b.points != []
    ensures var rest := Picked(Chunks(max, Rest(max, b)), ok, n + 1, want);
      Picked(Chunks(max, b), ok, n, want) == if ok(n) == want then [Chunk(max, b)] + rest else rest
  {
    ChunksStep(max, b);
    hide Chunks, Chunk, Rest;
    PickedCons(Chunks(max, b), ok, n, want);
  }

  lemma PickedCons(chunks: seq<Batch>, ok: nat -> bool, n: nat, want: bool)
    requires chunks != []
    ensures var rest := Picked(chunks[1..], ok, n + 1, want);
      Picked(chunks, ok, n, want) == if ok(n) == want then [chunks[0]] + rest else rest
  {
  }

  lemma NonePicked(max: nat, b: Batch, ok: nat -> bool, n: nat)
    requires max > 0 && b.points == []
    ensures Picked(Chunks(max, b), ok, n, true) == Picked(Chunks(max, b), ok, n, false) == []
  {
  }

  // An export that connects and retries splits its points between those written and those sent back.
  lemma ExportConserves(max: nat, b: Batch, ok: nat -> bool)
    requires max > 0
    ensures InBatches(true, Picked(Chunks(max, b), ok, 0, true)) + InBatches(true, Picked(Chunks(max, b), ok, 0, false)) == Tags(true, b)
  {
    ChunksHold(max, b);
    PickedSplits(Chunks(max, b), ok, 0);
  }

  lemma {:induction false} ChunksHold(max: nat, b: Batch)
    requires max > 0
    ensures InBatches(true, Chunks(max, b)) == Tags(true, b)
    decreases |b.points|
  {
    EmptyTags(true, b);
    if b.points != [] {
      ChunksHold(max, Rest(max, b));
      ChunkHolds(true, max, b);
      hide Tags, Chunk, Rest;
      BatchesCons(Chunk(max, b), Chunks(max, Rest(max, b)));
    }
  }

  lemma {:induction false} BatchesCons(b: Batch, bs: seq<Batch>)
    ensures InBatches(true, [b] + bs) == Tags(true, b) + InBatches(true, bs)
  {
    hide Tags;
    if bs == [] {
      assert [b] + bs == [] + [b];
      BatchesSnoc(true, [], b);
    } else {
      var n := |bs| - 1;
      BatchesCons(b, bs[..n]);
      assert ([b] + bs)[..|bs|] == [b] + bs[..n];
    }
  }

  lemma Joins(a: multiset<Tag>, b: multiset<Tag>, x: multiset<Tag>)
    ensures (x + a) + b == x + (a + b) && a + (x + b) == x + (a + b)
  {
  }

  lemma {:induction false} PickedSplits(chunks: seq<Batch>, ok: nat -> bool, n: nat)
    ensures InBatches(true, Picked(chunks, ok, n, true)) + InBatches(true, Picked(chunks, ok, n, false)) == InBatches(true, chunks)
    decreases |chunks|
  {
    if chunks != [] {
      hide *;
      var c, rest := chunks[0], chunks[1..];
      assert chunks == [c] + rest;
      PickedSplits(rest, ok, n + 1);
      PickedCons(chunks, ok, n, true);
      PickedCons(chunks, ok, n, false);
      SplitCons(c, Picked(rest, ok, n + 1, true), Picked(rest, ok, n + 1, false), rest);
    }
  }

  lemma SplitCons(c: Batch, yes: seq<Batch>, no: seq<Batch>, rest: seq<Batch>)
    requires InBatches(true, yes) + InBatches(true, no) == InBatches(true, rest)
    ensures InBatches(true, [c] + yes) + InBatches(true, no) == InBatches(true, [c] + rest)
    ensures InBatches(true, yes) + InBatches(true, [c] + no) == InBatches(true, [c] + rest)
  {
    hide *;
    BatchesCons(c, yes);
    BatchesCons(c, no);
    BatchesCons(c, rest);
    Joins(InBatches(true, yes), InBatches(true, no), Tags(true, c));
  }

  // ---------- an export among other goroutines ----------

  // The outcomes of goroutine `i`'s writes in a run.
  function Oks(steps: seq<Step>, i: nat): seq<bool> {
    if steps == [] then []
    else if steps[0].Write? && steps[0].i == i then [steps[0].ok] + Oks(steps[1..], i)
    else Oks(steps[1..], i)
  }

  // What goroutine `i` writes, and what the main loop receives from it.
  ghost function WrittenBy(max: nat, s: State, steps: seq<Step>, i: nat): seq<Batch>
    requires IsRun(max, s, steps)
    decreases |steps|
  {
    if steps == [] then []
    else
      var rest := WrittenBy(max, Apply(max, s, steps[0]), steps[1..], i);
      if steps[0].Write? && steps[0].i == i && steps[0].ok then [Chunk(max, s.workers[i].batch)] + rest else rest
  }

  ghost function SentBackBy(max: nat, s: State, steps: seq<Step>, i: nat): seq<Batch>
    requires IsRun(max, s, steps)
    decreases |steps|
  {
    if steps == [] then []
    else
      var rest := SentBackBy(max, Apply(max, s, steps[0]), steps[1..], i);
      if steps[0].Receive? && steps[0].i == i then [s.workers[i].batch] + rest else rest
  }

  // Whether goroutine `i` connects when it tries.
  function Connects(steps: seq<Step>, i: nat): bool {
    steps != [] && if steps[0].Connect? && steps[0].i == i then steps[0].ok else Connects(steps[1..], i)
  }

  // `ok` tells the outcomes from write number `n` on.
  predicate Tells(ok: nat -> bool, n: nat, oks: seq<bool>) {
    forall k | 0 <= k < |oks| :: ok(n + k) == oks[k]
  }

  // What an exporter in state `w` has left to write and to send back, as sendMetrics does it.
  predicate Due(max: nat, w: Worker, ok: nat -> bool, n: nat, connects: bool, written: seq<Batch>, back: seq<Batch>)
    requires max > 0
  {
    match w
    case Offering(_) => true
    case Connecting(b) =>
      if connects then written == Picked(Chunks(max, b), ok, n, true) && back == Picked(Chunks(max, b), ok, n, false)
      else written == [] && back == [b]
    case Writing(b) => written == Picked(Chunks(max, b), ok, n, true) && back == Picked(Chunks(max, b), ok, n, false)
    case Requeueing(c, rest) =>
      var b := c.(points := rest);
      written == Picked(Chunks(max, b), ok, n, true) && back == [c] + Picked(Chunks(max, b), ok, n, false)
    case Ended => written == [] && back == []
  }

  // Steps of others leave a goroutine alone.
  lemma Unmoved(max: nat, s: State, st: Step, i: nat)
    requires Enabled(s, st) && i < |s.workers| && (st.Produce? || st.Publish? || st.i != i)
    ensures i < |Apply(max, s, st).workers| && Apply(max, s, st).workers[i] == s.workers[i]
  {
  }

  // What is due before a write is its chunk and what is due after it.
  lemma DueWrite(max: nat, b: Batch, ok: nat -> bool, n: nat, connects: bool, written: seq<Batch>, back: seq<Batch>)
    requires max > 0 && b.points != []
    requires Due(max, if ok(n) then Writing(Rest(max, b)) else Requeueing(Chunk(max, b), Rest(max, b).points), ok, n + 1, connects, written, back)
    ensures Due(max, Writing(b), ok, n, connects, if ok(n) then [Chunk(max, b)] + written else written, back)
  {
    PickedHead(max, b, ok, n, true);
    PickedHead(max, b, ok, n, false);
    assert Chunk(max, b).(points := Rest(max, b).points) == Rest(max, b);
    hide Picked, Chunks, Chunk, Rest;
  }

  lemma DueOther(max: nat, s: State, st: Step, ok: nat -> bool, n: nat, connects: bool, written: seq<Batch>, back: seq<Batch>)
    requires max > 0 && Enabled(s, st) && (st.Connect? || st.Receive? || st.Finish?) && !s.workers[st.i].Offering?
    requires Due(max, Apply(max, s, st).workers[st.i], ok, n, connects, written, back)
    ensures Due(max, s.workers[st.i], ok, n, if st.Connect? then st.ok else connects, written,
                if st.Receive? then [s.workers[st.i].batch] + back else back)
  {
    var b := s.workers[st.i].batch;
    NonePicked(max, b.(points := []), ok, n);
    assert st.Finish? ==> b == b.(points := []);
    hide Picked, Chunks, Aggregate;
  }

  /** sendMetrics with retry, among all other goroutines: in any run in which an exporter comes to
      its end, whatever else happens in between, it writes exactly the chunks whose writes
      succeed, and the main loop receives from it exactly the others, each in order; or the whole
      batch if it does not connect. */
  lemma {:induction false} ExportRefines(max: nat, s: State, steps: seq<Step>, i: nat, ok: nat -> bool, n: nat)
    requires max > 0 && IsRun(max, s, steps) && i < |s.workers| && !s.workers[i].Offering?
    requires i < |After(max, s, steps).workers| && After(max, s, steps).workers[i].Ended? && Tells(ok, n, Oks(steps, i))
    ensures Due(max, s.workers[i], ok, n, Connects(steps, i), WrittenBy(max, s, steps, i), SentBackBy(max, s, steps, i))
    decreases |steps|
  {
    if steps != [] {
      var st, rest := steps[0], steps[1..];
      var s' := Apply(max, s, st);
      var w', b' := WrittenBy(max, s', rest, i), SentBackBy(max, s', rest, i);
      hide Due, Picked, Chunks, Tells;
      if st.Produce? || st.Publish? || st.i != i {
        Unmoved(max, s, st, i);
        ExportRefines(max, s', rest, i, ok, n);
      } else if st.Write? {
        TellsNext(ok, n, steps, i);
        ExportRefines(max, s', rest, i, ok, n + 1);
        DueWrite(max, s.workers[i].batch, ok, n, Connects(rest, i), w', b');
      } else {
        ExportRefines(max, s', rest, i, ok, n);
        DueOther(max, s, st, ok, n, Connects(rest, i), w', b');
      }
    }
  }

  lemma TellsNext(ok: nat -> bool, n: nat, steps: seq<Step>, i: nat)
    requires steps != [] && steps[0].Write? && steps[0].i == i && Tells(ok, n, Oks(steps, i))
    ensures ok(n) == steps[0].ok && Tells(ok, n + 1, Oks(steps[1..], i))
  {
    var oks, rest := Oks(steps, i), Oks(steps[1..], i);
    assert oks[0] == steps[0].ok;
    forall k | 0 <= k < |rest| ensures ok(n + 1 + k) == rest[k] {
      assert oks[k + 1] == rest[k];
      assert ok(n + (k + 1)) == oks[k + 1];
    }
  }

  // A received batch goes behind what is held for its key, under the database and policy held there.
  lemma AggregateAppends(bps: map<string, Batch>, b: Batch)
    ensures var r := Aggregate(bps, b); var k := b.db + b.policy;
      && r.Keys == bps.Keys + {k} && (forall x | x in bps && x != k :: r[x] == bps[x])
      && (k !in bps ==> r[k] == b)
      && (k in bps ==> bps[k].points <= r[k].points && r[k].points[|bps[k].points|..] == b.points
                       && r[k].db == bps[k].db && r[k].policy == bps[k].policy)
  {
  }

  lemma {:induction false} ExportersSnoc(bps: map<string, Batch>, order: seq<string>, k: string)
    requires k in bps && forall x | x in order :: x in bps
    ensures Exporters(bps, order + [k]) == Exporters(bps, order) + [Connecting(bps[k])]
  {
    if order != [] {
      assert (order + [k])[1..] == order[1..] + [k];
      ExportersSnoc(bps, order[1..], k);
    }
  }

  // ---------- the main loop's map ----------

  class Collector {
    var bps: map<string, Batch>

    constructor ()
      ensures bps == START.bps
    {
      bps := map[];
    }

    // The arm for a received batch: a Receive step's change to the map.
    method Receive(b: Batch)
      modifies this
      ensures bps == Aggregate(old(bps), b)
    {
      var key := b.db + b.policy;
      if key in bps {
        var bp := bps[key];
        ghost var held := bp.points;
        for i := 0 to |b.points|
          invariant bp == bps[key].(points := held + b.points[..i])
        {
          bp := bp.(points := bp.points + [b.points[i]]);
        }
        assert b.points[..|b.points|] == b.points;
        bps := bps[key := bp];
      } else {
        bps := bps[key := b];
      }
    }

    // The arm for the publish timer: a Publish step's change, taking the keys in some order.
    method Publish() returns (started: seq<Worker>, order: seq<string>)
      modifies this
      ensures Distinct(order) && forall k :: k in order <==> k in old(bps)
      ensures started == Exporters(old(bps), order) && bps == map[]
    {
      started, order := [], [];
      while bps != map[]
        invariant Distinct(order) && forall k :: k in old(bps) <==> k in order || k in bps
        invariant forall k | k in bps :: k !in order && bps[k] == old(bps)[k]
        invariant started == Exporters(old(bps), order)
        decreases |bps|
      {
        var key :| key in bps;
        ExportersSnoc(old(bps), order, key);
        started, order := started + [Connecting(bps[key])], order + [key];
        bps := bps - {key};
      }
    }
  }
}
