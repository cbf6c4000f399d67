/** The active-learning loop: simulation, training, active learning and the stop check, in this
    order, over one shared store.

    Only lengths, keys and the order of accesses are kept of the Python tasks. */
module ActiveLearning {
  import opened MetaData
  import opened Simulation
  import opened WorkflowKeys
  import opened Wrappers

  const N_QUERY: nat := 8

  /** What a training task computes: a model, and its mean squared error by its bits. */
  datatype Fit = Fit(model: nat, mse: nat)

  // The store at the task boundaries, and while a task runs.

  /** All ranks' vectors of iteration `i` are published, with one length. */
  predicate SimulatedAt(s: Store, n: nat, i: nat, len: nat) {
    forall r :: 0 <= r < n ==> Published(s, r, i) && s[Data(SimX(r, i))] == Vector(len)
  }

  predicate TrainedAt(s: Store, i: nat, fit: Fit) {
    && Lookup(s, Data(Model(i))) == Some(Blob(fit.model))
    && Lookup(s, Data(Mse(i))) == Some(Real(fit.mse))
    && Lookup(s, Meta(Mse(i))) == Some(ScalarRecord(FLOAT64))
  }

  predicate QueriedAt(s: Store, i: nat) {
    && Lookup(s, Data(Query(i))) == Some(Vector(N_QUERY))
    && Lookup(s, Meta(Query(i))) == Some(VectorRecord(N_QUERY))
  }

  /** The number of samples each rank publishes at iteration `i`. */
  function SampleCount(i: nat): nat {
    if i == 0 then SAMPLES_PER_RANK else N_QUERY + SAMPLES_PER_RANK
  }

  /** Task boundaries: `sims` launches, `models` models (with the given fits), `queries` query sets and
      `checks` checks are complete. */
  ghost predicate Boundary(s: Store, n: nat, sims: nat, models: nat, queries: nat, checks: nat, fits: nat -> Fit) {
    && 0 < n
    && CountIs(s, SimCount, sims) && CountIs(s, ModelCount, models) && CountIs(s, MseCount, checks)
    && (forall i: nat :: i < sims ==> SimulatedAt(s, n, i, SampleCount(i)))
    && (forall i: nat :: i < models ==> TrainedAt(s, i, fits(i)))
    && (forall i: nat :: i < queries ==> QueriedAt(s, i))
  }

  lemma SimulatedIsPublished(s: Store, n: nat, i: nat, len: nat, r: nat)
    requires SimulatedAt(s, n, i, len) && r < n
    ensures Published(s, r, i)
  {
  }

  /** A launch between boundaries is ready, and its ranks draw equally many samples. */
  lemma BoundaryIsReady(s: Store, n: nat, k: nat, fits: nat -> Fit)
    requires Boundary(s, n, k, k, k, k, fits)
    ensures LaunchReady(s, n, k) && SampleLength(s, k) == SampleCount(k)
  {
    if 0 < k {
      assert QueriedAt(s, k - 1);
    }
    forall r, i: nat | 0 <= r < n && i < k
      ensures Published(s, r, i)
    {
      assert SimulatedAt(s, n, i, SampleCount(i));
    }
  }

  /** The effect of a launch on a boundary. */
  lemma LaunchBoundary(s: Store, s': Store, n: nat, k: nat, fits: nat -> Fit)
    requires Boundary(s, n, k, k, k, k, fits) && LaunchEffect(s, s', n, k, SampleCount(k))
    ensures Boundary(s', n, k + 1, k, k, k, fits)
  {
    var len := SampleCount(k);
    forall slot: Slot
      ensures Lookup(s', slot) == var cell := LaunchCell(n, k, len, slot);
                                  if cell.Some? then cell else Lookup(s, slot)
    {
    }
    forall i: nat | i < k + 1
      ensures SimulatedAt(s', n, i, SampleCount(i))
    {
      LaunchSimulated(s, s', n, k, i);
    }
    forall i: nat | i < k
      ensures TrainedAt(s', i, fits(i)) && QueriedAt(s', i)
    {
      assert TrainedAt(s, i, fits(i)) && QueriedAt(s, i);
      LaunchKeepsTrained(s, s', n, k, i, fits(i));
    }
    LaunchCounts(s, s', n, k);
  }

  lemma LaunchCounts(s: Store, s': Store, n: nat, k: nat)
    requires LaunchEffect(s, s', n, k, SampleCount(k))
    requires CountIs(s, ModelCount, k) && CountIs(s, MseCount, k)
    ensures CountIs(s', SimCount, k + 1) && CountIs(s', ModelCount, k) && CountIs(s', MseCount, k)
  {
    var len := SampleCount(k);
    assert Lookup(s', Data(SimCount)) == LaunchCell(n, k, len, Data(SimCount));
    assert Lookup(s', Meta(SimCount)) == LaunchCell(n, k, len, Meta(SimCount));
    LaunchKeeps(s, s', n, k, Data(ModelCount));
    LaunchKeeps(s, s', n, k, Meta(ModelCount));
    LaunchKeeps(s, s', n, k, Data(MseCount));
    LaunchKeeps(s, s', n, k, Meta(MseCount));
  }

  lemma LaunchKeeps(s: Store, s': Store, n: nat, k: nat, slot: Slot)
    requires LaunchEffect(s, s', n, k, SampleCount(k)) && !Owned(slot)
    ensures Lookup(s', slot) == Lookup(s, slot)
  {
    assert LaunchCell(n, k, SampleCount(k), slot).None?;
  }

  lemma LaunchKeepsTrained(s: Store, s': Store, n: nat, k: nat, i: nat, fit: Fit)
    requires LaunchEffect(s, s', n, k, SampleCount(k)) && TrainedAt(s, i, fit) && QueriedAt(s, i)
    ensures TrainedAt(s', i, fit) && QueriedAt(s', i)
  {
    LaunchKeeps(s, s', n, k, Data(Model(i)));
    LaunchKeeps(s, s', n, k, Data(Mse(i)));
    LaunchKeeps(s, s', n, k, Meta(Mse(i)));
    LaunchKeeps(s, s', n, k, Data(Query(i)));
    LaunchKeeps(s, s', n, k, Meta(Query(i)));
  }

  lemma LaunchSimulated(s: Store, s': Store, n: nat, k: nat, i: nat)
    requires LaunchEffect(s, s', n, k, SampleCount(k)) && i <= k
    requires i < k ==> SimulatedAt(s, n, i, SampleCount(i))
    ensures SimulatedAt(s', n, i, SampleCount(i))
  {
    forall r | 0 <= r < n
      ensures Published(s', r, i) && s'[Data(SimX(r, i))] == Vector(SampleCount(i))
    {
      var len := SampleCount(k);
      forall slot | slot in [Data(SimX(r, i)), Meta(SimX(r, i)), Data(SimY(r, i)), Meta(SimY(r, i))]
        ensures Lookup(s', slot) == if i == k then LaunchCell(n, k, len, slot) else Lookup(s, slot)
      {
        assert LaunchCell(n, k, len, slot).Some? <==> i == k;
      }
      assert Lookup(s', Data(SimX(r, i))).Some? && Lookup(s', Meta(SimX(r, i))).Some?;
      assert Lookup(s', Data(SimY(r, i))).Some? && Lookup(s', Meta(SimY(r, i))).Some?;
    }
  }

  function WithScalar(s: Store, key: Key, cell: Cell, t: DType): Store {
    s[Meta(key) := ScalarRecord(t)][Data(key) := cell]
  }

  /** The store after the training task of iteration `k`. */
  function AfterTraining(s: Store, k: nat, fit: Fit): Store {
    var counted := WithScalar(s, ModelCount, Count(k + 1), INT32);
    WithScalar(counted[Data(Model(k)) := Blob(fit.model)], Mse(k), Real(fit.mse), FLOAT64)
  }

  /** What a task writes is none of what the simulation published. */
  lemma PublishedKept(s: Store, s': Store, n: nat, i: nat, len: nat)
    requires SimulatedAt(s, n, i, len)
    requires forall slot: Slot :: Owned(slot) ==> Lookup(s', slot) == Lookup(s, slot)
    ensures SimulatedAt(s', n, i, len)
  {
    forall r | 0 <= r < n
      ensures Published(s', r, i) && s'[Data(SimX(r, i))] == Vector(len)
    {
      assert Published(s, r, i);
      assert Lookup(s', Data(SimX(r, i))) == Lookup(s, Data(SimX(r, i)));
      assert Lookup(s', Meta(SimX(r, i))) == Lookup(s, Meta(SimX(r, i)));
      assert Lookup(s', Data(SimY(r, i))) == Lookup(s, Data(SimY(r, i)));
      assert Lookup(s', Meta(SimY(r, i))) == Lookup(s, Meta(SimY(r, i)));
    }
  }

  lemma TrainingBoundary(s: Store, n: nat, k: nat, fits: nat -> Fit)
    requires Boundary(s, n, k + 1, k, k, k, fits)
    ensures Boundary(AfterTraining(s, k, fits(k)), n, k + 1, k + 1, k, k, fits)
  {
    var s' := AfterTraining(s, k, fits(k));
    forall i: nat | i < k + 1
      ensures SimulatedAt(s', n, i, SampleCount(i))
    {
      assert SimulatedAt(s, n, i, SampleCount(i));
      PublishedKept(s, s', n, i, SampleCount(i));
    }
    forall i: nat | i < k + 1
      ensures TrainedAt(s', i, fits(i))
    {
      assert i < k ==> TrainedAt(s, i, fits(i));
    }
    forall i: nat | i < k
      ensures QueriedAt(s', i)
    {
      assert QueriedAt(s, i);
    }
  }

  /** The store after the active-learning task of iteration `k`. */
  function AfterActiveLearn(s: Store, k: nat): Store {
    var queried := s[Meta(Query(k)) := VectorRecord(N_QUERY)][Data(Query(k)) := Vector(N_QUERY)];
    WithScalar(queried, ModelCount, Count(k + 1), INT32)
  }

  lemma ActiveLearnBoundary(s: Store, n: nat, k: nat, fits: nat -> Fit)
    requires Boundary(s, n, k + 1, k + 1, k, k, fits)
    ensures Boundary(AfterActiveLearn(s, k), n, k + 1, k + 1, k + 1, k, fits)
  {
    var s' := AfterActiveLearn(s, k);
    forall i: nat | i < k + 1
      ensures SimulatedAt(s', n, i, SampleCount(i)) && TrainedAt(s', i, fits(i)) && QueriedAt(s', i)
    {
      assert SimulatedAt(s, n, i, SampleCount(i)) && TrainedAt(s, i, fits(i));
      PublishedKept(s, s', n, i, SampleCount(i));
      assert i < k ==> QueriedAt(s, i);
    }
  }

  lemma CheckBoundary(s: Store, n: nat, k: nat, fits: nat -> Fit)
    requires Boundary(s, n, k + 1, k + 1, k + 1, k, fits)
    ensures Boundary(WithScalar(s, MseCount, Count(k + 1), INT32), n, k + 1, k + 1, k + 1, k + 1, fits)
  {
    var s' := WithScalar(s, MseCount, Count(k + 1), INT32);
    forall i: nat | i < k + 1
      ensures SimulatedAt(s', n, i, SampleCount(i)) && TrainedAt(s', i, fits(i)) && QueriedAt(s', i)
    {
      assert SimulatedAt(s, n, i, SampleCount(i)) && TrainedAt(s, i, fits(i)) && QueriedAt(s, i);
      PublishedKept(s, s', n, i, SampleCount(i));
    }
  }

  // What the tasks read.

  /** A counter as a task reads it: one that was never written is zero. */
  function CounterAt(s: Store, key: Key): Result<int> {
    if Data(key) !in s then Ok(0)
    else if Meta(key) !in s then Err(KeyNotFound)
    else if !s[Meta(key)].ScalarRecord? then Err(RankMismatch)
    else if s[Meta(key)] == ScalarRecord(INT32) && s[Data(key)].Count? then Ok(s[Data(key)].n)
    else Err(Undefined)
  }

  lemma CounterReads(s: Store, key: Key, k: nat)
    requires CountIs(s, key, k)
    ensures CounterAt(s, key) == Ok(k)
  {
  }

  /** The latest completed iteration, by the counter `key`. */
  predicate LatestIs(s: Store, key: Key, i: nat) {
    CounterAt(s, key) == Ok(i + 1)
  }

  /** The item `key` is a vector of `len` doubles. */
  predicate VectorAt(s: Store, key: Key, len: nat) {
    Lookup(s, Data(key)) == Some(Vector(len)) && Lookup(s, Meta(key)) == Some(VectorRecord(len))
  }

  /** All ranks' vectors of iteration `i` can be stacked. */
  predicate StacksAt(s: Store, n: nat, i: nat, len: nat) {
    forall r: nat :: r < n ==> VectorAt(s, SimX(r, i), len) && VectorAt(s, SimY(r, i), len)
  }

  /** Training succeeds on the vectors of the latest completed launch, and uses all of them. */
  ghost predicate Trains(s: Store, n: nat, i: nat, len: nat) {
    LatestIs(s, SimCount, i) && StacksAt(s, n, i, len)
  }

  lemma BoundaryTrains(s: Store, n: nat, k: nat, fits: nat -> Fit)
    requires Boundary(s, n, k + 1, k, k, k, fits)
    ensures Trains(s, n, k, SampleCount(k))
  {
    CounterReads(s, SimCount, k + 1);
    assert SimulatedAt(s, n, k, SampleCount(k));
    forall r: nat | r < n
      ensures VectorAt(s, SimX(r, k), SampleCount(k)) && VectorAt(s, SimY(r, k), SampleCount(k))
    {
      SimulatedIsPublished(s, n, k, SampleCount(k), r);
    }
  }

  /** The shared store as the Python tasks use it. */
  class Dict {
    var store: Store

    constructor ()
      ensures store == map[]
    {
      store := map[];
    }

    /** Read a counter, taking one that was never written for zero. */
    method ReadCount(key: Key) returns (r: Result<int>)
      ensures r == CounterAt(store, key)
    {
      if Data(key) !in store {
        return Ok(0);
      }
      if Meta(key) !in store {
        return Err(KeyNotFound);
      }
      var cell, record := store[Data(key)], store[Meta(key)];
      if !record.ScalarRecord? {
        return Err(RankMismatch);
      }
      r := if record == ScalarRecord(INT32) && cell.Count? then Ok(cell.n) else Err(Undefined);
    }

    /** Read a vector of doubles, of which only the length matters. */
    method ReadVector(key: Key) returns (r: Result<nat>)
      ensures forall len: nat :: r == Ok(len) <==> VectorAt(store, key, len)
    {
      if Data(key) !in store || Meta(key) !in store {
        return Err(KeyNotFound);
      }
      var cell, record := store[Data(key)], store[Meta(key)];
      if !record.VectorRecord? {
        return Err(RankMismatch);
      }
      r := if cell.Vector? && cell.len == record.dim then Ok(cell.len) else Err(Undefined);
    }

    /** Read a double. */
    method ReadReal(key: Key) returns (r: Result<nat>)
      ensures forall bits: nat ::
        r == Ok(bits) <==> Lookup(store, Data(key)) == Some(Real(bits))
                           && Lookup(store, Meta(key)) == Some(ScalarRecord(FLOAT64))
    {
      if Data(key) !in store || Meta(key) !in store {
        return Err(KeyNotFound);
      }
      var cell, record := store[Data(key)], store[Meta(key)];
      if !record.ScalarRecord? {
        return Err(RankMismatch);
      }
      r := if cell.Real? && record == ScalarRecord(FLOAT64) then Ok(cell.bits) else Err(Undefined);
    }

    method PutScalar(key: Key, cell: Cell, t: DType)
      modifies this
      ensures store == WithScalar(old(store), key, cell, t)
    {
      store := store[Meta(key) := ScalarRecord(t)];
      store := store[Data(key) := cell];
    }

    /** One launch of the simulation under some schedule of its ranks' accesses. */
    method Simulate(n: nat, events: seq<Event>, ghost k: nat, ghost fits: nat -> Fit)
      returns (finished: bool, failed: bool)
      requires OnlySteps(events)
      modifies this
      ensures old(Boundary(store, n, k, k, k, k, fits)) ==> !failed
      ensures old(Boundary(store, n, k, k, k, k, fits)) && finished ==> Boundary(store, n, k + 1, k, k, k, fits)
    {
      ghost var before := store;
      var c := Play(Begin(store, n), events);
      store := c.store;
      finished := AllFinished(c.ranks);
      failed := exists r :: 0 <= r < |c.ranks| && c.ranks[r].Failed?;
      if Boundary(before, n, k, k, k, k, fits) {
        BoundaryIsReady(before, n, k, fits);
        LaunchCorrect(before, n, k, events);
        HistoryIgnored(before, n, k, events);
        if finished {
          LaunchBoundary(before, store, n, k, fits);
        }
      }
    }

    /** Train on the latest simulated iteration; `fit` is what the training computes. It succeeds
        exactly when the vectors of all ranks are there and of one length, stacks all of them, and
        publishes count, model and error; a failed training publishes nothing. */
    method Training(n: nat, fit: Fit) returns (r: Result<nat>)
      requires 0 < n
      modifies this
      ensures r.Ok? <==> exists i, len :: Trains(old(store), n, i, len)
      ensures forall i, len :: Trains(old(store), n, i, len) ==>
        r == Ok(n * len) && store == AfterTraining(old(store), i, fit)
      ensures r.Err? ==> store == old(store)
    {
      ghost var before := store;
      var count := ReadCount(SimCount);
      if count.Err? {
        return Err(count.error);
      }
      var iteration := count.value - 1;
      if iteration < 0 {
        return Err(KeyNotFound);
      }
      var xParts, yParts: seq<nat> := [], [];
      var total := 0;
      for rank := 0 to n
        invariant store == before && LatestIs(store, SimCount, iteration)
        invariant |xParts| == |yParts| == rank
        invariant forall j: nat :: j < rank ==>
          VectorAt(store, SimX(j, iteration), xParts[j]) && VectorAt(store, SimY(j, iteration), yParts[j])
        invariant forall len: nat :: AllEqual(xParts, len) ==> total == rank * len
      {
        var x := ReadVector(SimX(rank, iteration));
        if x.Err? {
          assert forall len: nat :: !VectorAt(store, SimX(rank, iteration), len);
          return Err(x.error);
        }
        var y := ReadVector(SimY(rank, iteration));
        if y.Err? {
          assert forall len: nat :: !VectorAt(store, SimY(rank, iteration), len);
          return Err(y.error);
        }
        TotalStep(xParts, x.value, total);
        xParts, yParts := xParts + [x.value], yParts + [y.value];
        total := total + x.value;
      }
      if exists j :: 0 <= j < n && (xParts[j] != xParts[0] || yParts[j] != xParts[0]) {
        return Err(RankMismatch);
      }
      assert Trains(store, n, iteration, xParts[0]);
      assert AllEqual(xParts, xParts[0]);
      assert forall len :: StacksAt(store, n, iteration, len) ==> VectorAt(store, SimX(0, iteration), len);
      PutScalar(ModelCount, Count(iteration + 1), INT32);
      store := store[Data(Model(iteration)) := Blob(fit.model)];
      PutScalar(Mse(iteration), Real(fit.mse), FLOAT64);
      r := Ok(total);
    }

    /** Choose the next query points with the latest model, and return that model. */
    method ActiveLearn() returns (r: Result<nat>)
      modifies this
      ensures forall model: nat :: r == Ok(model) <==>
        exists i: nat :: LatestIs(old(store), ModelCount, i)
                         && Lookup(old(store), Data(Model(i))) == Some(Blob(model))
      ensures forall i: nat :: r.Ok? && LatestIs(old(store), ModelCount, i) ==>
        store == AfterActiveLearn(old(store), i)
      ensures r.Err? ==> store == old(store)
    {
      var count := ReadCount(ModelCount);
      if count.Err? {
        return Err(count.error);
      }
      var iteration := count.value - 1;
      if iteration < 0 || Data(Model(iteration)) !in store {
        return Err(KeyNotFound);
      }
      var model := store[Data(Model(iteration))];
      if !model.Blob? {
        return Err(Undefined);
      }
      assert LatestIs(store, ModelCount, iteration);
      store := store[Meta(Query(iteration)) := VectorRecord(N_QUERY)];
      store := store[Data(Query(iteration)) := Vector(N_QUERY)];
      PutScalar(ModelCount, Count(iteration + 1), INT32);
      r := Ok(model.bytes);
    }

    /** Read the MSE of the latest model, and publish the number of checks. */
    method CheckMse() returns (r: Result<nat>)
      modifies this
      ensures forall mse: nat :: r == Ok(mse) <==>
        exists i: nat :: LatestIs(old(store), ModelCount, i)
                         && Lookup(old(store), Data(Mse(i))) == Some(Real(mse))
                         && Lookup(old(store), Meta(Mse(i))) == Some(ScalarRecord(FLOAT64))
      ensures forall i: nat :: r.Ok? && LatestIs(old(store), ModelCount, i) ==>
        store == WithScalar(old(store), MseCount, Count(i + 1), INT32)
      ensures r.Err? ==> store == old(store)
    {
      var count := ReadCount(ModelCount);
      if count.Err? {
        return Err(count.error);
      }
      var iteration := count.value - 1;
      if iteration < 0 {
        return Err(KeyNotFound);
      }
      assert LatestIs(store, ModelCount, iteration);
      r := ReadReal(Mse(iteration));
      if r.Ok? {
        PutScalar(MseCount, Count(iteration + 1), INT32);
      }
    }

    /** Training, active learning and the check after a finished launch: every task finds what it
        reads, the model used is the one just trained, and its error is what the check returns. */
    method LearnAndCheck(n: nat, fit: Fit, ghost k: nat, ghost fits: nat -> Fit)
      returns (trained: Result<nat>, model: Result<nat>, mse: Result<nat>)
      requires Boundary(store, n, k + 1, k, k, k, fits) && fit == fits(k)
      modifies this
      ensures trained == Ok(if k == 0 then n * 8 else n * 16) && model == Ok(fits(k).model) && mse == Ok(fits(k).mse)
      ensures Boundary(store, n, k + 1, k + 1, k + 1, k + 1, fits)
    {
      BoundaryTrains(store, n, k, fits);
      TrainingBoundary(store, n, k, fits);
      trained := Training(n, fit);
      assert TrainedAt(store, k, fits(k));
      CounterReads(store, ModelCount, k + 1);
      ActiveLearnBoundary(store, n, k, fits);
      assert LatestIs(store, ModelCount, k);
      model := ActiveLearn();
      assert TrainedAt(store, k, fits(k));
      CounterReads(store, ModelCount, k + 1);
      CheckBoundary(store, n, k, fits);
      assert LatestIs(store, ModelCount, k);
      mse := CheckMse();
    }

    /** The whole loop, under any schedules of the launches, any results of the trainings and any stop
        criterion: no task ever reads a missing or mismatched item, and the loop stops at the first
        iteration whose own error meets the criterion, or after the last. It only stays behind at a
        launch whose schedule ends before its ranks do. */
    method RunLoop(n: nat, maxIter: nat, schedule: nat -> seq<Event>, fits: nat -> Fit, stop: nat -> bool)
      returns (completed: nat, failed: bool, unfinished: bool)
      requires 0 < n && store == map[]
      requires forall i: nat :: OnlySteps(schedule(i))
      modifies this
      ensures !failed && completed <= maxIter
      ensures forall i: nat :: i + 1 < completed ==> !stop(fits(i).mse)
      ensures !unfinished ==>
        && Boundary(store, n, completed, completed, completed, completed, fits)
        && (completed < maxIter ==> 0 < completed && stop(fits(completed - 1).mse))
    {
      completed, failed, unfinished := 0, false, false;
      while completed < maxIter
        invariant completed <= maxIter && !failed && !unfinished
        invariant Boundary(store, n, completed, completed, completed, completed, fits)
        invariant forall i: nat :: i < completed ==> !stop(fits(i).mse)
      {
        var finished: bool;
        finished, failed := Simulate(n, schedule(completed), completed, fits);
        if failed {
          return;
        }
        if !finished {
          unfinished := true;
          return;
        }
        var trained, model, mse := LearnAndCheck(n, fits(completed), completed, fits);
        completed := completed + 1;
        if stop(mse.value) {
          return;
        }
      }
    }
  }

  predicate AllEqual(parts: seq<nat>, len: nat) {
    forall j :: 0 <= j < |parts| ==> parts[j] == len
  }

  lemma TotalStep(parts: seq<nat>, x: nat, total: nat)
    requires forall len: nat :: AllEqual(parts, len) ==> total == |parts| * len
    ensures forall len: nat :: AllEqual(parts + [x], len) ==> total + x == (|parts| + 1) * len
  {
    forall len: nat | AllEqual(parts + [x], len)
      ensures total + x == (|parts| + 1) * len
    {
      assert (parts + [x])[|parts|] == x;
      assert forall j :: 0 <= j < |parts| ==> parts[j] == (parts + [x])[j];
      assert AllEqual(parts, len);
      assert (|parts| + 1) * len == |parts| * len + len;
    }
  }
}
