/** What the two-key protocol guarantees, and exactly when.

    Five promises a caller may expect of a handle, the rules under which its callers may agree to
    work, and for each promise the condition on the rules and on the items put under which it is
    kept by every run. Where the condition fails, a run of two processes breaks the promise. */
module Guarantees {
  import opened ByteCodec
  import opened Calls
  import opened MetaData
  import opened TwoKey
  import opened Wrappers

  /** What the callers agree on: one put or delete at a time, no delete while a put is in progress
      nor the other way round, no deletes at all. */
  datatype Rules = Rules(serialised: bool, exclusive: bool, noDeletes: bool)

  /** The label keeps to the rules and puts only items of `items`. */
  predicate Allowed(c: Config, l: Label, rules: Rules, items: iset<Item>) {
    l.Begin? ==>
      && (l.op.Put? ==> l.op.item in items)
      && (l.op.Delete? ==> !rules.noDeletes)
      && (rules.serialised ==> Serialised(c, l))
      && (rules.exclusive ==> Exclusive(c, l))
  }

  predicate Follows(n: nat, run: seq<Label>, rules: Rules, items: iset<Item>) {
    forall k :: 0 <= k < |run| ==> Allowed(Exec(Init(n), run[..k]), run[k], rules, items)
  }

  /** All items have the same type and shape. */
  ghost predicate OneRecord(items: iset<Item>) {
    forall a, b :: a in items && b in items ==> a.meta == b.meta
  }

  /** Some rule keeps deletes apart from puts. */
  predicate KeepsApart(rules: Rules) {
    rules.serialised || rules.exclusive || rules.noDeletes
  }

  // The promises.

  ghost predicate DataAlwaysHasMetadata(items: iset<Item>, rules: Rules) {
    forall n: nat, run: seq<Label> | Follows(n, run, rules, items) ::
      Exec(Init(n), run).cells.data.Some? ==> Exec(Init(n), run).cells.meta.Some?
  }

  ghost predicate IdlePairIsAlwaysLatest(items: iset<Item>, rules: Rules) {
    forall n: nat, run: seq<Label> | Follows(n, run, rules, items) ::
      NoWriter(Exec(Init(n), run)) ==> HoldsLatest(Exec(Init(n), run).cells)
  }

  /** If the read of process `p` returned a value, it is the item that was current at its own data
      fetch. */
  ghost predicate ReadIsWhole(n: nat, run: seq<Label>, p: nat)
    requires p < n
  {
    var pc := Exec(Init(n), run).procs[p];
    pc.Returned? && pc.outcome.Got? ==> exists k: nat :: OwnFetch(n, run, p, pc.outcome.item, k)
  }

  ghost predicate ReadsAreAlwaysWhole(items: iset<Item>, rules: Rules) {
    forall n: nat, run: seq<Label>, p: nat | p < n && Follows(n, run, rules, items) ::
      ReadIsWhole(n, run, p)
  }

  ghost predicate ReadsAlwaysFindMetadata(items: iset<Item>, rules: Rules) {
    forall n: nat, run: seq<Label>, p: nat | p < n && Follows(n, run, rules, items) ::
      Exec(Init(n), run).procs[p] != Returned(NoMeta)
  }

  ghost predicate WaitsAlwaysFindData(items: iset<Item>, rules: Rules) {
    forall n: nat, run: seq<Label>, p: nat | p < n && Follows(n, run, rules, items) ::
      WaitFindsData(n, run, p)
  }

  /** The wait of process `p`, if its latest call is one, has not ended without data. */
  predicate WaitFindsData(n: nat, run: seq<Label>, p: nat)
    requires p < n
  {
    CallOf(n, run, p).Calling? && CallOf(n, run, p).op.Wait? ==>
      Exec(Init(n), run).procs[p] != Returned(NoData)
  }

  // Following the rules, in the terms of the protocol.

  lemma FollowsRules(n: nat, run: seq<Label>, rules: Rules, items: iset<Item>)
    requires Follows(n, run, rules, items)
    ensures rules.serialised ==> SerialisedRun(Init(n), run)
    ensures KeepsApart(rules) ==> ExclusiveRun(Init(n), run)
    ensures rules.noDeletes ==> NoDeletes(run)
  {
    forall k | 0 <= k < |run|
      ensures rules.serialised ==> Serialised(Exec(Init(n), run[..k]), run[k])
      ensures rules.exclusive ==> Exclusive(Exec(Init(n), run[..k]), run[k])
      ensures rules.noDeletes ==> !(run[k].Begin? && run[k].op.Delete?)
    {
      assert Allowed(Exec(Init(n), run[..k]), run[k], rules, items);
    }
    if rules.serialised {
      SerialisedIsExclusive(Init(n), run);
    }
    if rules.noDeletes {
      UndeletedIsExclusive(n, run);
    }
  }

  lemma FollowsRecord(n: nat, run: seq<Label>, rules: Rules, items: iset<Item>) returns (meta: Bytes)
    requires Follows(n, run, rules, items) && OneRecord(items)
    ensures RecordRun(run, meta)
  {
    meta := if item :| item in items then item.meta else [];
    forall k | 0 <= k < |run|
      ensures RecordLabel(run[k], meta)
    {
      assert Allowed(Exec(Init(n), run[..k]), run[k], rules, items);
    }
  }

  /** Nothing was ever put: deletes and reads alone. */
  predicate NothingPut(c: Config) {
    && c.cells.meta.None? && c.cells.data.None? && c.cells.latest.None?
    && forall p :: 0 <= p < |c.procs| ==>
         !Putting(c.procs[p]) && !c.procs[p].FetchMeta? && c.procs[p] != Returned(NoMeta)
  }

  lemma {:induction false} NoItems(n: nat, run: seq<Label>, rules: Rules)
    requires Follows(n, run, rules, iset{})
    ensures NothingPut(Exec(Init(n), run))
  {
    if run != [] {
      var k := |run| - 1;
      var before := run[..k];
      forall m | 0 <= m < k
        ensures Allowed(Exec(Init(n), before[..m]), before[m], rules, iset{})
      {
        assert before[..m] == run[..m];
      }
      NoItems(n, before, rules);
      assert Allowed(Exec(Init(n), before), run[k], rules, iset{});
    }
  }

  // The runs that break the promises.

  /** A run of two processes that keeps to the rules and ends in these cells and counters. */
  predicate Reaches(run: seq<Label>, s: Cells, a: Pc, b: Pc, rules: Rules, items: iset<Item>) {
    && Exec(Init(2), run).cells == s && Exec(Init(2), run).procs == [a, b]
    && Follows(2, run, rules, items)
  }

  lemma StartRun(rules: Rules, items: iset<Item>)
    ensures Reaches([], EMPTY, Idle, Idle, rules, items)
  {
  }

  lemma Extend(run: seq<Label>, l: Label, c: Config, rules: Rules, items: iset<Item>)
    requires |c.procs| == 2
    requires Reaches(run, c.cells, c.procs[0], c.procs[1], rules, items)
    requires Allowed(c, l, rules, items)
    ensures var c' := Apply(c, l);
            Reaches(run + [l], c'.cells, c'.procs[0], c'.procs[1], rules, items)
  {
    var run' := run + [l];
    var c' := Apply(c, l);
    assert run'[..|run|] == run;
    assert c.procs == [c.procs[0], c.procs[1]];
    assert Exec(Init(2), run) == c;
    assert c'.procs == [c'.procs[0], c'.procs[1]];
    forall k | 0 <= k < |run'|
      ensures Allowed(Exec(Init(2), run'[..k]), run'[k], rules, items)
    {
      if k < |run| {
        assert run'[..k] == run[..k] && run'[k] == run[k];
      }
    }
  }

  /** Process 0 or 1 makes its next access. */
  lemma Go(p: nat, run: seq<Label>, s: Cells, a: Pc, b: Pc, rules: Rules, items: iset<Item>)
    returns (run': seq<Label>)
    requires p < 2 && Reaches(run, s, a, b, rules, items)
    ensures var (s', pc) := Access(s, if p == 0 then a else b);
            Reaches(run', s', if p == 0 then pc else a, if p == 0 then b else pc, rules, items)
  {
    run' := run + [Run(p)];
    Extend(run, Run(p), Config(s, [a, b]), rules, items);
  }

  /** Process 0 or 1 begins an operation. */
  lemma Invoke(p: nat, op: Op, run: seq<Label>, s: Cells, a: Pc, b: Pc, rules: Rules, items: iset<Item>)
    returns (run': seq<Label>)
    requires p < 2 && Free(if p == 0 then a else b) && Reaches(run, s, a, b, rules, items)
    requires Allowed(Config(s, [a, b]), Begin(p, op), rules, items)
    ensures Reaches(run', s, if p == 0 then Start(op) else a, if p == 0 then b else Start(op), rules, items)
  {
    run' := run + [Begin(p, op)];
    Extend(run, Begin(p, op), Config(s, [a, b]), rules, items);
  }

  function Stored(item: Item): Cells {
    Cells(Some(item.meta), Some(item.data), [item], [item], Some(item))
  }

  const ALL: Rules := Rules(true, true, true)
  const DELETING: Rules := Rules(true, true, false)
  const RACING: Rules := Rules(false, true, true)
  const NONE: Rules := Rules(false, false, false)

  /** Process 0 puts `a`. */
  lemma PutStored(a: Item, rules: Rules, items: iset<Item>) returns (run: seq<Label>)
    requires a in items
    ensures Reaches(run, Stored(a), Idle, Idle, rules, items)
  {
    StartRun(rules, items);
    var half := Cells(Some(a.meta), None, [a], [], None);
    run := Invoke(0, Put(a), [], EMPTY, Idle, Idle, rules, items);
    run := Go(0, run, EMPTY, PutMeta(a), Idle, rules, items);
    run := Go(0, run, half, PutData(a), Idle, rules, items);
  }

  /** Process 1 then fetches its data. */
  lemma FetchStored(a: Item, rules: Rules, items: iset<Item>) returns (run: seq<Label>)
    requires a in items
    ensures Reaches(run, Stored(a), Idle, FetchMeta(a.data, 0), rules, items)
  {
    run := PutStored(a, rules, items);
    run := Invoke(1, Get, run, Stored(a), Idle, Idle, rules, items);
    run := Go(1, run, Stored(a), Idle, FetchData, rules, items);
  }

  /** One writer, no deletes, overwriting `a` with `b`: a reader between the two writes of `b` gets
      the data of `a` with the metadata of `b`. */
  lemma ReadDuringOverwrite(a: Item, b: Item) returns (run: seq<Label>)
    ensures Reaches(run, Cells(Some(b.meta), Some(a.data), [a, b], [a], Some(a)),
                    PutData(b), Returned(Got(Item(b.meta, a.data), 0, 1)), ALL, iset{a, b})
  {
    var items := iset{a, b};
    var reader := FetchMeta(a.data, 0);
    var mixed := Cells(Some(b.meta), Some(a.data), [a, b], [a], Some(a));
    run := FetchStored(a, ALL, items);
    run := Invoke(0, Put(b), run, Stored(a), Idle, reader, ALL, items);
    run := Go(0, run, Stored(a), PutMeta(b), reader, ALL, items);
    run := Go(1, run, mixed, PutData(b), reader, ALL, items);
  }

  /** If the two records differ, the value read is no item that was current at any moment. */
  lemma OverwriteCanMixVersions(a: Item, b: Item) returns (run: seq<Label>)
    requires a.meta != b.meta
    ensures Follows(2, run, ALL, iset{a, b})
    ensures Exec(Init(2), run).procs[1] == Returned(Got(Item(b.meta, a.data), 0, 1))
    ensures !ReadIsWhole(2, run, 1)
  {
    run := ReadDuringOverwrite(a, b);
    forall k: nat | k < |run|
      ensures !FetchesCurrent(Exec(Init(2), run[..k]), 1, Item(b.meta, a.data))
    {
      DatasGrow(2, run, k);
    }
  }

  lemma StepGrowsDatas(c: Config, l: Label)
    ensures c.cells.datas <= Apply(c, l).cells.datas
  {
  }

  lemma {:induction false} DatasGrow(n: nat, run: seq<Label>, k: nat)
    requires k <= |run|
    ensures Exec(Init(n), run[..k]).cells.datas <= Exec(Init(n), run).cells.datas
  {
    if k == |run| {
      assert run[..k] == run;
    } else {
      var before := run[..|run| - 1];
      DatasGrow(n, before, k);
      StepGrowsDatas(Exec(Init(n), before), run[|run| - 1]);
      assert before[..k] == run[..k];
    }
  }

  /** Two racing writers of different shapes, no deletes: both finish, and the keys are left holding
      the metadata of one with the data of the other. */
  lemma RacingWritersCanTear(a: Item, b: Item) returns (run: seq<Label>)
    requires a.meta != b.meta
    ensures Follows(2, run, RACING, iset{a, b})
    ensures var c := Exec(Init(2), run);
            && c.procs == [Idle, Idle] && !HoldsLatest(c.cells)
            && c.cells.meta == Some(b.meta) && c.cells.data == Some(a.data)
  {
    var items := iset{a, b};
    var s1 := Cells(Some(a.meta), None, [a], [], None);
    var s2 := Cells(Some(b.meta), None, [a, b], [], None);
    var s3 := Cells(Some(b.meta), Some(b.data), [a, b], [b], Some(b));
    StartRun(RACING, items);
    run := Invoke(0, Put(a), [], EMPTY, Idle, Idle, RACING, items);
    run := Invoke(1, Put(b), run, EMPTY, PutMeta(a), Idle, RACING, items);
    run := Go(0, run, EMPTY, PutMeta(a), PutMeta(b), RACING, items);
    run := Go(1, run, s1, PutData(a), PutMeta(b), RACING, items);
    run := Go(1, run, s2, PutData(a), PutData(b), RACING, items);
    run := Go(0, run, s3, PutData(a), Idle, RACING, items);
  }

  /** A put has written its metadata when a delete begins to remove the pair. */
  lemma PutMeetsDelete(a: Item) returns (run: seq<Label>)
    ensures Reaches(run, Cells(Some(a.meta), None, [a], [], None), PutData(a), ProbeMeta, NONE, iset{a})
  {
    var items := iset{a};
    var half := Cells(Some(a.meta), None, [a], [], None);
    StartRun(NONE, items);
    run := Invoke(0, Put(a), [], EMPTY, Idle, Idle, NONE, items);
    run := Invoke(1, Delete, run, EMPTY, PutMeta(a), Idle, NONE, items);
    run := Go(0, run, EMPTY, PutMeta(a), DeleteData, NONE, items);
    run := Go(1, run, half, PutData(a), DeleteData, NONE, items);
  }

  /** A delete that overlaps a put: both finish, and the data is left without metadata, so that every
      later read fails. */
  lemma DeleteCanOrphanData(a: Item) returns (run: seq<Label>)
    ensures Follows(2, run, NONE, iset{a})
    ensures var c := Exec(Init(2), run);
            && c.procs == [Idle, Idle] && !HoldsLatest(c.cells)
            && c.cells.data == Some(a.data) && c.cells.meta.None?
  {
    var items := iset{a};
    var half := Cells(Some(a.meta), None, [a], [], None);
    run := PutMeetsDelete(a);
    run := Go(1, run, half, PutData(a), ProbeMeta, NONE, items);
    run := Go(0, run, half, PutData(a), DeleteMeta, NONE, items);
    run := Go(1, run, Stored(a), Idle, DeleteMeta, NONE, items);
  }

  /** A reader has fetched its data when the owner removes the data key. */
  lemma DeleteMeetsRead(a: Item) returns (run: seq<Label>)
    ensures Reaches(run, Stored(a).(data := None), ProbeMeta, FetchMeta(a.data, 0), DELETING, iset{a})
  {
    var items := iset{a};
    var reader := FetchMeta(a.data, 0);
    run := FetchStored(a, DELETING, items);
    run := Invoke(0, Delete, run, Stored(a), Idle, reader, DELETING, items);
    run := Go(0, run, Stored(a), DeleteData, reader, DELETING, items);
  }

  /** One owner that deletes while a reader is between its two fetches: the read fails on missing
      metadata. */
  lemma DeleteCanLoseMetadata(a: Item) returns (run: seq<Label>)
    ensures Follows(2, run, DELETING, iset{a})
    ensures Exec(Init(2), run).procs[1] == Returned(NoMeta)
  {
    var items := iset{a};
    var reader := FetchMeta(a.data, 0);
    var half := Stored(a).(data := None);
    run := DeleteMeetsRead(a);
    run := Go(0, run, half, ProbeMeta, reader, DELETING, items);
    run := Go(0, run, half, DeleteMeta, reader, DELETING, items);
    run := Go(1, run, half.(meta := None, latest := None), Idle, reader, DELETING, items);
  }

  /** Labels of process 0 and accesses of process 1 leave process 1 in its call. */
  lemma StaysInCall(run: seq<Label>, l: Label)
    requires CallOf(2, run, 1).Calling? && (l.Run? || (l.Begin? && l.p == 0))
    ensures CallOf(2, run + [l], 1).Calling? && CallOf(2, run + [l], 1).op == CallOf(2, run, 1).op
  {
    assert (run + [l])[..|run|] == run;
  }

  /** The run keeps to the rules, and process 1 is in a wait or has returned from one. */
  predicate Waits(run: seq<Label>, s: Cells, a: Pc, b: Pc, item: Item) {
    && Reaches(run, s, a, b, DELETING, iset{item})
    && CallOf(2, run, 1).Calling? && CallOf(2, run, 1).op.Wait?
  }

  lemma WaitStored(a: Item) returns (run: seq<Label>)
    ensures Waits(run, Stored(a), Idle, Probe, a)
  {
    run := PutStored(a, DELETING, iset{a});
    run := Invoke(1, Wait, run, Stored(a), Idle, Idle, DELETING, iset{a});
    CallsInv(2, run, 1);
  }

  lemma ExtendWait(run: seq<Label>, l: Label, c: Config, item: Item) returns (run': seq<Label>)
    requires |c.procs| == 2 && Waits(run, c.cells, c.procs[0], c.procs[1], item)
    requires l.Run? || l == Begin(0, Delete)
    requires Allowed(c, l, DELETING, iset{item})
    ensures var c' := Apply(c, l); Waits(run', c'.cells, c'.procs[0], c'.procs[1], item)
  {
    StaysInCall(run, l);
    Extend(run, l, c, DELETING, iset{item});
    run' := run + [l];
  }

  lemma WaitFound(a: Item) returns (run: seq<Label>)
    ensures Waits(run, Stored(a), DeleteData, FetchData, a)
  {
    run := WaitStored(a);
    run := ExtendWait(run, Run(1), Config(Stored(a), [Idle, Probe]), a);
    run := ExtendWait(run, Begin(0, Delete), Config(Stored(a), [Idle, FetchData]), a);
  }

  /** One owner that deletes while a waiter is between its probe and its fetch: the wait ends without
      data. */
  lemma DeleteCanCutWait(a: Item) returns (run: seq<Label>)
    ensures Follows(2, run, DELETING, iset{a})
    ensures CallOf(2, run, 1).Calling? && CallOf(2, run, 1).op.Wait?
    ensures Exec(Init(2), run).procs[1] == Returned(NoData)
  {
    run := WaitFound(a);
    run := ExtendWait(run, Run(0), Config(Stored(a), [DeleteData, FetchData]), a);
    run := ExtendWait(run, Run(1), Config(Stored(a).(data := None), [ProbeMeta, FetchData]), a);
  }

  predicate Weaker(weak: Rules, strong: Rules) {
    && (weak.serialised ==> strong.serialised)
    && (weak.exclusive ==> strong.exclusive)
    && (weak.noDeletes ==> strong.noDeletes)
  }

  lemma FollowsWeaker(n: nat, run: seq<Label>, strong: Rules, few: iset<Item>, weak: Rules, items: iset<Item>)
    requires Follows(n, run, strong, few) && Weaker(weak, strong) && few <= items
    ensures Follows(n, run, weak, items)
  {
    forall k | 0 <= k < |run|
      ensures Allowed(Exec(Init(n), run[..k]), run[k], weak, items)
    {
      assert Allowed(Exec(Init(n), run[..k]), run[k], strong, few);
    }
  }

  // Exactly when the promises are kept.

  /** Data is never present without metadata exactly when something keeps deletes apart from puts. */
  lemma DataAlwaysHasMetadataIff(items: iset<Item>, rules: Rules)
    ensures DataAlwaysHasMetadata(items, rules) <==> items == iset{} || KeepsApart(rules)
  {
    if items == iset{} || KeepsApart(rules) {
      forall n: nat, run: seq<Label> | Follows(n, run, rules, items)
        ensures Exec(Init(n), run).cells.data.Some? ==> Exec(Init(n), run).cells.meta.Some?
      {
        FollowsRules(n, run, rules, items);
        if KeepsApart(rules) { DataImpliesMetadata(n, run); } else { NoItems(n, run, rules); }
      }
    } else {
      var a :| a in items;
      var run := DeleteCanOrphanData(a);
      FollowsWeaker(2, run, NONE, iset{a}, rules, items);
    }
  }

  /** Every read that returns a value returns the item current at its own data fetch, exactly when all
      items put have one metadata record. No rule for the writers helps where they have not, and none
      is needed where they have. */
  lemma ReadsAreAlwaysWholeIff(items: iset<Item>, rules: Rules)
    ensures ReadsAreAlwaysWhole(items, rules) <==> OneRecord(items)
  {
    if OneRecord(items) {
      forall n: nat, run: seq<Label>, p: nat | p < n && Follows(n, run, rules, items)
        ensures ReadIsWhole(n, run, p)
      {
        var meta := FollowsRecord(n, run, rules, items);
        if ReadItem(Exec(Init(n), run).procs[p], meta).Some? {
          var k := ReadReturnsCurrentItem(n, run, meta, p);
        }
      }
    } else {
      var a, b :| a in items && b in items && a.meta != b.meta;
      var run := OverwriteCanMixVersions(a, b);
      FollowsWeaker(2, run, ALL, iset{a, b}, rules, items);
    }
  }

  /** No read ever fails on missing metadata, exactly when nobody deletes. */
  lemma ReadsAlwaysFindMetadataIff(items: iset<Item>, rules: Rules)
    ensures ReadsAlwaysFindMetadata(items, rules) <==> items == iset{} || rules.noDeletes
  {
    if items == iset{} || rules.noDeletes {
      forall n: nat, run: seq<Label>, p: nat | p < n && Follows(n, run, rules, items)
        ensures Exec(Init(n), run).procs[p] != Returned(NoMeta)
      {
        FollowsRules(n, run, rules, items);
        if rules.noDeletes { UndeletedKeepsMetadata(n, run); } else { NoItems(n, run, rules); }
      }
    } else {
      var a :| a in items;
      var run := DeleteCanLoseMetadata(a);
      FollowsWeaker(2, run, DELETING, iset{a}, rules, items);
    }
  }

  lemma NothingToDelete(n: nat, run: seq<Label>, rules: Rules, k: nat)
    requires Follows(n, run, rules, iset{}) && k <= |run|
    ensures Exec(Init(n), run[..k]).cells.data.None?
  {
    FollowsPrefix(n, run, rules, iset{}, k);
    NoItems(n, run[..k], rules);
  }

  lemma FollowsPrefix(n: nat, run: seq<Label>, rules: Rules, items: iset<Item>, k: nat)
    requires Follows(n, run, rules, items) && k <= |run|
    ensures Follows(n, run[..k], rules, items)
  {
    forall m | 0 <= m < k
      ensures Allowed(Exec(Init(n), run[..k][..m]), run[..k][m], rules, items)
    {
      assert run[..k][..m] == run[..m];
    }
  }

  /** No wait ever ends without data, exactly when nobody deletes. */
  lemma WaitsAlwaysFindDataIff(items: iset<Item>, rules: Rules)
    ensures WaitsAlwaysFindData(items, rules) <==> items == iset{} || rules.noDeletes
  {
    if items == iset{} || rules.noDeletes {
      forall n: nat, run: seq<Label>, p: nat | p < n && Follows(n, run, rules, items)
        ensures WaitFindsData(n, run, p)
      {
        FollowsRules(n, run, rules, items);
        if !WaitFindsData(n, run, p) {
          var m := WaitEndsInNoData(n, run, p);
          if rules.noDeletes {
            UndeletedKeepsMetadata(n, run[..m]);
          } else {
            NothingToDelete(n, run, rules, m);
          }
        }
      }
    } else {
      var a :| a in items;
      var run := DeleteCanCutWait(a);
      FollowsWeaker(2, run, DELETING, iset{a}, rules, items);
      assert !WaitFindsData(2, run, 1);
    }
  }

  predicate IdleInv(c: Config, meta: Bytes) {
    ApartInv(c) && RecordInv(c, meta) && (NoWriter(c) ==> HoldsLatest(c.cells))
  }

  /** The last access of a put or a delete leaves the pair as that put or delete wants it. */
  lemma LastAccessSettles(c: Config, p: nat, meta: Bytes)
    requires IdleInv(c, meta) && p < |c.procs|
    requires Writer(c.procs[p]) && !Writer(Apply(c, Run(p)).procs[p])
    ensures HoldsLatest(Apply(c, Run(p)).cells)
  {
    assert RecordPc(c.cells, c.procs[p], meta);
  }

  lemma IdleStep(c: Config, l: Label, meta: Bytes)
    requires IdleInv(c, meta) && Exclusive(c, l) && RecordLabel(l, meta)
    ensures IdleInv(Apply(c, l), meta)
  {
    var c' := Apply(c, l);
    ApartStep(c, l);
    RecordStep(c, l, meta);
    if NoWriter(c') {
      if l.Run? && l.p < |c.procs| && Writer(c.procs[l.p]) {
        LastAccessSettles(c, l.p, meta);
      } else {
        assert forall p :: 0 <= p < |c.procs| ==> Writer(c.procs[p]) ==> Writer(c'.procs[p]);
      }
    }
  }

  lemma {:induction false} IdleRun(n: nat, run: seq<Label>, meta: Bytes)
    requires ExclusiveRun(Init(n), run) && RecordRun(run, meta)
    ensures IdleInv(Exec(Init(n), run), meta)
  {
    if run != [] {
      var k := |run| - 1;
      ExclusivePrefix(n, run);
      IdleRun(n, run[..k], meta);
      assert Exclusive(Exec(Init(n), run[..k]), run[k]) && RecordLabel(run[k], meta);
      IdleStep(Exec(Init(n), run[..k]), run[k], meta);
    }
  }

  /** Whenever no put or delete is in progress the pair is that of the last one, exactly when puts and
      deletes are serialised, or all items have one record and deletes are kept apart from puts. */
  lemma IdlePairIsAlwaysLatestIff(items: iset<Item>, rules: Rules)
    ensures IdlePairIsAlwaysLatest(items, rules) <==>
            items == iset{} || rules.serialised || (OneRecord(items) && KeepsApart(rules))
  {
    if items == iset{} || rules.serialised || (OneRecord(items) && KeepsApart(rules)) {
      forall n: nat, run: seq<Label> | Follows(n, run, rules, items)
        ensures NoWriter(Exec(Init(n), run)) ==> HoldsLatest(Exec(Init(n), run).cells)
      {
        FollowsRules(n, run, rules, items);
        if rules.serialised {
          PairIsLatest(n, run);
        } else if items == iset{} {
          NoItems(n, run, rules);
        } else {
          var meta := FollowsRecord(n, run, rules, items);
          IdleRun(n, run, meta);
        }
      }
    } else {
      var run: seq<Label>;
      if KeepsApart(rules) {
        var a, b :| a in items && b in items && a.meta != b.meta;
        run := RacingWritersCanTear(a, b);
        FollowsWeaker(2, run, RACING, iset{a, b}, rules, items);
      } else {
        var a :| a in items;
        run := DeleteCanOrphanData(a);
        FollowsWeaker(2, run, NONE, iset{a}, rules, items);
      }
      assert NoWriter(Exec(Init(2), run)) && !HoldsLatest(Exec(Init(2), run).cells);
    }
  }
}
