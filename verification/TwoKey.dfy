/** The two-key protocol of one handle.

    A typed item lives under a metadata key and a data key. A put writes metadata then data, a
    read fetches data then metadata, a delete removes data then metadata, and nothing makes the
    pair atomic. Here any number of processes work on the two cells of one handle; every single
    access to the store is one atomic step, and a run is any sequence of steps of any processes. */
module TwoKey {
  import opened ByteCodec
  import opened MetaData
  import opened Wrappers

  datatype Op = Put(item: Item) | Get | Wait | Delete

  /** What a read ends with. For a value, `i` and `j` are history variables: the numbers of the
      data write and of the metadata write that the two fetches saw. */
  datatype Outcome = Got(item: Item, i: int, j: int) | NoData | NoMeta | TimedOut

  /** Program counters, each named after the store access the process makes next. */
  datatype Pc =
    | Idle
    | PutMeta(item: Item)
    | PutData(item: Item)
    | Probe
    | FetchData
    | FetchMeta(data: Bytes, i: int)
    | DeleteData
    | ProbeMeta
    | DeleteMeta
    | Returned(outcome: Outcome)

  /** The contents of the two keys, and history variables that no step reads: every item whose
      metadata (data) was written, in order, and the effect of the last completed put or delete. */
  datatype Cells = Cells(meta: Option<Bytes>, data: Option<Bytes>,
                         metas: seq<Item>, datas: seq<Item>, latest: Option<Item>)

  datatype Config = Config(cells: Cells, procs: seq<Pc>)

  /** A step of a run: a free process begins an operation, a process makes its next access, a
      waiting process gives up after a failed probe, or a process forgets a returned result. */
  datatype Label = Begin(p: nat, op: Op) | Run(p: nat) | Expire(p: nat) | Leave(p: nat) | Tau

  const EMPTY: Cells := Cells(None, None, [], [], None)

  function Start(op: Op): Pc {
    match op
    case Put(item) => PutMeta(item)
    case Get => FetchData
    case Wait => Probe
    case Delete => DeleteData
  }

  /** One access to the store. */
  function Access(s: Cells, pc: Pc): (Cells, Pc) {
    match pc
    case PutMeta(item) =>
      (s.(meta := Some(item.meta), metas := s.metas + [item]), PutData(item))
    case PutData(item) =>
      (s.(data := Some(item.data), datas := s.datas + [item], latest := Some(item)), Idle)
    case Probe =>
      (s, if s.data.Some? then FetchData else Probe)
    case FetchData =>
      (s, if s.data.Some? then FetchMeta(s.data.value, |s.datas| - 1) else Returned(NoData))
    case FetchMeta(data, i) =>
      (s, Returned(if s.meta.Some? then Got(Item(s.meta.value, data), i, |s.metas| - 1)
                   else NoMeta))
    case DeleteData =>
      (s.(data := None), ProbeMeta)
    case ProbeMeta =>
      if s.meta.Some? then (s, DeleteMeta) else (s.(latest := None), Idle)
    case DeleteMeta =>
      (s.(meta := None, latest := None), Idle)
    case Idle => (s, pc)
    case Returned(_) => (s, pc)
  }

  predicate Free(pc: Pc) {
    pc.Idle? || pc.Returned?
  }

  /** The effect of one label; a label that is not enabled changes nothing. */
  function Apply(c: Config, l: Label): (c': Config)
    ensures |c'.procs| == |c.procs|
  {
    match l
    case Begin(p, op) =>
      if p < |c.procs| && Free(c.procs[p]) then c.(procs := c.procs[p := Start(op)]) else c
    case Run(p) =>
      if p < |c.procs| then
        var (s, pc) := Access(c.cells, c.procs[p]);
        Config(s, c.procs[p := pc])
      else c
    case Expire(p) =>
      if p < |c.procs| && c.procs[p].Probe? && c.cells.data.None?
      then c.(procs := c.procs[p := Returned(TimedOut)]) else c
    case Leave(p) =>
      if p < |c.procs| && c.procs[p].Returned? then c.(procs := c.procs[p := Idle]) else c
    case Tau => c
  }

  function Exec(c: Config, run: seq<Label>): (c': Config)
    ensures |c'.procs| == |c.procs|
  {
    if run == [] then c else Apply(Exec(c, run[..|run| - 1]), run[|run| - 1])
  }

  /** Nothing stored and nobody working. */
  function Init(n: nat): Config {
    Config(EMPTY, seq(n, _ => Idle))
  }

  // Serialised writers: any readers, any shapes.

  predicate Putting(pc: Pc) {
    pc.PutMeta? || pc.PutData?
  }

  predicate Deleting(pc: Pc) {
    pc.DeleteData? || pc.ProbeMeta? || pc.DeleteMeta?
  }

  predicate Writer(pc: Pc) {
    Putting(pc) || Deleting(pc)
  }

  predicate Writing(op: Op) {
    op.Put? || op.Delete?
  }

  /** No put or delete is in progress. */
  predicate NoWriter(c: Config) {
    forall p :: 0 <= p < |c.procs| ==> !Writer(c.procs[p])
  }

  /** Puts and deletes are begun only while no other is in progress: one owner, or a lock. */
  predicate Serialised(c: Config, l: Label) {
    l.Begin? && Writing(l.op) ==> NoWriter(c)
  }

  predicate SerialisedRun(c: Config, run: seq<Label>) {
    forall k :: 0 <= k < |run| ==> Serialised(Exec(c, run[..k]), run[k])
  }

  /** The two cells are the item of the last completed put, or empty after a delete. */
  predicate HoldsLatest(s: Cells) {
    match s.latest
    case None => s.meta.None? && s.data.None?
    case Some(item) => s.meta == Some(item.meta) && s.data == Some(item.data)
  }

  /** The two cells hold the effect of the last completed put or delete, the last write of each. */
  predicate Settled(s: Cells) {
    && |s.metas| == |s.datas| && HoldsLatest(s)
    && (s.latest.Some? ==> s.metas != [] && s.metas[|s.metas| - 1] == s.latest.value)
  }

  /** What holds of the cells in every state, in the middle of a put or a delete included. */
  predicate Consistent(s: Cells) {
    && s.datas <= s.metas
    && |s.metas| <= |s.datas| + 1
    && (s.data.Some? ==> s.meta.Some?)
    && (s.data.Some? ==> s.datas != [] && s.data.value == s.datas[|s.datas| - 1].data)
    && (s.meta.Some? ==> s.metas != [] && s.meta.value == s.metas[|s.metas| - 1].meta)
  }

  predicate WriterInv(s: Cells, pc: Pc) {
    match pc
    case PutMeta(_) => Settled(s)
    case DeleteData => Settled(s)
    case PutData(item) =>
      && |s.metas| == |s.datas| + 1 && s.metas[|s.metas| - 1] == item && s.meta.Some?
    case ProbeMeta => |s.metas| == |s.datas| && s.data.None?
    case DeleteMeta => |s.metas| == |s.datas| && s.data.None?
    case _ => true
  }

  /** A fetched datum is that of data write `i`; a returned pair mixes data write `i` with a
      metadata write `j` that is not older. */
  predicate ReaderInv(s: Cells, pc: Pc) {
    match pc
    case FetchMeta(data, i) => 0 <= i < |s.datas| && data == s.datas[i].data
    case Returned(Got(item, i, j)) =>
      && 0 <= i < |s.datas| && i <= j < |s.metas|
      && item.data == s.datas[i].data && item.meta == s.metas[j].meta
    case _ => true
  }

  predicate SerialInv(c: Config) {
    && Consistent(c.cells)
    && (forall p, q | 0 <= p < |c.procs| && 0 <= q < |c.procs| ::
          Writer(c.procs[p]) && Writer(c.procs[q]) ==> p == q)
    && (forall p :: 0 <= p < |c.procs| ==> WriterInv(c.cells, c.procs[p]))
    && (forall p :: 0 <= p < |c.procs| ==> ReaderInv(c.cells, c.procs[p]))
    && (NoWriter(c) ==> Settled(c.cells))
  }

  lemma SerialAccess(s: Cells, pc: Pc)
    requires Consistent(s) && WriterInv(s, pc) && ReaderInv(s, pc)
    ensures var (s', pc') := Access(s, pc);
            && Consistent(s') && WriterInv(s', pc') && ReaderInv(s', pc')
            && (Writer(pc) && !Writer(pc') ==> Settled(s'))
            && (!Writer(pc) ==> s' == s && !Writer(pc'))
  {
  }

  lemma ReaderFrame(s: Cells, pc: Pc, reader: Pc)
    requires ReaderInv(s, reader)
    ensures ReaderInv(Access(s, pc).0, reader)
  {
  }

  lemma SerialRunStep(c: Config, p: nat)
    requires SerialInv(c) && p < |c.procs|
    ensures SerialInv(Apply(c, Run(p)))
  {
    var pc := c.procs[p];
    assert WriterInv(c.cells, pc) && ReaderInv(c.cells, pc);
    SerialAccess(c.cells, pc);
    var (s', pc') := Access(c.cells, pc);
    var procs' := c.procs[p := pc'];
    assert Apply(c, Run(p)) == Config(s', procs');
    forall q | 0 <= q < |procs'|
      ensures ReaderInv(s', procs'[q]) && WriterInv(s', procs'[q])
      ensures Writer(procs'[q]) ==> Writer(c.procs[q])
    {
      ReaderFrame(c.cells, pc, c.procs[q]);
      assert q != p && Writer(pc) ==> !Writer(c.procs[q]);
    }
    if !Writer(pc) {
      assert forall q :: 0 <= q < |procs'| ==> Writer(c.procs[q]) == Writer(procs'[q]);
    } else {
      assert Writer(procs'[p]) || Settled(s');
    }
  }

  /** A process may change its counter without an access, if what the new counter claims holds. */
  lemma SerialReplace(c: Config, p: nat, pc: Pc)
    requires SerialInv(c) && p < |c.procs| && !Writer(c.procs[p])
    requires WriterInv(c.cells, pc) && ReaderInv(c.cells, pc)
    requires Writer(pc) ==> NoWriter(c)
    ensures SerialInv(c.(procs := c.procs[p := pc]))
  {
    var procs' := c.procs[p := pc];
    forall q | 0 <= q < |procs'|
      ensures WriterInv(c.cells, procs'[q]) && ReaderInv(c.cells, procs'[q])
      ensures Writer(c.procs[q]) ==> Writer(procs'[q])
      ensures Writer(procs'[q]) ==> Writer(c.procs[q]) || q == p
    {
    }
  }

  lemma SerialStep(c: Config, l: Label)
    requires SerialInv(c) && Serialised(c, l)
    ensures SerialInv(Apply(c, l))
  {
    if !l.Tau? && l.p < |c.procs| {
      var pc := c.procs[l.p];
      match l
      case Run(p) => SerialRunStep(c, p);
      case Begin(p, op) => if Free(pc) { SerialReplace(c, p, Start(op)); }
      case Expire(p) => if pc.Probe? { SerialReplace(c, p, Returned(TimedOut)); }
      case Leave(p) => if pc.Returned? { SerialReplace(c, p, Idle); }
    }
  }

  lemma {:induction false} SerialRun(n: nat, run: seq<Label>)
    requires SerialisedRun(Init(n), run)
    ensures SerialInv(Exec(Init(n), run))
  {
    if run != [] {
      var k := |run| - 1;
      var before := run[..k];
      forall m | 0 <= m < |before|
        ensures Serialised(Exec(Init(n), before[..m]), before[m])
      {
        assert before[..m] == run[..m];
      }
      SerialRun(n, before);
      assert Serialised(Exec(Init(n), run[..k]), run[k]);
      SerialStep(Exec(Init(n), before), run[k]);
    }
  }

  /** With one put or delete at a time: whenever none is in progress the two keys hold exactly the
      item of the last completed put, or nothing after a delete. */
  lemma PairIsLatest(n: nat, run: seq<Label>)
    requires SerialisedRun(Init(n), run)
    ensures var c := Exec(Init(n), run); NoWriter(c) ==> HoldsLatest(c.cells)
  {
    SerialRun(n, run);
  }

  lemma DatasAreMetas(s: Cells, i: nat)
    requires Consistent(s) && i < |s.datas|
    ensures i < |s.metas| && s.datas[i] == s.metas[i]
  {
    assert s.datas == s.metas[..|s.datas|];
  }

  /** A value read from data write `i` and metadata write `j`: `j` is not the older one, and the
      value is item `i` itself exactly when both wrote the same record. */
  predicate ReadOfVersions(s: Cells, item: Item, i: int, j: int) {
    && 0 <= i < |s.datas| && i <= j < |s.metas|
    && s.datas[i] == s.metas[i]
    && item == Item(s.metas[j].meta, s.metas[i].data)
    && (item == s.metas[i] <==> s.metas[j].meta == s.metas[i].meta)
    && (|s.metas| == 1 ==> item == s.metas[0])
  }

  lemma ReadVersions(s: Cells, item: Item, i: int, j: int)
    requires Consistent(s) && ReaderInv(s, Returned(Got(item, i, j)))
    ensures ReadOfVersions(s, item, i, j)
  {
    DatasAreMetas(s, i);
  }

  /** A read that fetched the data of the i-th put returns the metadata of a put that is not older,
      whatever puts and deletes ran meanwhile; a handle written once is read back exactly. */
  lemma VersionMonotone(n: nat, run: seq<Label>, p: nat)
    requires SerialisedRun(Init(n), run) && p < n
    ensures var c := Exec(Init(n), run);
            c.procs[p].Returned? && c.procs[p].outcome.Got? ==>
              ReadOfVersions(c.cells, c.procs[p].outcome.item,
                             c.procs[p].outcome.i, c.procs[p].outcome.j)
  {
    SerialRun(n, run);
    var c := Exec(Init(n), run);
    if c.procs[p].Returned? && c.procs[p].outcome.Got? {
      var Got(item, i, j) := c.procs[p].outcome;
      assert ReaderInv(c.cells, c.procs[p]);
      ReadVersions(c.cells, item, i, j);
    }
  }

  // Puts apart from deletes: puts may race puts, and deletes may race deletes.

  /** A put is begun only while no delete is in progress, and a delete only while no put is. */
  predicate Exclusive(c: Config, l: Label) {
    l.Begin? ==>
      forall p :: 0 <= p < |c.procs| ==>
        && (l.op.Put? ==> !Deleting(c.procs[p]))
        && (l.op.Delete? ==> !Putting(c.procs[p]))
  }

  predicate ExclusiveRun(c: Config, run: seq<Label>) {
    forall k :: 0 <= k < |run| ==> Exclusive(Exec(c, run[..k]), run[k])
  }

  predicate ApartInv(c: Config) {
    && (c.cells.data.Some? ==> c.cells.meta.Some?)
    && (forall p, q | 0 <= p < |c.procs| && 0 <= q < |c.procs| ::
          !(Putting(c.procs[p]) && Deleting(c.procs[q])))
    && (forall p :: 0 <= p < |c.procs| && c.procs[p].PutData? ==> c.cells.meta.Some?)
    && (forall p :: 0 <= p < |c.procs| && (c.procs[p].ProbeMeta? || c.procs[p].DeleteMeta?) ==>
          c.cells.data.None?)
  }

  lemma ApartStep(c: Config, l: Label)
    requires ApartInv(c) && Exclusive(c, l)
    ensures ApartInv(Apply(c, l))
  {
    var c' := Apply(c, l);
    if !l.Tau? && l.p < |c.procs| {
      var p := l.p;
      assert !(Putting(c.procs[p]) && Deleting(c.procs[p]));
      forall q | 0 <= q < |c.procs| && q != p
        ensures c'.procs[q] == c.procs[q]
        ensures !(Putting(c'.procs[p]) && Deleting(c'.procs[q]))
        ensures !(Putting(c'.procs[q]) && Deleting(c'.procs[p]))
      {
        assert !(Putting(c.procs[p]) && Deleting(c.procs[q]));
        assert !(Putting(c.procs[q]) && Deleting(c.procs[p]));
      }
    }
  }

  lemma {:induction false} ApartRun(n: nat, run: seq<Label>)
    requires ExclusiveRun(Init(n), run)
    ensures ApartInv(Exec(Init(n), run))
  {
    if run != [] {
      var k := |run| - 1;
      ExclusivePrefix(n, run);
      ApartRun(n, run[..k]);
      assert Exclusive(Exec(Init(n), run[..k]), run[k]);
      ApartStep(Exec(Init(n), run[..k]), run[k]);
    }
  }

  lemma ExclusivePrefix(n: nat, run: seq<Label>)
    requires ExclusiveRun(Init(n), run) && run != []
    ensures ExclusiveRun(Init(n), run[..|run| - 1])
  {
    var before := run[..|run| - 1];
    forall m | 0 <= m < |before|
      ensures Exclusive(Exec(Init(n), before[..m]), before[m])
    {
      assert before[..m] == run[..m];
    }
  }

  /** In every reachable state, mid-put and mid-delete included, data is never present without
      metadata, as long as no delete overlaps a put. */
  lemma DataImpliesMetadata(n: nat, run: seq<Label>)
    requires ExclusiveRun(Init(n), run)
    ensures var s := Exec(Init(n), run).cells; s.data.Some? ==> s.meta.Some?
  {
    ApartRun(n, run);
  }

  /** One put or delete at a time keeps deletes apart from puts. */
  lemma SerialisedIsExclusive(c: Config, run: seq<Label>)
    requires SerialisedRun(c, run)
    ensures ExclusiveRun(c, run)
  {
    forall k | 0 <= k < |run|
      ensures Exclusive(Exec(c, run[..k]), run[k])
    {
      assert Serialised(Exec(c, run[..k]), run[k]);
    }
  }

  /** A reader that holds its data and has not found, or will not find, the metadata. */
  predicate MissesMeta(c: Config, p: nat) {
    && p < |c.procs|
    && (c.procs[p] == Returned(NoMeta) || (c.procs[p].FetchMeta? && c.cells.meta.None?))
  }

  /** The reader is between its data fetch and its next call. */
  predicate HasData(pc: Pc) {
    pc.FetchMeta? || pc == Returned(NoMeta)
  }

  lemma MissesMetaStep(c: Config, l: Label, p: nat)
    requires ApartInv(c) && !MissesMeta(c, p) && MissesMeta(Apply(c, l), p)
    ensures l.Run? && l.p < |c.procs| && c.procs[l.p].DeleteMeta? && c.procs[p].FetchMeta?
  {
    assert l.Run?;
    if l.p == p {
      assert false;
    }
  }

  /** From step `m` on the reader has its data and makes no other call. */
  predicate HasDataSince(n: nat, run: seq<Label>, p: nat, m: nat)
    requires p < n
  {
    forall j :: m <= j <= |run| ==> HasData(Exec(Init(n), run[..j]).procs[p])
  }

  lemma HasDataBefore(n: nat, run: seq<Label>, p: nat, m: nat, j: nat)
    requires run != [] && p < n && m <= j < |run|
    requires HasDataSince(n, run[..|run| - 1], p, m)
    ensures HasData(Exec(Init(n), run[..j]).procs[p])
  {
    assert run[..|run| - 1][..j] == run[..j];
  }

  lemma HasDataStep(n: nat, run: seq<Label>, p: nat, m: nat)
    requires run != [] && p < n && m <= |run|
    requires HasDataSince(n, run[..|run| - 1], p, m)
    requires HasData(Exec(Init(n), run).procs[p])
    ensures HasDataSince(n, run, p, m)
  {
    assert run[..|run|] == run;
    forall j | m <= j < |run|
      ensures HasData(Exec(Init(n), run[..j]).procs[p])
    {
      HasDataBefore(n, run, p, m, j);
    }
  }

  /** A read or wait misses the metadata only if a delete removed it after that same read had fetched
      its data; deletes that ended before the data fetch do no harm. */
  lemma {:induction false} NeverMissingMetadata(n: nat, run: seq<Label>, p: nat) returns (m: nat)
    requires ExclusiveRun(Init(n), run) && MissesMeta(Exec(Init(n), run), p)
    ensures m < |run| && run[m].Run? && run[m].p < n
    ensures var c := Exec(Init(n), run[..m]);
            c.procs[run[m].p].DeleteMeta? && c.procs[p].FetchMeta?
    ensures HasDataSince(n, run, p, m)
  {
    var last := |run| - 1;
    var before := run[..last];
    var c := Exec(Init(n), before);
    ExclusivePrefix(n, run);
    if MissesMeta(c, p) {
      m := NeverMissingMetadata(n, before, p);
      assert before[..m] == run[..m];
    } else {
      ApartRun(n, before);
      MissesMetaStep(c, run[last], p);
      m := last;
      assert before[..last] == before;
    }
    HasDataStep(n, run, p, m);
  }

  // No deletes: any writers, in any order, of any shapes.

  predicate NoDeletes(run: seq<Label>) {
    forall k :: 0 <= k < |run| ==> !(run[k].Begin? && run[k].op.Delete?)
  }

  predicate MetaKept(c: Config) {
    && (c.cells.data.Some? ==> c.cells.meta.Some?)
    && forall p :: 0 <= p < |c.procs| ==>
         && !Deleting(c.procs[p])
         && (c.procs[p].PutData? || c.procs[p].FetchMeta? ==> c.cells.meta.Some?)
         && c.procs[p] != Returned(NoMeta)
  }

  /** Unless the handle is deleted, no read ever fails on missing metadata, even with unserialised
      writers. */
  lemma {:induction false} UndeletedKeepsMetadata(n: nat, run: seq<Label>)
    requires NoDeletes(run)
    ensures MetaKept(Exec(Init(n), run))
  {
    if run != [] {
      var k := |run| - 1;
      UndeletedKeepsMetadata(n, run[..k]);
      assert !(run[k].Begin? && run[k].op.Delete?);
    }
  }

  lemma UndeletedIsExclusive(n: nat, run: seq<Label>)
    requires NoDeletes(run)
    ensures ExclusiveRun(Init(n), run)
  {
    forall k | 0 <= k < |run|
      ensures Exclusive(Exec(Init(n), run[..k]), run[k])
    {
      UndeletedKeepsMetadata(n, run[..k]);
    }
  }

  // Shape-stable handles: any writers, all putting the same metadata record.

  predicate RecordLabel(l: Label, meta: Bytes) {
    l.Begin? && l.op.Put? ==> l.op.item.meta == meta
  }

  predicate RecordRun(run: seq<Label>, meta: Bytes) {
    forall k :: 0 <= k < |run| ==> RecordLabel(run[k], meta)
  }

  predicate RecordPc(s: Cells, pc: Pc, meta: Bytes) {
    match pc
    case PutMeta(item) => item.meta == meta
    case PutData(item) => item.meta == meta
    case FetchMeta(data, i) => 0 <= i < |s.datas| && s.datas[i] == Item(meta, data)
    case Returned(Got(item, i, _)) => 0 <= i < |s.datas| && item == s.datas[i]
    case _ => true
  }

  predicate RecordInv(c: Config, meta: Bytes) {
    && (c.cells.meta.Some? ==> c.cells.meta.value == meta)
    && (c.cells.data.Some? ==>
          && c.cells.datas != []
          && c.cells.datas[|c.cells.datas| - 1] == Item(meta, c.cells.data.value))
    && forall p :: 0 <= p < |c.procs| ==> RecordPc(c.cells, c.procs[p], meta)
  }

  lemma RecordFrame(s: Cells, pc: Pc, other: Pc, meta: Bytes)
    requires RecordPc(s, other, meta)
    ensures RecordPc(Access(s, pc).0, other, meta)
  {
  }

  lemma RecordStep(c: Config, l: Label, meta: Bytes)
    requires RecordInv(c, meta) && RecordLabel(l, meta)
    ensures RecordInv(Apply(c, l), meta)
  {
    if l.Run? && l.p < |c.procs| {
      var pc := c.procs[l.p];
      assert RecordPc(c.cells, pc, meta);
      forall q | 0 <= q < |c.procs|
        ensures RecordPc(Access(c.cells, pc).0, c.procs[q], meta)
      {
        RecordFrame(c.cells, pc, c.procs[q], meta);
      }
    }
  }

  lemma {:induction false} RecordExec(n: nat, run: seq<Label>, meta: Bytes)
    requires RecordRun(run, meta)
    ensures RecordInv(Exec(Init(n), run), meta)
  {
    if run != [] {
      var k := |run| - 1;
      RecordExec(n, run[..k], meta);
      assert RecordLabel(run[k], meta);
      RecordStep(Exec(Init(n), run[..k]), run[k], meta);
    }
  }

  /** One metadata record, and nothing deletes the handle. */
  predicate StableLabel(l: Label, meta: Bytes) {
    RecordLabel(l, meta) && !(l.Begin? && l.op.Delete?)
  }

  predicate StableRun(run: seq<Label>, meta: Bytes) {
    forall k :: 0 <= k < |run| ==> StableLabel(run[k], meta)
  }

  predicate StableInv(c: Config, meta: Bytes) {
    RecordInv(c, meta) && MetaKept(c)
  }

  lemma StableExec(n: nat, run: seq<Label>, meta: Bytes)
    requires StableRun(run, meta)
    ensures StableInv(Exec(Init(n), run), meta)
  {
    assert forall k :: 0 <= k < |run| ==> StableLabel(run[k], meta);
    RecordExec(n, run, meta);
    UndeletedKeepsMetadata(n, run);
  }

  /** The process is about to fetch the data of the current item. */
  predicate FetchesCurrent(c: Config, p: nat, item: Item) {
    && p < |c.procs| && c.procs[p].FetchData?
    && c.cells.datas != [] && c.cells.datas[|c.cells.datas| - 1] == item
    && c.cells.data == Some(item.data)
  }

  /** The item a reader holds or returned, given the record of the handle. */
  function ReadItem(pc: Pc, meta: Bytes): Option<Item> {
    match pc
    case FetchMeta(data, _) => Some(Item(meta, data))
    case Returned(Got(item, _, _)) => Some(item)
    case _ => None
  }

  lemma ReadItemStep(c: Config, l: Label, meta: Bytes, p: nat)
    requires RecordInv(c, meta) && p < |c.procs|
    requires ReadItem(Apply(c, l).procs[p], meta).Some?
    ensures if l == Run(p) && c.procs[p].FetchData?
            then FetchesCurrent(c, p, ReadItem(Apply(c, l).procs[p], meta).value)
            else ReadItem(c.procs[p], meta) == ReadItem(Apply(c, l).procs[p], meta)
  {
    assert RecordPc(c.cells, c.procs[p], meta);
  }

  /** Step `k` is the data fetch of the read that holds or returned `item`, the item current there:
      from then on the reader has `item` and makes no other call. */
  predicate OwnFetch(n: nat, run: seq<Label>, p: nat, item: Item, k: nat)
    requires p < n
  {
    && k < |run| && run[k] == Run(p)
    && FetchesCurrent(Exec(Init(n), run[..k]), p, item)
    && forall m :: k < m <= |run| ==>
         ReadItem(Exec(Init(n), run[..m]).procs[p], item.meta) == Some(item)
  }

  /** If only one metadata record is ever put, each read that returns a value returns an item exactly
      as it was put, namely the one that was current at the reader's own data fetch, whatever puts
      and deletes run meanwhile. */
  lemma {:induction false} ReadReturnsCurrentItem(n: nat, run: seq<Label>, meta: Bytes, p: nat)
    returns (k: nat)
    requires RecordRun(run, meta) && p < n
    requires ReadItem(Exec(Init(n), run).procs[p], meta).Some?
    ensures OwnFetch(n, run, p, ReadItem(Exec(Init(n), run).procs[p], meta).value, k)
    ensures ReadItem(Exec(Init(n), run).procs[p], meta).value.meta == meta
  {
    var last := |run| - 1;
    var before := run[..last];
    var c := Exec(Init(n), before);
    assert run[..|run|] == run;
    RecordExec(n, before, meta);
    ReadItemStep(c, run[last], meta, p);
    if run[last] == Run(p) && c.procs[p].FetchData? {
      k := last;
    } else {
      k := ReadReturnsCurrentItem(n, before, meta, p);
      assert forall m :: 0 <= m <= last ==> before[..m] == run[..m];
    }
  }

  // Every item that is stored or read was put by somebody.

  predicate GoodPuts(run: seq<Label>, good: Item -> bool) {
    forall k :: 0 <= k < |run| && run[k].Begin? && run[k].op.Put? ==> good(run[k].op.item)
  }

  predicate GoodItems(c: Config, good: Item -> bool) {
    && (forall k :: 0 <= k < |c.cells.datas| ==> good(c.cells.datas[k]))
    && (forall p :: 0 <= p < |c.procs| && c.procs[p].PutMeta? ==> good(c.procs[p].item))
    && (forall p :: 0 <= p < |c.procs| && c.procs[p].PutData? ==> good(c.procs[p].item))
  }

  lemma {:induction false} OnlyPutItems(n: nat, run: seq<Label>, good: Item -> bool)
    requires GoodPuts(run, good)
    ensures GoodItems(Exec(Init(n), run), good)
  {
    if run != [] {
      var k := |run| - 1;
      OnlyPutItems(n, run[..k], good);
      assert run[k].Begin? && run[k].op.Put? ==> good(run[k].op.item);
    }
  }
}
