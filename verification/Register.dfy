/** The abstract object that a shape-stable handle implements: one atomic register.

    A put takes effect in one step, a read takes its value in one step, and both steps fall
    between the call and the return. A get takes whatever is there; a wait takes nothing until the
    register holds a value, and only a wait can expire. The two-key protocol refines it: every run maps, label by
    label, to a run of the register that every caller sees with the same results. */
module Register {
  import opened ByteCodec
  import opened MetaData
  import opened TwoKey
  import opened Wrappers

  datatype RegOutcome = Value(item: Item) | Absent | Expired

  datatype RegPc =
    | RegIdle
    | Writing(item: Item)
    | Awaiting
    | Reading
    | Holding(item: Item)
    | Done(outcome: RegOutcome)

  datatype RegConfig = RegConfig(register: Option<Item>, procs: seq<RegPc>)

  datatype RegLabel =
    | Invoke(p: nat, op: Op)
    | Commit(p: nat)
    | Notice(p: nat)
    | Sample(p: nat)
    | Return(p: nat)
    | GiveUp(p: nat)
    | Forget(p: nat)
    | Stutter

  function RegApply(c: RegConfig, l: RegLabel): RegConfig {
    match l
    case Invoke(p, op) =>
      if p < |c.procs| && (c.procs[p].RegIdle? || c.procs[p].Done?) then
        c.(procs := c.procs[p := match op
                                 case Put(item) => Writing(item)
                                 case Get => Reading
                                 case Wait => Awaiting
                                 case Delete => RegIdle])
      else c
    case Commit(p) =>
      if p < |c.procs| && c.procs[p].Writing?
      then RegConfig(Some(c.procs[p].item), c.procs[p := RegIdle]) else c
    case Notice(p) =>
      if p < |c.procs| && c.procs[p].Awaiting? && c.register.Some?
      then c.(procs := c.procs[p := Reading]) else c
    case Sample(p) =>
      if p < |c.procs| && c.procs[p].Reading? then
        c.(procs := c.procs[p := if c.register.Some? then Holding(c.register.value) else Done(Absent)])
      else c
    case Return(p) =>
      if p < |c.procs| && c.procs[p].Holding?
      then c.(procs := c.procs[p := Done(Value(c.procs[p].item))]) else c
    case GiveUp(p) =>
      if p < |c.procs| && c.procs[p].Awaiting? && c.register.None?
      then c.(procs := c.procs[p := Done(Expired)]) else c
    case Forget(p) =>
      if p < |c.procs| && c.procs[p].Done? then c.(procs := c.procs[p := RegIdle]) else c
    case Stutter => c
  }

  function RegExec(c: RegConfig, run: seq<RegLabel>): RegConfig {
    if run == [] then c else RegApply(RegExec(c, run[..|run| - 1]), run[|run| - 1])
  }

  function RegInit(n: nat): RegConfig {
    RegConfig(None, seq(n, _ => RegIdle))
  }

  // The refinement mapping for handles whose metadata record is `meta`.

  function AbsPc(pc: Pc, meta: Bytes): RegPc {
    match pc
    case PutMeta(item) => Writing(item)
    case PutData(item) => Writing(item)
    case Probe => Awaiting
    case FetchData => Reading
    case FetchMeta(data, _) => Holding(Item(meta, data))
    case Returned(Got(item, _, _)) => Done(Value(item))
    case Returned(NoData) => Done(Absent)
    case Returned(NoMeta) => Done(Absent)
    case Returned(TimedOut) => Done(Expired)
    case _ => RegIdle
  }

  function Abs(c: Config, meta: Bytes): RegConfig {
    RegConfig(if c.cells.data.Some? then Some(Item(meta, c.cells.data.value)) else None,
              seq(|c.procs|, p requires 0 <= p < |c.procs| => AbsPc(c.procs[p], meta)))
  }

  /** A put takes effect when its data is written, a read when it fetches its data; a wait
      notices the value when a probe does; the accesses to the metadata key are invisible. */
  function AbsLabel(c: Config, l: Label): RegLabel {
    match l
    case Begin(p, op) => Invoke(p, op)
    case Run(p) =>
      if p < |c.procs| then
        match c.procs[p]
        case PutData(_) => Commit(p)
        case Probe => Notice(p)
        case FetchData => Sample(p)
        case FetchMeta(_, _) => Return(p)
        case _ => Stutter
      else Stutter
    case Expire(p) => if p < |c.procs| && c.procs[p].Probe? then GiveUp(p) else Stutter
    case Leave(p) => Forget(p)
    case Tau => Stutter
  }

  function AbsRun(c: Config, run: seq<Label>): (r: seq<RegLabel>)
    ensures |r| == |run|
  {
    if run == [] then []
    else
      var before := run[..|run| - 1];
      AbsRun(c, before) + [AbsLabel(Exec(c, before), run[|run| - 1])]
  }

  lemma RefinesStep(c: Config, l: Label, meta: Bytes)
    requires StableInv(c, meta) && StableLabel(l, meta)
    ensures Abs(Apply(c, l), meta) == RegApply(Abs(c, meta), AbsLabel(c, l))
  {
    var abs, abs' := RegApply(Abs(c, meta), AbsLabel(c, l)), Abs(Apply(c, l), meta);
    if !l.Tau? && l.p < |c.procs| {
      assert RecordPc(c.cells, c.procs[l.p], meta);
    }
    assert abs'.register == abs.register;
    assert abs'.procs == abs.procs;
  }

  /** Linearizability: whatever the interleaving of any number of writers and readers, a handle that
      is only ever put with one metadata record behaves as an atomic register. */
  lemma {:induction false} Linearizable(n: nat, run: seq<Label>, meta: Bytes)
    requires StableRun(run, meta)
    ensures Abs(Exec(Init(n), run), meta) == RegExec(RegInit(n), AbsRun(Init(n), run))
  {
    if run == [] {
      assert Abs(Init(n), meta).procs == RegInit(n).procs;
    } else {
      var k := |run| - 1;
      var before := run[..k];
      Linearizable(n, before, meta);
      StableExec(n, before, meta);
      assert StableLabel(run[k], meta);
      RefinesStep(Exec(Init(n), before), run[k], meta);
      assert AbsRun(Init(n), run)[..k] == AbsRun(Init(n), before);
    }
  }
}
