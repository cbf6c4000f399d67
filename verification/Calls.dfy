/** What a call does and returns, told by its own accesses alone.

    A call is followed from its beginning through the cells that its own accesses saw. What a get or
    a wait returns, when a put or a delete is done, and what each access writes is then a function
    of the operation begun and of those sights, in every run; the program counters of module TwoKey
    do not appear in it. */
module Calls {
  import opened ByteCodec
  import opened Handles
  import opened MetaData
  import opened SharedStore
  import opened TwoKey
  import opened Wrappers

  /** The latest call of a process: the operation, the cells at each of its accesses so far, and
      whether it gave up waiting. */
  datatype Call = NoCall | Calling(op: Op, seen: seq<Cells>, expired: bool)

  predicate AllAbsent(seen: seq<Cells>) {
    forall k :: 0 <= k < |seen| ==> seen[k].data.None?
  }

  function Advance(c: Config, p: nat, call: Call, l: Label): Call
    requires p < |c.procs|
  {
    if l.Tau? || l.p != p then call
    else
      match l
      case Begin(_, op) => if Free(c.procs[p]) then Calling(op, [], false) else call
      case Run(_) =>
        if call.Calling? && !Free(c.procs[p]) then call.(seen := call.seen + [c.cells]) else call
      case Expire(_) =>
        if call.Calling? && call.op.Wait? && !Free(c.procs[p]) && c.cells.data.None? && AllAbsent(call.seen)
        then call.(expired := true) else call
      case Leave(_) => if Free(c.procs[p]) then NoCall else call
  }

  function CallOf(n: nat, run: seq<Label>, p: nat): Call
    requires p < n
  {
    if run == [] then NoCall
    else
      var before := run[..|run| - 1];
      Advance(Exec(Init(n), before), p, CallOf(n, before, p), run[|run| - 1])
  }

  /** The sights after the first that showed the data. */
  function AfterFound(seen: seq<Cells>): seq<Cells> {
    if seen == [] then []
    else if seen[0].data.Some? then seen[1..]
    else AfterFound(seen[1..])
  }

  /** What the fetches of a read saw; a wait fetches once a probe has shown the data. */
  function Fetches(call: Call): seq<Cells>
    requires call.Calling?
  {
    if call.op.Wait? then AfterFound(call.seen) else call.seen
  }

  /** What two fetches return, data first; nothing while the second has not been made. */
  function FetchResult(seen: seq<Cells>): Option<Outcome> {
    if seen == [] then None
    else if seen[0].data.None? then Some(NoData)
    else if |seen| == 1 then None
    else if seen[1].meta.None? then Some(NoMeta)
    else Some(Got(Item(seen[1].meta.value, seen[0].data.value), |seen[0].datas| - 1, |seen[1].metas| - 1))
  }

  /** What a get or wait has returned, if it has. */
  function Result(call: Call): Option<Outcome>
    requires call.Calling?
  {
    if call.expired then Some(TimedOut) else FetchResult(Fetches(call))
  }

  /** A put is done after two accesses, a delete after three, or after two if the second saw no
      metadata. */
  predicate Completed(call: Call)
    requires call.Calling?
  {
    match call.op
    case Put(_) => |call.seen| == 2
    case Delete => |call.seen| == 3 || (|call.seen| == 2 && call.seen[1].meta.None?)
    case _ => Result(call).Some?
  }

  predicate CallInv(pc: Pc, call: Call) {
    match pc
    case Idle => call.Calling? ==> (call.op.Put? || call.op.Delete?) && Completed(call)
    case PutMeta(item) => call == Calling(Put(item), [], false)
    case PutData(item) => call.Calling? && call.op == Put(item) && |call.seen| == 1
    case Probe => call.Calling? && call.op.Wait? && !call.expired && AllAbsent(call.seen)
    case FetchData =>
      && call.Calling? && (call.op.Get? || (call.op.Wait? && !AllAbsent(call.seen)))
      && !call.expired && Fetches(call) == []
    case FetchMeta(data, i) =>
      && call.Calling? && (call.op.Get? || (call.op.Wait? && !AllAbsent(call.seen))) && !call.expired
      && |Fetches(call)| == 1
      && Fetches(call)[0].data == Some(data) && i == |Fetches(call)[0].datas| - 1
    case DeleteData => call == Calling(Delete, [], false)
    case ProbeMeta => call.Calling? && call.op.Delete? && |call.seen| == 1
    case DeleteMeta => call.Calling? && call.op.Delete? && |call.seen| == 2 && call.seen[1].meta.Some?
    case Returned(o) => call.Calling? && (call.op.Get? || call.op.Wait?) && Result(call) == Some(o)
  }

  lemma {:induction false} AfterFoundAbsent(seen: seq<Cells>)
    requires AllAbsent(seen)
    ensures AfterFound(seen) == []
  {
    if seen != [] {
      AfterFoundAbsent(seen[1..]);
    }
  }

  lemma {:induction false} AfterFoundSnoc(seen: seq<Cells>, s: Cells)
    ensures AfterFound(seen + [s]) == if AllAbsent(seen) then [] else AfterFound(seen) + [s]
  {
    if seen != [] {
      assert (seen + [s])[1..] == seen[1..] + [s];
      if seen[0].data.None? {
        AfterFoundSnoc(seen[1..], s);
        assert AllAbsent(seen) <==> AllAbsent(seen[1..]);
      }
    }
  }

  lemma AllAbsentSnoc(seen: seq<Cells>, s: Cells)
    ensures AllAbsent(seen + [s]) <==> AllAbsent(seen) && s.data.None?
  {
    var longer := seen + [s];
    assert longer[|seen|] == s;
    assert forall k :: 0 <= k < |seen| ==> longer[k] == seen[k];
  }

  /** What one more access adds to the fetches. */
  lemma FetchesSnoc(call: Call, s: Cells)
    requires call.Calling? && (call.op.Wait? && AllAbsent(call.seen) ==> Fetches(call) == [])
    ensures Fetches(call.(seen := call.seen + [s])) ==
            if call.op.Wait? && AllAbsent(call.seen) then [] else Fetches(call) + [s]
  {
    AfterFoundSnoc(call.seen, s);
  }

  lemma AccessInv(s: Cells, pc: Pc, call: Call)
    requires CallInv(pc, call) && !Free(pc)
    ensures CallInv(Access(s, pc).1, call.(seen := call.seen + [s]))
  {
    AllAbsentSnoc(call.seen, s);
    if call.op.Wait? && AllAbsent(call.seen) {
      AfterFoundAbsent(call.seen);
    }
    FetchesSnoc(call, s);
  }

  lemma AdvanceInv(c: Config, p: nat, call: Call, l: Label)
    requires p < |c.procs| && CallInv(c.procs[p], call)
    ensures CallInv(Apply(c, l).procs[p], Advance(c, p, call, l))
  {
    if !l.Tau? && l.p == p {
      match l
      case Run(_) => if !Free(c.procs[p]) { AccessInv(c.cells, c.procs[p], call); }
      case Begin(_, op) =>
      case Expire(_) =>
      case Leave(_) =>
    }
  }

  lemma {:induction false} CallsInv(n: nat, run: seq<Label>, p: nat)
    requires p < n
    ensures CallInv(Exec(Init(n), run).procs[p], CallOf(n, run, p))
  {
    if run != [] {
      var before := run[..|run| - 1];
      CallsInv(n, before, p);
      AdvanceInv(Exec(Init(n), before), p, CallOf(n, before, p), run[|run| - 1]);
    }
  }

  /** In every run, a get or wait has returned exactly when what its own accesses saw determines a
      result, and then returned that; a put or delete is over exactly when it has made its accesses. */
  lemma CallReturns(n: nat, run: seq<Label>, p: nat)
    requires p < n && CallOf(n, run, p).Calling?
    ensures var pc, call := Exec(Init(n), run).procs[p], CallOf(n, run, p);
            && (Free(pc) <==> Completed(call))
            && (call.op.Get? || call.op.Wait? ==>
                  forall o :: pc == Returned(o) <==> Result(call) == Some(o))
  {
    CallsInv(n, run, p);
    var call := CallOf(n, run, p);
    if AllAbsent(call.seen) {
      AfterFoundAbsent(call.seen);
    }
  }

  /** A get never times out: its first access decides whether there is data. */
  lemma GetDecidesAtOnce(n: nat, run: seq<Label>, p: nat)
    requires p < n && CallOf(n, run, p).Calling? && CallOf(n, run, p).op.Get?
    ensures var pc, seen := Exec(Init(n), run).procs[p], CallOf(n, run, p).seen;
            && pc != Returned(TimedOut)
            && (pc == Returned(NoData) <==> seen != [] && seen[0].data.None?)
  {
    CallReturns(n, run, p);
    GetNeverExpires(n, run, p);
  }

  lemma {:induction false} GetNeverExpires(n: nat, run: seq<Label>, p: nat)
    requires p < n && CallOf(n, run, p).Calling? && !CallOf(n, run, p).op.Wait?
    ensures !CallOf(n, run, p).expired
  {
    var before := run[..|run| - 1];
    if CallOf(n, before, p).Calling? && !CallOf(n, before, p).op.Wait? {
      GetNeverExpires(n, before, p);
    }
  }

  /** As long as no access of a wait has shown the data, the wait goes on, or has given up. */
  lemma WaitWaits(n: nat, run: seq<Label>, p: nat)
    requires p < n && CallOf(n, run, p).Calling? && CallOf(n, run, p).op.Wait?
    ensures var pc, call := Exec(Init(n), run).procs[p], CallOf(n, run, p);
            AllAbsent(call.seen) ==> !Free(pc) || (pc == Returned(TimedOut) && call.expired)
  {
    CallReturns(n, run, p);
    var call := CallOf(n, run, p);
    if AllAbsent(call.seen) {
      AfterFoundAbsent(call.seen);
    }
  }

  /** The process is in, or ended, a wait one of whose accesses has shown the data. */
  predicate HasSeenData(call: Call) {
    call.Calling? && call.op.Wait? && !AllAbsent(call.seen)
  }

  predicate LostData(c: Config, p: nat, call: Call)
    requires p < |c.procs|
  {
    && HasSeenData(call)
    && ((c.procs[p].FetchData? && c.cells.data.None?) || c.procs[p] == Returned(NoData))
  }

  lemma LosesData(c: Config, p: nat, call: Call, l: Label)
    requires p < |c.procs| && CallInv(c.procs[p], call)
    requires LostData(Apply(c, l), p, Advance(c, p, call, l)) && !LostData(c, p, call)
    ensures l.Run? && l.p < |c.procs| && c.procs[l.p].DeleteData? && c.cells.data.Some?
    ensures HasSeenData(call)
  {
  }

  /** From step `m` on the process has been in one wait that has seen the data: a later call would
      have begun without. */
  predicate HasSeenDataSince(n: nat, run: seq<Label>, p: nat, m: nat)
    requires p < n
  {
    forall j :: m <= j <= |run| ==> HasSeenData(CallOf(n, run[..j], p))
  }

  lemma SeenStep(n: nat, run: seq<Label>, p: nat, m: nat)
    requires run != [] && p < n && m <= |run|
    requires HasSeenDataSince(n, run[..|run| - 1], p, m) && HasSeenData(CallOf(n, run, p))
    ensures HasSeenDataSince(n, run, p, m)
  {
    assert run[..|run|] == run;
    forall j | m <= j < |run|
      ensures HasSeenData(CallOf(n, run[..j], p))
    {
      assert run[..|run| - 1][..j] == run[..j];
    }
  }

  lemma {:induction false} LostToDelete(n: nat, run: seq<Label>, p: nat) returns (m: nat)
    requires p < n && LostData(Exec(Init(n), run), p, CallOf(n, run, p))
    ensures m < |run| && run[m].Run? && run[m].p < n
    ensures var c := Exec(Init(n), run[..m]); c.procs[run[m].p].DeleteData? && c.cells.data.Some?
    ensures HasSeenDataSince(n, run, p, m)
  {
    var last := |run| - 1;
    var before := run[..last];
    var c, call := Exec(Init(n), before), CallOf(n, before, p);
    CallsInv(n, before, p);
    if LostData(c, p, call) {
      m := LostToDelete(n, before, p);
      assert before[..m] == run[..m];
    } else {
      LosesData(c, p, call, run[last]);
      m := last;
      assert before[..last] == before;
    }
    SeenStep(n, run, p, m);
  }

  /** A wait ends without data only if one of its own accesses had shown the data, and a delete then
      removed it before the wait fetched it. */
  lemma WaitEndsInNoData(n: nat, run: seq<Label>, p: nat) returns (m: nat)
    requires p < n && Exec(Init(n), run).procs[p] == Returned(NoData)
    requires CallOf(n, run, p).Calling? && CallOf(n, run, p).op.Wait?
    ensures m < |run| && run[m].Run? && run[m].p < n
    ensures var c := Exec(Init(n), run[..m]); c.procs[run[m].p].DeleteData? && c.cells.data.Some?
    ensures HasSeenDataSince(n, run, p, m)
  {
    WaitWaits(n, run, p);
    m := LostToDelete(n, run, p);
  }

  /** Unless somebody deletes, a wait never ends without data. */
  lemma UndeletedWaitFindsData(n: nat, run: seq<Label>, p: nat)
    requires p < n && NoDeletes(run) && CallOf(n, run, p).Calling? && CallOf(n, run, p).op.Wait?
    ensures Exec(Init(n), run).procs[p] != Returned(NoData)
  {
    if Exec(Init(n), run).procs[p] == Returned(NoData) {
      var m := WaitEndsInNoData(n, run, p);
      UndeletedKeepsMetadata(n, run[..m]);
    }
  }

  // What each access writes.

  /** The two keys after an operation's access number `k`: a put writes metadata, then data; a delete
      removes data, looks for metadata, and removes it; reads change nothing. */
  function Written(op: Op, k: nat, meta: Option<Bytes>, data: Option<Bytes>): (Option<Bytes>, Option<Bytes>) {
    match op
    case Put(item) => if k == 0 then (Some(item.meta), data) else (meta, Some(item.data))
    case Delete => if k == 0 then (meta, None) else if k == 1 then (meta, data) else (None, data)
    case _ => (meta, data)
  }

  lemma AccessWrites(n: nat, run: seq<Label>, p: nat)
    requires p < n && CallOf(n, run, p).Calling? && !Free(Exec(Init(n), run).procs[p])
    ensures var s, call := Exec(Init(n), run).cells, CallOf(n, run, p);
            var s' := Exec(Init(n), run + [Run(p)]).cells;
            (s'.meta, s'.data) == Written(call.op, |call.seen|, s.meta, s.data)
  {
    CallsInv(n, run, p);
    assert (run + [Run(p)])[..|run|] == run;
  }

  // The same in the shared store.

  /** The latest call of a process in the shared store, with the handle it is on; what its accesses
      saw are the two keys of that handle. */
  datatype NamedCall = NamedCall(name: string, call: Call)

  function SharedAdvance(w: World, p: nat, current: NamedCall, e: Event): NamedCall
    requires p < |w.procs|
  {
    if e.p != p then current
    else
      var NamedCall(h, call) := current;
      match e
      case Call(_, name, op) =>
        if Free(w.procs[p].pc) then NamedCall(name, Calling(op, [], false)) else current
      case Step(_) =>
        if call.Calling? && !Free(w.procs[p].pc)
        then NamedCall(h, call.(seen := call.seen + [CellsOf(w, h)])) else current
      case GiveUpWait(_) =>
        if && call.Calling? && call.op.Wait? && !Free(w.procs[p].pc)
           && DataKey(h) !in w.store && AllAbsent(call.seen)
        then NamedCall(h, call.(expired := true)) else current
  }

  function SharedCallOf(n: nat, run: seq<Event>, p: nat): NamedCall
    requires p < n
  {
    if run == [] then NamedCall("", NoCall)
    else
      var before := run[..|run| - 1];
      SharedAdvance(Play(EmptyWorld(n), before), p, SharedCallOf(n, before, p), run[|run| - 1])
  }

  /** Seen from one handle, a process that works on another has no call. */
  function ProjCall(current: NamedCall, h: string): Call {
    if current.name == h then current.call else NoCall
  }

  lemma ProjAdvance(w: World, p: nat, current: NamedCall, e: Event, h: string)
    requires p < |w.procs| && current.name == w.procs[p].name
    ensures SharedAdvance(w, p, current, e).name == Next(w, e).procs[p].name
    ensures ProjCall(SharedAdvance(w, p, current, e), h) ==
            Advance(Proj(w, h), p, ProjCall(current, h), ProjEvent(w, e, h))
  {
    assert Proj(w, h).procs[p] == ProjPc(w.procs[p], h);
  }

  /** The call of a process on `h` is the call that the projected run makes. */
  lemma {:induction false} ProjCallOf(n: nat, run: seq<Event>, h: string, p: nat)
    requires CallsApart(run, h) && p < n
    ensures CallOf(n, ProjRun(EmptyWorld(n), run, h), p) == ProjCall(SharedCallOf(n, run, p), h)
    ensures SharedCallOf(n, run, p).name == Play(EmptyWorld(n), run).procs[p].name
  {
    if run != [] {
      var k := |run| - 1;
      var labels := ProjRun(EmptyWorld(n), run, h);
      ProjRunPrefix(EmptyWorld(n), run, h, k);
      assert CallsApart(run[..k], h);
      ProjCallOf(n, run[..k], h, p);
      OtherHandlesInvisible(n, run[..k], h);
      ProjAdvance(Play(EmptyWorld(n), run[..k]), p, SharedCallOf(n, run[..k], p), run[k], h);
      assert labels[..|labels| - 1] == ProjRun(EmptyWorld(n), run[..k], h);
    }
  }

  /** The process is calling on `h`, among names that do not collide. */
  predicate CallsOn(n: nat, run: seq<Event>, names: set<string>, h: string, p: nat) {
    && NonColliding(names) && CallsIn(run, names) && h in names
    && p < n && SharedCallOf(n, run, p).name == h && SharedCallOf(n, run, p).call.Calling?
  }

  lemma CallsOnProj(n: nat, run: seq<Event>, names: set<string>, h: string, p: nat)
    requires CallsOn(n, run, names, h, p)
    ensures CallsApart(run, h)
    ensures var labels := ProjRun(EmptyWorld(n), run, h);
            && CallOf(n, labels, p) == SharedCallOf(n, run, p).call
            && Exec(Init(n), labels) == Proj(Play(EmptyWorld(n), run), h)
            && Exec(Init(n), labels).procs[p] == Play(EmptyWorld(n), run).procs[p].pc
            && Play(EmptyWorld(n), run).procs[p].name == h
  {
    CallsInApart(run, names, h);
    ProjCallOf(n, run, h, p);
    OtherHandlesInvisible(n, run, h);
    var w := Play(EmptyWorld(n), run);
    assert Proj(w, h).procs[p] == ProjPc(w.procs[p], h);
  }

  /** In the shared store, any traffic on other handles included, a get or wait returns exactly what
      its own accesses to the two keys of its handle determine. */
  lemma SharedCallReturns(n: nat, run: seq<Event>, names: set<string>, h: string, p: nat)
    requires CallsOn(n, run, names, h, p)
    ensures var pc, call := Play(EmptyWorld(n), run).procs[p].pc, SharedCallOf(n, run, p).call;
            && (Free(pc) <==> Completed(call))
            && (call.op.Get? || call.op.Wait? ==>
                  forall o :: pc == Returned(o) <==> Result(call) == Some(o))
  {
    CallsOnProj(n, run, names, h, p);
    CallReturns(n, ProjRun(EmptyWorld(n), run, h), p);
  }

  lemma SharedGetDecidesAtOnce(n: nat, run: seq<Event>, names: set<string>, h: string, p: nat)
    requires CallsOn(n, run, names, h, p) && SharedCallOf(n, run, p).call.op.Get?
    ensures var pc, seen := Play(EmptyWorld(n), run).procs[p].pc, SharedCallOf(n, run, p).call.seen;
            && pc != Returned(TimedOut)
            && (pc == Returned(NoData) <==> seen != [] && seen[0].data.None?)
  {
    CallsOnProj(n, run, names, h, p);
    GetDecidesAtOnce(n, ProjRun(EmptyWorld(n), run, h), p);
  }

  /** In the shared store, a wait ends without data only if one of its own accesses had shown the data
      key and a delete of that handle then removed it. */
  lemma SharedWaitEndsInNoData(n: nat, run: seq<Event>, names: set<string>, h: string, p: nat)
    returns (m: nat)
    requires CallsOn(n, run, names, h, p) && SharedCallOf(n, run, p).call.op.Wait?
    requires Play(EmptyWorld(n), run).procs[p].pc == Returned(NoData)
    ensures m < |run| && run[m].Step? && run[m].p < n
    ensures var w := Play(EmptyWorld(n), run[..m]);
            w.procs[run[m].p] == Proc(h, DeleteData) && DataKey(h) in w.store
    ensures forall j :: m <= j <= |run| ==>
              SharedCallOf(n, run[..j], p).name == h && HasSeenData(SharedCallOf(n, run[..j], p).call)
  {
    var labels := ProjRun(EmptyWorld(n), run, h);
    CallsOnProj(n, run, names, h, p);
    m := WaitEndsInNoData(n, labels, p);
    ProjEventBack(n, run, h, m, labels[m].p);
    ProjAt(n, run, h, m);
    var w := Play(EmptyWorld(n), run[..m]);
    assert Proj(w, h).procs[run[m].p] == ProjPc(w.procs[run[m].p], h);
    forall j | m <= j <= |run|
      ensures SharedCallOf(n, run[..j], p).name == h
      ensures HasSeenData(SharedCallOf(n, run[..j], p).call)
    {
      ProjCallAt(n, run, h, p, j);
      assert HasSeenData(CallOf(n, labels[..j], p));
    }
  }

  lemma ProjCallAt(n: nat, run: seq<Event>, h: string, p: nat, j: nat)
    requires CallsApart(run, h) && p < n && j <= |run|
    ensures CallOf(n, ProjRun(EmptyWorld(n), run, h)[..j], p) == ProjCall(SharedCallOf(n, run[..j], p), h)
  {
    var labels := ProjRun(EmptyWorld(n), run, h);
    if j < |run| {
      ProjRunPrefix(EmptyWorld(n), run, h, j);
    } else {
      assert run[..j] == run && labels[..j] == labels;
    }
    assert CallsApart(run[..j], h);
    ProjCallOf(n, run[..j], h, p);
  }

  /** In the shared store, a wait on a handle that nobody deletes never ends without data. */
  lemma SharedUndeletedWaitFindsData(n: nat, run: seq<Event>, names: set<string>, h: string, p: nat)
    requires CallsOn(n, run, names, h, p) && SharedCallOf(n, run, p).call.op.Wait?
    requires NeverDeleted(run, h)
    ensures Play(EmptyWorld(n), run).procs[p].pc != Returned(NoData)
  {
    CallsOnProj(n, run, names, h, p);
    ProjNoDeletes(EmptyWorld(n), run, h);
    UndeletedWaitFindsData(n, ProjRun(EmptyWorld(n), run, h), p);
  }
}
