/** The owning byte buffer: a unique pointer and a length, handed on by moves.

    Allocations, of any pointer type, are followed through any sequence of constructions, moves,
    releases and destructions of any number of buffers; the methods of the buffer object are steps
    of such a sequence. */
module BytesBuffer {
  import opened ByteCodec
  import opened Machine
  import opened Wrappers

  /** What a buffer owns and the length it records. */
  datatype Buffer<+A> = Buffer(data: Option<A>, length: Word)

  /** All buffers ever made (a destroyed one owns nothing), and the allocations handed out by
      `release` and those freed, each as often as it was. */
  datatype Pool<A(==)> = Pool(buffers: seq<Buffer<A>>, handedOut: multiset<A>, freed: multiset<A>)

  datatype Op<+A> =
    | Build(data: Option<A>, length: Word)
    | MoveConstruct(source: nat)
    | MoveAssign(target: nat, source: nat)
    | Release(b: nat)
    | Destroy(b: nat)

  function Null<A>(): Buffer<A> {
    Buffer(None, 0)
  }

  function Of<A>(p: Option<A>): multiset<A> {
    if p.Some? then multiset{p.value} else multiset{}
  }

  function Apply<A>(p: Pool<A>, op: Op<A>): Pool<A> {
    match op
    case Build(data, length) => p.(buffers := p.buffers + [Buffer(data, length)])
    case MoveConstruct(s) =>
      if s < |p.buffers|
      then p.(buffers := p.buffers[s := Null()] + [p.buffers[s]]) else p
    case MoveAssign(t, s) =>
      if t < |p.buffers| && s < |p.buffers| && t != s
      then p.(buffers := p.buffers[t := p.buffers[s]][s := Null()],
              freed := p.freed + Of(p.buffers[t].data))
      else p
    case Release(b) =>
      if b < |p.buffers|
      then p.(buffers := p.buffers[b := Null()], handedOut := p.handedOut + Of(p.buffers[b].data))
      else p
    case Destroy(b) =>
      if b < |p.buffers|
      then p.(buffers := p.buffers[b := Null()], freed := p.freed + Of(p.buffers[b].data))
      else p
  }

  function Run<A>(ops: seq<Op<A>>): Pool<A> {
    if ops == [] then Pool([], multiset{}, multiset{})
    else Apply(Run(ops[..|ops| - 1]), ops[|ops| - 1])
  }

  /** 1 if the buffer owns allocation `a`, else 0. */
  function Holds<A(==)>(b: Buffer<A>, a: A): nat {
    if b.data == Some(a) then 1 else 0
  }

  /** The number of buffers that own allocation `a`. */
  function Holders<A(==)>(buffers: seq<Buffer<A>>, a: A): nat {
    if buffers == [] then 0
    else Holders(buffers[..|buffers| - 1], a) + Holds(buffers[|buffers| - 1], a)
  }

  lemma {:induction false} HoldersUpdate<A>(buffers: seq<Buffer<A>>, i: nat, b: Buffer<A>, a: A)
    requires i < |buffers|
    ensures Holders(buffers[i := b], a) == Holders(buffers, a) - Holds(buffers[i], a) + Holds(b, a)
  {
    var last := |buffers| - 1;
    var updated := buffers[i := b];
    if i == last {
      assert updated[..last] == buffers[..last];
    } else {
      assert updated[..last] == buffers[..last][i := b];
      HoldersUpdate(buffers[..last], i, b, a);
    }
  }

  lemma HoldersSnoc<A>(buffers: seq<Buffer<A>>, b: Buffer<A>, a: A)
    ensures Holders(buffers + [b], a) == Holders(buffers, a) + Holds(b, a)
  {
    assert (buffers + [b])[..|buffers|] == buffers;
  }

  /** The places where allocation `a` is: buffers, the released, the freed. */
  function Places<A(==)>(p: Pool<A>, a: A): nat {
    Holders(p.buffers, a) + p.handedOut[a] + p.freed[a]
  }

  lemma AssignConserves<A>(buffers: seq<Buffer<A>>, t: nat, s: nat, a: A)
    requires t < |buffers| && s < |buffers| && t != s
    ensures Holders(buffers[t := buffers[s]][s := Null()], a)
            == Holders(buffers, a) - Holds(buffers[t], a)
  {
    HoldersUpdate(buffers, t, buffers[s], a);
    HoldersUpdate(buffers[t := buffers[s]], s, Null(), a);
  }

  predicate Builds<A(==)>(op: Op<A>, a: A) {
    op.Build? && op.data == Some(a)
  }

  /** Only building a buffer around an allocation adds a place where it is. */
  lemma ApplyConserves<A>(p: Pool<A>, op: Op<A>, a: A)
    ensures Places(Apply(p, op), a) == Places(p, a) + if Builds(op, a) then 1 else 0
  {
    var n := |p.buffers|;
    match op
    case Build(data, length) =>
      HoldersSnoc(p.buffers, Buffer(data, length), a);
    case MoveConstruct(s) =>
      if s < n {
        HoldersUpdate(p.buffers, s, Null(), a);
        HoldersSnoc(p.buffers[s := Null()], p.buffers[s], a);
      }
    case MoveAssign(t, s) =>
      if t < n && s < n && t != s {
        AssignConserves(p.buffers, t, s, a);
      }
    case Release(b) =>
      if b < n {
        HoldersUpdate(p.buffers, b, Null(), a);
      }
    case Destroy(b) =>
      if b < n {
        HoldersUpdate(p.buffers, b, Null(), a);
      }
  }

  /** Each allocation is fresh: no two buffers are built around the same one. */
  predicate FreshBuilds<A(==)>(ops: seq<Op<A>>) {
    forall j, k :: 0 <= j < k < |ops| && ops[j].Build? && ops[j].data.Some? ==>
      !Builds(ops[k], ops[j].data.value)
  }

  /** A buffer was built around `a`. */
  predicate Made<A(==)>(ops: seq<Op<A>>, a: A) {
    exists k :: 0 <= k < |ops| && Builds(ops[k], a)
  }

  lemma MadeSnoc<A>(ops: seq<Op<A>>, a: A)
    requires FreshBuilds(ops) && ops != []
    ensures var before, op := ops[..|ops| - 1], ops[|ops| - 1];
            && FreshBuilds(before)
            && (Made(ops, a) <==> Made(before, a) || Builds(op, a))
            && !(Made(before, a) && Builds(op, a))
  {
    var before, op := ops[..|ops| - 1], ops[|ops| - 1];
    if k :| 0 <= k < |before| && Builds(before[k], a) {
      assert Builds(ops[k], a);
    }
    if k :| 0 <= k < |ops| && Builds(ops[k], a) {
      assert k < |before| ==> Builds(before[k], a);
    }
  }

  /** Ownership is conserved by every sequence of operations, self-assignment included: each
      allocation made is in exactly one place, once. Nothing leaks, and nothing is owned twice,
      handed out twice or freed twice. */
  lemma {:induction false} OwnershipConserved<A>(ops: seq<Op<A>>, a: A)
    requires FreshBuilds(ops)
    ensures Places(Run(ops), a) == if Made(ops, a) then 1 else 0
  {
    if ops != [] {
      var before := ops[..|ops| - 1];
      MadeSnoc(ops, a);
      OwnershipConserved(before, a);
      ApplyConserves(Run(before), ops[|ops| - 1], a);
    }
  }

  /** Only `release` hands out: without one, every allocation that no buffer owns any more was freed,
      once. */
  lemma {:induction false} UnreleasedIsFreed<A>(ops: seq<Op<A>>, a: A)
    requires FreshBuilds(ops) && forall k :: 0 <= k < |ops| ==> !ops[k].Release?
    ensures Run(ops).handedOut == multiset{}
    ensures Made(ops, a) && Holders(Run(ops).buffers, a) == 0 ==> Run(ops).freed[a] == 1
  {
    OwnershipConserved(ops, a);
    if ops != [] {
      MadeSnoc(ops, a);
      UnreleasedIsFreed(ops[..|ops| - 1], a);
    }
  }

  /** Only destruction and move assignment free: without them, every allocation that no buffer owns any
      more was handed out, once. */
  lemma {:induction false} UndestroyedIsHandedOut<A>(ops: seq<Op<A>>, a: A)
    requires FreshBuilds(ops)
    requires forall k :: 0 <= k < |ops| ==> !ops[k].Destroy? && !ops[k].MoveAssign?
    ensures Run(ops).freed == multiset{}
    ensures Made(ops, a) && Holders(Run(ops).buffers, a) == 0 ==> Run(ops).handedOut[a] == 1
  {
    OwnershipConserved(ops, a);
    if ops != [] {
      MadeSnoc(ops, a);
      UndestroyedIsHandedOut(ops[..|ops| - 1], a);
    }
  }

  /** The end of all buffers. */
  function DestroyAll<A>(n: nat): seq<Op<A>> {
    if n == 0 then [] else DestroyAll(n - 1) + [Destroy(n - 1)]
  }

  lemma RunSnoc<A>(ops: seq<Op<A>>, op: Op<A>)
    ensures Run(ops + [op]) == Apply(Run(ops), op)
  {
    assert (ops + [op])[..|ops|] == ops;
  }

  lemma DestroyOne<A>(p: Pool<A>, n: nat)
    requires 0 < n <= |p.buffers| && forall b :: 0 <= b < n - 1 ==> p.buffers[b] == Null()
    ensures var p' := Apply(p, Destroy(n - 1));
            |p'.buffers| == |p.buffers| && forall b :: 0 <= b < n ==> p'.buffers[b] == Null()
  {
  }

  lemma {:induction false} AllDestroyed<A>(ops: seq<Op<A>>, n: nat)
    requires n <= |Run(ops).buffers|
    ensures |Run(ops + DestroyAll(n)).buffers| == |Run(ops).buffers|
    ensures forall b :: 0 <= b < n ==> Run(ops + DestroyAll(n)).buffers[b] == Null()
  {
    if n == 0 {
      assert ops + DestroyAll(0) == ops;
    } else {
      AllDestroyed(ops, n - 1);
      var earlier := ops + DestroyAll(n - 1);
      assert ops + DestroyAll(n) == earlier + [Destroy(n - 1)];
      RunSnoc(earlier, Destroy(n - 1));
      DestroyOne(Run(earlier), n);
    }
  }

  lemma {:induction false} NullsHoldNothing<A>(buffers: seq<Buffer<A>>, a: A)
    requires forall b :: 0 <= b < |buffers| ==> buffers[b] == Null()
    ensures Holders(buffers, a) == 0
  {
    if buffers != [] {
      NullsHoldNothing(buffers[..|buffers| - 1], a);
    }
  }

  lemma MadeMore<A>(ops: seq<Op<A>>, n: nat, a: A)
    requires FreshBuilds(ops)
    ensures FreshBuilds(ops + DestroyAll(n))
    ensures Made(ops + DestroyAll(n), a) <==> Made(ops, a)
  {
    var all := ops + DestroyAll(n);
    OnlyDestroys<A>(n);
    assert forall k :: 0 <= k < |all| && all[k].Build? ==> k < |ops| && all[k] == ops[k];
    if k :| 0 <= k < |ops| && Builds(ops[k], a) {
      assert Builds(all[k], a);
    }
  }

  lemma {:induction false} OnlyDestroys<A>(n: nat)
    ensures forall k :: 0 <= k < |DestroyAll<A>(n)| ==> DestroyAll<A>(n)[k].Destroy?
  {
    if n != 0 {
      OnlyDestroys<A>(n - 1);
    }
  }

  /** Nothing leaks: once all buffers are destroyed, every allocation has been freed or handed out,
      once. */
  lemma NothingLeaks<A>(ops: seq<Op<A>>, a: A)
    requires FreshBuilds(ops) && Made(ops, a)
    ensures var p := Run(ops + DestroyAll(|Run(ops).buffers|)); p.handedOut[a] + p.freed[a] == 1
  {
    var n := |Run(ops).buffers|;
    MadeMore(ops, n, a);
    OwnershipConserved(ops + DestroyAll(n), a);
    AllDestroyed(ops, n);
    NullsHoldNothing(Run(ops + DestroyAll(n)).buffers, a);
  }

  /** If no buffer is built from a null pointer and a positive length, a null buffer always has
      length 0. */
  lemma {:induction false} NullHasNoLength<A>(ops: seq<Op<A>>, b: nat)
    requires forall k :: 0 <= k < |ops| && ops[k].Build? && ops[k].data.None? ==> ops[k].length == 0
    requires b < |Run(ops).buffers|
    ensures Run(ops).buffers[b].data.None? ==> Run(ops).buffers[b].length == 0
  {
    var last := |ops| - 1;
    var p := Run(ops[..last]);
    forall c: nat | c < |p.buffers|
      ensures p.buffers[c].data.None? ==> p.buffers[c].length == 0
    {
      NullHasNoLength(ops[..last], c);
    }
    assert ops[last].Build? && ops[last].data.None? ==> ops[last].length == 0;
  }

  type Memory = array<Byte>

  /** These buffers, with these allocations handed out and freed so far. */
  function PoolOf(buffers: seq<Buffer<Memory>>, handedOut: Option<Memory>, freed: Option<Memory>): Pool<Memory> {
    Pool(buffers, Of(handedOut), Of(freed))
  }

  /** The buffer object. A null `data` is a unique pointer that owns nothing. */
  class Owner {
    var data: array?<Byte>
    var length: Word

    function View(): Buffer<Memory>
      reads this
    {
      Buffer(AsOption(data), length)
    }

    constructor Empty()
      ensures View() == Buffer(None, 0)
      ensures PoolOf([View()], None, None) == Apply(PoolOf([], None, None), Build(None, 0))
    {
      data, length := null, 0;
    }

    constructor (data: array?<Byte>, length: Word)
      ensures View() == Buffer(AsOption(data), length)
      ensures PoolOf([View()], None, None) == Apply(PoolOf([], None, None), Build(AsOption(data), length))
    {
      this.data, this.length := data, length;
    }

    constructor Move(other: Owner)
      modifies other
      ensures View() == old(other.View()) && other.View() == Buffer(None, 0)
      ensures PoolOf([other.View(), View()], None, None) ==
              Apply(PoolOf([old(other.View())], None, None), MoveConstruct(0))
    {
      data, length := other.data, other.length;
      new;
      other.data := null;
      other.length := 0;
    }

    method Release() returns (p: array?<Byte>)
      modifies this
      ensures AsOption(p) == old(View()).data && View() == Buffer(None, 0)
      ensures PoolOf([View()], AsOption(p), None) == Apply(PoolOf([old(View())], None, None), Op.Release(0))
    {
      length := 0;
      p := data;
      data := null;
    }

    /** Move assignment; `freed` is the allocation that this buffer owned before. */
    method Assign(other: Owner) returns (freed: array?<Byte>)
      modifies this, other
      ensures other == this ==> freed == null && View() == old(View())
      ensures other == this ==>
        PoolOf([View()], None, AsOption(freed)) == Apply(PoolOf([old(View())], None, None), MoveAssign(0, 0))
      ensures other != this ==>
        && AsOption(freed) == old(View()).data
        && View() == old(other.View()) && other.View() == Buffer(None, 0)
      ensures other != this ==>
        PoolOf([View(), other.View()], None, AsOption(freed)) ==
        Apply(PoolOf([old(View()), old(other.View())], None, None), MoveAssign(0, 1))
    {
      freed := null;
      if other != this {
        length := other.length;
        var taken := other.Release();
        freed := data;
        data := taken;
      }
    }
  }

  function AsOption(p: array?<Byte>): Option<Memory> {
    if p == null then None else Some(p)
  }
}
