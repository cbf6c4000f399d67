/** The in-memory example store, whose `insert` keeps the first value of a key, against the
    overwriting store that the client interface promises. */
module InMemory {
  import opened ByteCodec
  import opened Handles
  import opened Wrappers

  datatype StoreOp = PutOp(key: string, value: Bytes) | DeleteOp(key: string)

  /** `std::unordered_map::insert`: no effect on a key that is present. */
  function Insert(m: Store, key: string, value: Bytes): Store {
    if key in m then m else m[key := value]
  }

  function InsertStep(m: Store, op: StoreOp): Store {
    match op
    case PutOp(key, value) => Insert(m, key, value)
    case DeleteOp(key) => m - {key}
  }

  function OverwriteStep(m: Store, op: StoreOp): Store {
    match op
    case PutOp(key, value) => m[key := value]
    case DeleteOp(key) => m - {key}
  }

  function InsertRun(ops: seq<StoreOp>): Store {
    if ops == [] then map[] else InsertStep(InsertRun(ops[..|ops| - 1]), ops[|ops| - 1])
  }

  function OverwriteRun(ops: seq<StoreOp>): Store {
    if ops == [] then map[] else OverwriteStep(OverwriteRun(ops[..|ops| - 1]), ops[|ops| - 1])
  }

  /** The values put to `key` since its last delete, oldest first. */
  function PutsSinceDelete(ops: seq<StoreOp>, key: string): seq<Bytes> {
    if ops == [] then []
    else
      var earlier := PutsSinceDelete(ops[..|ops| - 1], key);
      var op := ops[|ops| - 1];
      if op.key != key then earlier
      else if op.PutOp? then earlier + [op.value]
      else []
  }

  function First(values: seq<Bytes>): Option<Bytes> {
    if values == [] then None else Some(values[0])
  }

  function Last(values: seq<Bytes>): Option<Bytes> {
    if values == [] then None else Some(values[|values| - 1])
  }

  /** The insert store holds the first value put since the last delete, the promised store the
      last one. */
  lemma {:induction false} StoresHold(ops: seq<StoreOp>, key: string)
    ensures Lookup(InsertRun(ops), key) == First(PutsSinceDelete(ops, key))
    ensures Lookup(OverwriteRun(ops), key) == Last(PutsSinceDelete(ops, key))
  {
    if ops != [] {
      StoresHold(ops[..|ops| - 1], key);
    }
  }

  /** A caller's guard before each put: the key is absent, or already holds these bytes. */
  predicate PutsFresh(ops: seq<StoreOp>) {
    forall k :: 0 <= k < |ops| && ops[k].PutOp? ==>
      ops[k].key !in InsertRun(ops[..k]) || InsertRun(ops[..k])[ops[k].key] == ops[k].value
  }

  predicate AgreeThroughout(ops: seq<StoreOp>) {
    forall k :: 0 <= k <= |ops| ==> InsertRun(ops[..k]) == OverwriteRun(ops[..k])
  }

  lemma {:induction false} FreshAgree(ops: seq<StoreOp>)
    requires PutsFresh(ops)
    ensures InsertRun(ops) == OverwriteRun(ops)
  {
    if ops != [] {
      var last := |ops| - 1;
      var before := ops[..last];
      forall k | 0 <= k < |before| && before[k].PutOp?
        ensures before[k].key !in InsertRun(before[..k])
                || InsertRun(before[..k])[before[k].key] == before[k].value
      {
        assert before[..k] == ops[..k] && before[k] == ops[k];
      }
      FreshAgree(before);
      assert ops[last] == ops[last];
    }
  }

  /** Exactly when the insert store refines the promised one: every put finds its key absent, or
      holding the very bytes that are put. */
  lemma RefinesIff(ops: seq<StoreOp>)
    ensures AgreeThroughout(ops) <==> PutsFresh(ops)
  {
    if PutsFresh(ops) {
      forall k | 0 <= k <= |ops|
        ensures InsertRun(ops[..k]) == OverwriteRun(ops[..k])
      {
        FreshPrefix(ops, k);
        FreshAgree(ops[..k]);
      }
    }
    if AgreeThroughout(ops) {
      forall k | 0 <= k < |ops| && ops[k].PutOp?
        ensures ops[k].key !in InsertRun(ops[..k])
                || InsertRun(ops[..k])[ops[k].key] == ops[k].value
      {
        assert InsertRun(ops[..k]) == OverwriteRun(ops[..k]);
        assert InsertRun(ops[..k + 1]) == OverwriteRun(ops[..k + 1]);
        assert ops[..k + 1][..k] == ops[..k];
      }
    }
  }

  lemma FreshPrefix(ops: seq<StoreOp>, n: nat)
    requires PutsFresh(ops) && n <= |ops|
    ensures PutsFresh(ops[..n])
  {
    forall k | 0 <= k < n && ops[..n][k].PutOp?
      ensures var m := InsertRun(ops[..n][..k]);
              ops[..n][k].key !in m || m[ops[..n][k].key] == ops[..n][k].value
    {
      assert ops[..n][..k] == ops[..k] && ops[..n][k] == ops[k];
    }
  }

  /** In particular every history that puts each key at most once between deletes. */
  lemma PutOnceRefines(ops: seq<StoreOp>)
    requires forall k, key :: 0 <= k <= |ops| ==> |PutsSinceDelete(ops[..k], key)| <= 1
    ensures AgreeThroughout(ops)
  {
    forall k | 0 <= k < |ops| && ops[k].PutOp?
      ensures ops[k].key !in InsertRun(ops[..k])
    {
      var key := ops[k].key;
      assert ops[..k + 1][..k] == ops[..k];
      assert |PutsSinceDelete(ops[..k + 1], key)| <= 1;
      StoresHold(ops[..k], key);
    }
    RefinesIff(ops);
  }

  /** Overwriting fails: after two puts the store still holds the first value. */
  lemma OverwriteIgnored(key: string, a: Bytes, b: Bytes)
    requires a != b
    ensures var ops := [PutOp(key, a), PutOp(key, b)];
            InsertRun(ops)[key] == a && OverwriteRun(ops)[key] == b
  {
    var ops := [PutOp(key, a), PutOp(key, b)];
    assert ops[..1] == [PutOp(key, a)] && ops[..1][..0] == [];
    assert InsertRun([PutOp(key, a)]) == map[key := a];
    assert OverwriteRun([PutOp(key, a)]) == map[key := a];
  }

  class UnorderedMapClient {
    var entries: Store
    ghost var history: seq<StoreOp>

    ghost predicate Valid()
      reads this
    {
      entries == InsertRun(history)
    }

    constructor ()
      ensures Valid() && history == []
    {
      entries, history := map[], [];
    }

    method Contains(key: string) returns (found: bool)
      requires Valid()
      ensures found <==> PutsSinceDelete(history, key) != []
    {
      found := key in entries;
      StoresHold(history, key);
    }

    method DeleteKey(key: string)
      requires Valid()
      modifies this
      ensures Valid() && history == old(history) + [DeleteOp(key)]
    {
      entries := entries - {key};
      history := history + [DeleteOp(key)];
      assert history[..|history| - 1] == old(history);
    }

    method PutBytes(key: string, bytes: Bytes)
      requires Valid()
      modifies this
      ensures Valid() && history == old(history) + [PutOp(key, bytes)]
    {
      if key !in entries {
        entries := entries[key := bytes];
      }
      history := history + [PutOp(key, bytes)];
      assert history[..|history| - 1] == old(history);
    }

    /** What a read finds: the first value put since the last delete of the key. */
    method GetBytes(key: string) returns (r: Result<Bytes>)
      requires Valid()
      ensures var values := PutsSinceDelete(history, key);
              r == if values == [] then Err(KeyNotFound) else Ok(values[0])
    {
      StoresHold(history, key);
      r := if key in entries then Ok(entries[key]) else Err(KeyNotFound);
    }
  }
}
