/** The key names of the active-learning workflow, and why no two of them ever meet in the store.

    Ranks and iterations are printed in decimal and are unbounded here. */
module WorkflowKeys {
  import opened Handles

  datatype Key =
    | SimX(rank: nat, iter: nat)
    | SimY(rank: nat, iter: nat)
    | Query(iter: nat)
    | Model(iter: nat)
    | Mse(iter: nat)
    | SimCount
    | ModelCount
    | MseCount

  function Digit(d: nat): char
    requires d < 10
  {
    "0123456789"[d]
  }

  function Decimal(n: nat): string {
    if n < 10 then [Digit(n)] else Decimal(n / 10) + [Digit(n % 10)]
  }

  function SimName(rank: nat, iter: nat): string {
    "sim_rank_" + Decimal(rank) + "_iter_" + Decimal(iter)
  }

  function Name(key: Key): string {
    match key
    case SimX(rank, iter) => SimName(rank, iter) + "_X"
    case SimY(rank, iter) => SimName(rank, iter) + "_y"
    case Query(iter) => "query_points_iter_" + Decimal(iter)
    case Model(iter) => "model_iter_" + Decimal(iter)
    case Mse(iter) => "mse_iter_" + Decimal(iter)
    case SimCount => "sim_meta_iter_count"
    case ModelCount => "model_iter_count"
    case MseCount => "mse_iter_count"
  }

  predicate Digits(s: string) {
    forall i :: 0 <= i < |s| ==> s[i] in "0123456789"
  }

  lemma {:induction false} DecimalDigits(n: nat)
    ensures Digits(Decimal(n)) && Decimal(n) != []
  {
    if 10 <= n {
      DecimalDigits(n / 10);
    }
  }

  lemma DigitInjective(d: nat, e: nat)
    requires d < 10 && e < 10 && Digit(d) == Digit(e)
    ensures d == e
  {
  }

  lemma LastDigit(n: nat)
    ensures Decimal(n) != []
    ensures Decimal(n)[|Decimal(n)| - 1] == Digit(n % 10)
    ensures Decimal(n)[..|Decimal(n)| - 1] == if n < 10 then [] else Decimal(n / 10)
  {
  }

  lemma {:induction false} DecimalInjective(a: nat, b: nat)
    requires Decimal(a) == Decimal(b)
    ensures a == b
  {
    LastDigit(a);
    LastDigit(b);
    DigitInjective(a % 10, b % 10);
    DecimalDigits(a / 10);
    DecimalDigits(b / 10);
    if 10 <= a && 10 <= b {
      DecimalInjective(a / 10, b / 10);
    }
  }

  /** The number that a string of digits stands for, most significant digit first. */
  function Value(s: string): nat
    requires Digits(s)
  {
    if s == [] then 0 else 10 * Value(s[..|s| - 1]) + (s[|s| - 1] as int - '0' as int)
  }

  lemma {:induction false} DecimalValue(n: nat)
    ensures Digits(Decimal(n)) && Value(Decimal(n)) == n
    ensures |Decimal(n)| > 1 ==> Decimal(n)[0] != '0'
  {
    DecimalDigits(n);
    LastDigit(n);
    DigitValue(n % 10);
    if 10 <= n {
      DecimalValue(n / 10);
      assert Decimal(n)[0] == Decimal(n / 10)[0];
      if |Decimal(n / 10)| == 1 {
        assert n / 10 < 10;
        DigitValue(n / 10);
      }
    } else {
      assert Decimal(n)[..0] == [];
    }
  }

  lemma DigitValue(d: nat)
    requires d < 10
    ensures Digit(d) as int - '0' as int == d
  {
  }

  /** The names as the two programs spell them, here for rank 3, iteration 7. */
  lemma SimNamesSpelled()
    ensures Name(SimX(3, 7)) == "sim_rank_3_iter_7_X" && Name(SimY(3, 7)) == "sim_rank_3_iter_7_y"
  {
    assert Decimal(3) == "3" && Decimal(7) == "7";
    assert SimName(3, 7) == "sim_rank_3_iter_7";
  }

  lemma TaskNamesSpelled()
    ensures Name(Query(7)) == "query_points_iter_7"
    ensures Name(Model(7)) == "model_iter_7" && Name(Mse(7)) == "mse_iter_7"
  {
    assert Decimal(7) == "7";
  }

  lemma CounterNamesSpelled()
    ensures DataKey(Name(SimCount)) == "sim_meta_iter_count"
    ensures DataKey(Name(ModelCount)) == "model_iter_count" && DataKey(Name(MseCount)) == "mse_iter_count"
    ensures MetadataKey(Name(MseCount)) == "metadata::mse_iter_count"
  {
  }

  function FirstSeparator(s: string): nat {
    if s == [] || s[0] == '_' then 0 else 1 + FirstSeparator(s[1..])
  }

  lemma {:induction false} DigitsEnd(a: string, s: string)
    requires Digits(a)
    ensures FirstSeparator(a + "_" + s) == |a|
  {
    if a != [] {
      DigitsEnd(a[1..], s);
      assert (a + "_" + s)[1..] == a[1..] + "_" + s;
    }
  }

  /** A number ends where the separator begins. */
  lemma SplitUnique(a: string, s: string, b: string, t: string)
    requires Digits(a) && Digits(b) && a + "_" + s == b + "_" + t
    ensures a == b && s == t
  {
    var u, v := a + "_" + s, b + "_" + t;
    DigitsEnd(a, s);
    DigitsEnd(b, t);
    assert a == u[..|a|] && b == v[..|b|];
    assert s == u[|a| + 1..] && t == v[|b| + 1..];
  }

  lemma SuffixInjective(prefix: string, a: string, b: string)
    requires prefix + a == prefix + b
    ensures a == b
  {
    assert a == (prefix + a)[|prefix|..] && b == (prefix + b)[|prefix|..];
  }

  lemma SimNameInjective(r: nat, i: nat, r': nat, i': nat)
    requires SimName(r, i) == SimName(r', i')
    ensures r == r' && i == i'
  {
    var s, t := "iter_" + Decimal(i), "iter_" + Decimal(i');
    assert SimName(r, i) == "sim_rank_" + (Decimal(r) + "_" + s);
    assert SimName(r', i') == "sim_rank_" + (Decimal(r') + "_" + t);
    SuffixInjective("sim_rank_", Decimal(r) + "_" + s, Decimal(r') + "_" + t);
    DecimalDigits(r);
    DecimalDigits(r');
    SplitUnique(Decimal(r), s, Decimal(r'), t);
    SuffixInjective("iter_", Decimal(i), Decimal(i'));
    DecimalInjective(r, r');
    DecimalInjective(i, i');
  }

  /** The family of a key, told from a few characters of its name. */
  function Family(name: string): nat
    requires 12 <= |name| || (10 <= |name| && name[1] == 's')
  {
    if name[0] == 'q' then 0
    else if name[0] == 's' then
      if name[4] == 'm' then 1 else if name[|name| - 1] == 'X' then 2 else 3
    else if name[1] == 'o' then
      if name[11] == 'c' then 4 else 5
    else
      if name[9] == 'c' then 6 else 7
  }

  function FamilyOf(key: Key): nat {
    match key
    case Query(_) => 0
    case SimCount => 1
    case SimX(_, _) => 2
    case SimY(_, _) => 3
    case ModelCount => 4
    case Model(_) => 5
    case MseCount => 6
    case Mse(_) => 7
  }

  predicate NameTellsFamily(key: Key) {
    var name := Name(key);
    && (12 <= |name| || (10 <= |name| && name[1] == 's'))
    && Family(name) == FamilyOf(key)
    && name[1] != 'e'
  }

  lemma SimNameFamily(key: Key)
    requires key.SimX? || key.SimY?
    ensures NameTellsFamily(key)
  {
    var name := Name(key);
    var tail := if key.SimX? then "_X" else "_y";
    var middle := Decimal(key.rank) + "_iter_" + Decimal(key.iter);
    assert name == "sim_rank_" + middle + tail;
    assert name[0] == 's' && name[1] == 'i' && name[4] == 'r';
    assert name[|name| - 1] == tail[1];
  }

  lemma ModelNameFamily(i: nat)
    ensures NameTellsFamily(Model(i))
  {
    DecimalDigits(i);
    assert Name(Model(i))[11] == Decimal(i)[0];
  }

  lemma MseNameFamily(i: nat)
    ensures NameTellsFamily(Mse(i))
  {
    DecimalDigits(i);
    assert Name(Mse(i))[9] == Decimal(i)[0];
  }

  lemma NameFamily(key: Key)
    ensures NameTellsFamily(key)
  {
    match key
    case SimX(_, _) => SimNameFamily(key);
    case SimY(_, _) => SimNameFamily(key);
    case Model(i) => ModelNameFamily(i);
    case Mse(i) => MseNameFamily(i);
    case _ =>
  }

  lemma NameInjective(a: Key, b: Key)
    requires Name(a) == Name(b)
    ensures a == b
  {
    NameFamily(a);
    NameFamily(b);
    match a
    case SimX(r, i) =>
      var SimX(r', i') := b;
      assert SimName(r, i) == Name(a)[..|Name(a)| - 2] && SimName(r', i') == Name(b)[..|Name(b)| - 2];
      SimNameInjective(r, i, r', i');
    case SimY(r, i) =>
      var SimY(r', i') := b;
      assert SimName(r, i) == Name(a)[..|Name(a)| - 2] && SimName(r', i') == Name(b)[..|Name(b)| - 2];
      SimNameInjective(r, i, r', i');
    case Query(i) => SuffixInjective("query_points_iter_", Decimal(i), Decimal(b.iter)); DecimalInjective(i, b.iter);
    case Model(i) => SuffixInjective("model_iter_", Decimal(i), Decimal(b.iter)); DecimalInjective(i, b.iter);
    case Mse(i) => SuffixInjective("mse_iter_", Decimal(i), Decimal(b.iter)); DecimalInjective(i, b.iter);
    case SimCount =>
    case ModelCount =>
    case MseCount =>
  }

  /** A place in the store: one of the two keys of a workflow item. */
  datatype Slot = Data(key: Key) | Meta(key: Key)

  function SlotKey(slot: Slot): string {
    match slot
    case Data(key) => DataKey(Name(key))
    case Meta(key) => MetadataKey(Name(key))
  }

  /** Distinct workflow items never share a store key, metadata keys included. */
  lemma SlotsDistinct(a: Slot, b: Slot)
    ensures SlotKey(a) == SlotKey(b) <==> a == b
  {
    if SlotKey(a) == SlotKey(b) {
      NameFamily(a.key);
      NameFamily(b.key);
      assert a.Meta? ==> SlotKey(a)[1] == 'e';
      assert b.Meta? ==> SlotKey(b)[1] == 'e';
      MetadataKeyInjective(Name(a.key), Name(b.key));
      NameInjective(a.key, b.key);
    }
  }
}
