/** The order in which a hash map hands out its keys. The order is not
    specified, so the model takes it as a parameter: any list of the keys
    without repetitions. */
module HashOrder {
  import opened Bytes

  predicate Distinct(s: seq<Byte>) {
    forall i, j :: 0 <= i < j < |s| ==> s[i] != s[j]
  }

  /** `order` lists every key of `keys` exactly once, as iterating a map's keys does. */
  ghost predicate IsEnumeration(order: seq<Byte>, keys: set<Byte>) {
    Distinct(order) && forall b :: b in order <==> b in keys
  }

  /** The keys of `keys` that are at least `lo`, in ascending order. */
  function Ascending(keys: set<Byte>, lo: nat): (order: seq<Byte>)
    requires lo <= 256
    ensures Distinct(order)
    ensures forall b :: b in order <==> b in keys && lo <= b
    decreases 256 - lo
  {
    if lo == 256 then []
    else
      var b: Byte := lo;
      if b in keys then [b] + Ascending(keys, lo + 1) else Ascending(keys, lo + 1)
  }

  /** One key order of a map with key set `keys`: the keys that `hint` names
      come first, in the order of their first mention in `hint`; the others
      follow in ascending order. */
  function Enumerate(keys: set<Byte>, hint: seq<Byte>): (order: seq<Byte>)
    ensures IsEnumeration(order, keys)
    decreases |hint|
  {
    if hint == [] then Ascending(keys, 0)
    else if hint[0] in keys then [hint[0]] + Enumerate(keys - {hint[0]}, hint[1..])
    else Enumerate(keys, hint[1..])
  }

  lemma {:induction false} AscendingOfNone(lo: nat)
    requires lo <= 256
    ensures Ascending({}, lo) == []
    decreases 256 - lo
  {
    if lo < 256 {
      AscendingOfNone(lo + 1);
    }
  }

  /** Every key order a map may produce is produced by `Enumerate` for some
      hint, so a model that is generic in the hint covers all of them. */
  lemma {:induction false} EveryOrderIsReachable(keys: set<Byte>, order: seq<Byte>)
    requires IsEnumeration(order, keys)
    ensures Enumerate(keys, order) == order
  {
    if order == [] {
      assert keys == {};
      AscendingOfNone(0);
    } else {
      var rest := keys - {order[0]};
      forall b
        ensures b in order[1..] <==> b in rest
      {
        if b in order[1..] {
          var j :| 0 <= j < |order[1..]| && order[1..][j] == b;
          assert order[j + 1] == b;
        }
        if b in rest {
          assert b in order;
          var j :| 0 <= j < |order| && order[j] == b;
          assert j != 0;
          assert order[1..][j - 1] == b;
        }
      }
      EveryOrderIsReachable(rest, order[1..]);
    }
  }
}
