/** The successor distribution of one context byte and the draw that samples it. */
module FreqTables {
  import opened Bytes
  import opened HashOrder
  import opened Sums

  datatype Option<T> = None | Some(value: T)

  /** `chars[i]` was seen `counts[i]` times after the context byte; `totalCount`
      is the modulus a draw is reduced by. The table is never changed after it
      is built. */
  datatype FreqTable = FreqTable(totalCount: nat, chars: seq<Byte>, counts: seq<nat>)

  /** What sampling needs in order not to fail: a non-zero modulus and a byte
      for every count the scan may reach. */
  predicate Samplable(t: FreqTable) {
    t.totalCount > 0 && |t.counts| <= |t.chars|
  }

  /** The shape of every table that training builds. */
  ghost predicate Valid(t: FreqTable) {
    && |t.chars| == |t.counts|
    && Distinct(t.chars)
    && t.totalCount == Sum(t.counts)
    && t.totalCount > 0
  }

  /** The count `counter` holds for `b`, zero when `b` is not a key. */
  function CountIn(counter: map<Byte, nat>, b: Byte): nat {
    if b in counter then counter[b] else 0
  }

  /** Builds the table of a counter whose keys are visited in `order`: each
      key once, with its own count, and the sum of all the counter's values
      as the total, whatever the order. */
  function FromCounter(counter: map<Byte, nat>, order: seq<Byte>): (t: FreqTable)
    requires IsEnumeration(order, counter.Keys)
    ensures t.chars == order && |t.counts| == |order|
    ensures forall i :: 0 <= i < |order| ==> t.counts[i] == counter[order[i]]
    ensures t.totalCount == Sum(t.counts)
    ensures t.totalCount == ByteSum(b => CountIn(counter, b), 0)
  {
    var counts := seq(|order|, i requires 0 <= i < |order| => counter[order[i]]);
    EnumerationSum(b => CountIn(counter, b), order, counts);
    FreqTable(Sum(counts), order, counts)
  }

  /** A counter with at least one key and only positive counts gives a valid table. */
  lemma FromCounterValid(counter: map<Byte, nat>, order: seq<Byte>)
    requires IsEnumeration(order, counter.Keys)
    requires counter != map[]
    requires forall b :: b in counter ==> counter[b] > 0
    ensures Valid(FromCounter(counter, order))
  {
    var t := FromCounter(counter, order);
    var b :| b in counter;
    assert b in order;
    assert t.counts[0] > 0;
  }

  /** The entry selected by a reduced draw `idx`: the first index at which the
      running total of `counts` exceeds `idx`, if there is one. */
  function SelectIndex(counts: seq<nat>, idx: nat): (r: Option<nat>)
    ensures r.Some? ==> r.value < |counts|
  {
    if counts == [] then None
    else if counts[0] > idx then Some(0)
    else
      match SelectIndex(counts[1..], idx - counts[0])
      case None => None
      case Some(i) => Some(i + 1)
  }

  /** The running total of a scan once it has added entry `i`: `counts[0] + ... + counts[i]`. */
  function RunningTotal(counts: seq<nat>, i: nat): nat
    requires i < |counts|
  {
    Sum(counts[..i + 1])
  }

  /** `i` is the least index whose running total exceeds `idx`. */
  ghost predicate IsFirstExceeding(counts: seq<nat>, idx: nat, i: nat) {
    && i < |counts|
    && RunningTotal(counts, i) > idx
    && forall j :: 0 <= j < i ==> RunningTotal(counts, j) <= idx
  }

  lemma {:induction false} SelectIndexSound(counts: seq<nat>, idx: nat)
    ensures SelectIndex(counts, idx).Some? ==> IsFirstExceeding(counts, idx, SelectIndex(counts, idx).value)
    ensures SelectIndex(counts, idx).None? ==> Sum(counts) <= idx
  {
    if counts != [] && counts[0] <= idx {
      var rest := counts[1..];
      SelectIndexSound(rest, idx - counts[0]);
      forall j | 0 <= j < |counts|
        ensures RunningTotal(counts, j) == counts[0] + Sum(rest[..j])
      {
        assert counts[..j + 1][1..] == rest[..j];
      }
      forall j | 1 <= j < |counts|
        ensures RunningTotal(counts, j) == counts[0] + RunningTotal(rest, j - 1)
      {
      }
    } else if counts != [] {
      assert counts[..1][1..] == [];
    }
  }

  /** The prefix-sum selection rule: a reduced draw selects index `i` exactly
      when `i` is the first index whose prefix sum exceeds it. */
  lemma SelectIndexIsFirstExceeding(counts: seq<nat>, idx: nat, i: nat)
    ensures SelectIndex(counts, idx) == Some(i) <==> IsFirstExceeding(counts, idx, i)
  {
    SelectIndexSound(counts, idx);
    if IsFirstExceeding(counts, idx, i) && SelectIndex(counts, idx).None? {
      SumPrefixAtMost(counts, i + 1);
    }
  }

  /** A reduced draw selects nothing exactly when it is at least the sum of all counts. */
  lemma SelectIndexNone(counts: seq<nat>, idx: nat)
    ensures SelectIndex(counts, idx).None? <==> Sum(counts) <= idx
  {
    SelectIndexSound(counts, idx);
    var r := SelectIndex(counts, idx);
    if r.Some? {
      SumPrefixAtMost(counts, r.value + 1);
    }
  }

  /** The byte a draw samples from a table: the selected entry of the draw
      reduced modulo the total, or the end marker when nothing is selected. */
  function Sample(t: FreqTable, draw: U32): (c: Byte)
    requires Samplable(t)
    ensures c == EndChar || c in t.chars
  {
    match SelectIndex(t.counts, draw % t.totalCount)
    case None => EndChar
    case Some(i) => t.chars[i]
  }

  /** In a valid table every draw selects an entry: the end-marker fallback
      is never taken and the sample is always one of the table's bytes. */
  lemma SampleNeverFallsBack(t: FreqTable, draw: U32)
    requires Samplable(t) && t.totalCount == Sum(t.counts)
    ensures SelectIndex(t.counts, draw % t.totalCount).Some?
    ensures Sample(t, draw) in t.chars
  {
    SelectIndexNone(t.counts, draw % t.totalCount);
  }

  /** Every entry with a positive count is sampled by some draw: the draw
      equal to the sum of the counts before it. */
  lemma SampleReachesEveryEntry(t: FreqTable, i: nat) returns (draw: U32)
    requires Samplable(t) && t.totalCount == Sum(t.counts) && t.totalCount <= 0x1_0000_0000
    requires i < |t.counts| && t.counts[i] > 0
    ensures Sample(t, draw) == t.chars[i]
  {
    SumPrefixStep(t.counts, i);
    SumPrefixAtMost(t.counts, i + 1);
    draw := Sum(t.counts[..i]);
    forall j | 0 <= j < i
      ensures RunningTotal(t.counts, j) <= draw
    {
      assert t.counts[..i][..j + 1] == t.counts[..j + 1];
      SumPrefixAtMost(t.counts[..i], j + 1);
    }
    assert draw % t.totalCount == draw by {
      ModOfSmaller(draw, t.totalCount);
    }
    SelectIndexIsFirstExceeding(t.counts, draw, i);
  }

  lemma ModOfSmaller(a: nat, n: nat)
    requires a < n
    ensures a % n == a
  {
  }

  /** Draws one byte: reduces the draw modulo the total, then scans the
      running total of the counts and returns the first byte at which it
      exceeds the reduced draw. */
  method NextChar(t: FreqTable, draw: U32) returns (c: Byte)
    requires Samplable(t)
    ensures c == Sample(t, draw)
  {
    var idx := draw % t.totalCount;
    var total := 0;
    for i := 0 to |t.counts|
      invariant total == Sum(t.counts[..i])
      invariant forall j :: 0 <= j < i ==> RunningTotal(t.counts, j) <= idx
    {
      SumPrefixStep(t.counts, i);
      total := total + t.counts[i];
      if total > idx {
        SelectIndexIsFirstExceeding(t.counts, idx, i);
        return t.chars[i];
      }
    }
    SelectIndexSound(t.counts, idx);
    return EndChar;
  }
}
