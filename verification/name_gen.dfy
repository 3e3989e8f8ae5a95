/** The name model: training counts the byte transitions of bracketed
    training names; generation walks the resulting chain from the start marker. */
module NameGens {
  import opened Bytes
  import opened HashOrder
  import opened FreqTables

  /** One successor table per context byte. Built once by `Train`, never changed. */
  datatype NameGen = NameGen(model: map<Byte, FreqTable>)

  /** A training name between the start and the end marker. */
  function Wrap(name: seq<Byte>): seq<Byte> {
    [StartChar] + name + [EndChar]
  }

  /** The number of adjacent positions `(i, i + 1)` of `w` holding `(c, d)`. */
  function PairCount(w: seq<Byte>, c: Byte, d: Byte): nat
  {
    if |w| < 2 then 0
    else PairCount(w[..|w| - 1], c, d) + (if w[|w| - 2] == c && w[|w| - 1] == d then 1 else 0)
  }

  /** The number of transitions `(c, d)` over the bracketed forms of the
      non-empty training names; empty names contribute nothing. */
  function TransitionCount(names: seq<seq<Byte>>, c: Byte, d: Byte): nat
  {
    if names == [] then 0
    else
      var name := names[|names| - 1];
      TransitionCount(names[..|names| - 1], c, d) + (if name == [] then 0 else PairCount(Wrap(name), c, d))
  }

  /** The successor counter training builds for context `c`. */
  function SuccessorCounts(names: seq<seq<Byte>>, c: Byte): map<Byte, nat>
  {
    map d: Byte | 0 <= d < 256 && TransitionCount(names, c, d) > 0 :: TransitionCount(names, c, d)
  }

  /** All counters training builds, one per byte that has a successor. */
  function TransitionCounts(names: seq<seq<Byte>>): map<Byte, map<Byte, nat>>
  {
    map c: Byte | 0 <= c < 256 && SuccessorCounts(names, c) != map[] :: SuccessorCounts(names, c)
  }

  /** The last step of training: every counter becomes a frequency table,
      its keys listed in the order the hash map of that context yields them,
      which `keyOrder(c)` fixes. */
  function Freeze(builder: map<Byte, map<Byte, nat>>, keyOrder: Byte -> seq<Byte>): NameGen
  {
    NameGen(map c | c in builder :: FromCounter(builder[c], Enumerate(builder[c].Keys, keyOrder(c))))
  }

  /** The model training on `names` yields under the key orders `keyOrder`. */
  function Trained(names: seq<seq<Byte>>, keyOrder: Byte -> seq<Byte>): NameGen
  {
    Freeze(TransitionCounts(names), keyOrder)
  }

  /** The count `builder` holds for the transition `(c, d)`, zero when it has none. */
  function TallyOf(builder: map<Byte, map<Byte, nat>>, c: Byte, d: Byte): nat {
    if c in builder && d in builder[c] then builder[c][d] else 0
  }

  /** `builder` holds, for every pair of bytes, the transitions of the names
      `done` plus those of the first pairs `seen` of the name in progress;
      every counter it holds is non-empty and counts only positive numbers. */
  ghost predicate Tallies(builder: map<Byte, map<Byte, nat>>, done: seq<seq<Byte>>, seen: seq<Byte>) {
    && (forall c, d :: TallyOf(builder, c, d) == TransitionCount(done, c, d) + PairCount(seen, c, d))
    && (forall c :: c in builder ==> builder[c] != map[])
    && (forall c, d :: c in builder && d in builder[c] ==> builder[c][d] > 0)
  }

  /** `builder` after one more transition `(c, next)` is counted into it. */
  ghost function Bumped(builder: map<Byte, map<Byte, nat>>, c: Byte, next: Byte): map<Byte, map<Byte, nat>> {
    var counters: map<Byte, nat> := if c in builder then builder[c] else map[];
    var n: nat := if next in counters then counters[next] + 1 else 1;
    builder[c := counters[next := n]]
  }

  /** Counting the pair at positions `(i, i + 1)` extends the tally by that pair. */
  lemma TallyNextPair(builder: map<Byte, map<Byte, nat>>, done: seq<seq<Byte>>, w: seq<Byte>, i: nat)
    requires i + 1 < |w|
    requires Tallies(builder, done, w[..i + 1])
    ensures Tallies(Bumped(builder, w[i], w[i + 1]), done, w[..i + 2])
  {
    var after := Bumped(builder, w[i], w[i + 1]);
    assert w[..i + 2][..i + 1] == w[..i + 1];
    forall x, y
      ensures TallyOf(after, x, y) == TransitionCount(done, x, y) + PairCount(w[..i + 2], x, y)
    {
      assert TallyOf(after, x, y) == TallyOf(builder, x, y) + if x == w[i] && y == w[i + 1] then 1 else 0;
    }
  }

  /** Once every name is counted, the builder holds exactly the transition counts. */
  lemma TalliesAreTransitionCounts(builder: map<Byte, map<Byte, nat>>, names: seq<seq<Byte>>)
    requires Tallies(builder, names, [])
    ensures builder == TransitionCounts(names)
  {
    forall c | c in builder
      ensures builder[c] == SuccessorCounts(names, c)
    {
      assert TallyOf(builder, c, 0) == TransitionCount(names, c, 0);
    }
    forall c | SuccessorCounts(names, c) != map[]
      ensures c in builder
    {
      var d :| d in SuccessorCounts(names, c);
      assert TallyOf(builder, c, d) == TransitionCount(names, c, d);
    }
  }

  /** Training: counts every adjacent byte pair of every bracketed non-empty
      name into a nested counter, then freezes each counter into a table. */
  method Train(names: seq<seq<Byte>>, keyOrder: Byte -> seq<Byte>) returns (g: NameGen)
    ensures g == Trained(names, keyOrder)
  {
    var builder: map<Byte, map<Byte, nat>> := map[];
    for k := 0 to |names|
      invariant Tallies(builder, names[..k], [])
    {
      var name := names[k];
      if |name| > 0 {
        var extended := [StartChar] + name + [EndChar];
        for i := 0 to |extended| - 1
          invariant Tallies(builder, names[..k], extended[..i + 1])
        {
          var c := extended[i];
          var next := extended[i + 1];
          TallyNextPair(builder, names[..k], extended, i);
          if c in builder {
            var counters := builder[c];
            var n := if next in counters then counters[next] + 1 else 1;
            builder := builder[c := counters[next := n]];
          } else {
            builder := builder[c := map[next := 1]];
          }
        }
        assert extended[..|extended|] == extended == Wrap(name);
      }
      assert names[..k + 1][..k] == names[..k];
    }
    assert names[..|names|] == names;
    TalliesAreTransitionCounts(builder, names);
    g := Freeze(builder, keyOrder);
  }

  /** What generation needs in order not to fail: the start marker has a
      table when any table exists, every table can be sampled, and every byte
      a table lists, other than the end marker, has a table of its own. */
  ghost predicate Walkable(g: NameGen) {
    && (g.model != map[] ==> StartChar in g.model)
    && forall c | c in g.model ::
         && Samplable(g.model[c])
         && forall d | d in g.model[c].chars && d != EndChar :: d in g.model
  }

  /** The bytes a walk of at most `steps` draws emits from context `last`,
      one draw per step, stopping at the end marker. */
  function Walk(g: NameGen, draws: seq<U32>, steps: nat, last: Byte): (name: seq<Byte>)
    requires Walkable(g) && last in g.model && |draws| >= steps
    ensures |name| <= steps
    ensures EndChar !in name
    decreases steps
  {
    if steps == 0 then []
    else
      var c := Sample(g.model[last], draws[0]);
      if c == EndChar then [] else [c] + Walk(g, draws[1..], steps - 1, c)
  }

  /** The name generated with draws `draws` and at most `maxLen` steps. */
  function Generate(g: NameGen, draws: seq<U32>, maxLen: nat): (name: seq<Byte>)
    requires Walkable(g) && |draws| >= maxLen
  {
    if g.model == map[] then [] else Walk(g, draws, maxLen, StartChar)
  }

  /** Generation: an empty model gives the empty name; otherwise the walk
      starts at the start marker and samples one successor per step until the
      end marker is drawn or `maxLen` steps are done. `used` is the number of
      draws taken from the random source. */
  method NextName(g: NameGen, draws: seq<U32>, maxLen: nat) returns (name: seq<Byte>, used: nat)
    requires Walkable(g) && |draws| >= maxLen
    ensures name == Generate(g, draws, maxLen)
    ensures |name| <= maxLen && EndChar !in name
    ensures used == if g.model == map[] then 0 else if |name| < maxLen then |name| + 1 else maxLen
  {
    if |g.model| == 0 {
      return [], 0;
    }
    name := [];
    used := 0;
    var last := StartChar;
    assert draws[0..] == draws;
    while used < maxLen
      invariant used <= maxLen && |name| == used && last in g.model
      invariant name + Walk(g, draws[used..], maxLen - used, last) == Generate(g, draws, maxLen)
    {
      var next := NextChar(g.model[last], draws[used]);
      assert draws[used..][1..] == draws[used + 1..];
      used := used + 1;
      if next == EndChar {
        break;
      }
      name := name + [next];
      last := next;
    }
  }
}
