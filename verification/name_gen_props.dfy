/** What training guarantees about the model it builds, and what generation
    guarantees about the names it emits. */
module NameGenProps {
  import opened Bytes
  import opened HashOrder
  import opened Sums
  import opened FreqTables
  import opened NameGens

  // ---------------------------------------------------------------------
  // Where transitions come from

  /** A pair that is counted occurs at some adjacent positions. */
  lemma {:induction false} PairWitness(w: seq<Byte>, c: Byte, d: Byte) returns (i: nat)
    requires PairCount(w, c, d) > 0
    ensures i + 1 < |w| && w[i] == c && w[i + 1] == d
  {
    var v := w[..|w| - 1];
    if w[|w| - 2] == c && w[|w| - 1] == d {
      i := |w| - 2;
    } else {
      i := PairWitness(v, c, d);
      assert w[i] == v[i] && w[i + 1] == v[i + 1];
    }
  }

  /** A pair that occurs at adjacent positions is counted. */
  lemma {:induction false} PairCounted(w: seq<Byte>, i: nat)
    requires i + 1 < |w|
    ensures PairCount(w, w[i], w[i + 1]) > 0
  {
    var v := w[..|w| - 1];
    if i + 2 < |w| {
      PairCounted(v, i);
      assert v[i] == w[i] && v[i + 1] == w[i + 1];
    }
  }

  /** A counted transition comes from some non-empty training name. */
  lemma {:induction false} TransitionWitness(names: seq<seq<Byte>>, c: Byte, d: Byte) returns (k: nat)
    requires TransitionCount(names, c, d) > 0
    ensures k < |names| && names[k] != [] && PairCount(Wrap(names[k]), c, d) > 0
  {
    var init := names[..|names| - 1];
    var name := names[|names| - 1];
    if name != [] && PairCount(Wrap(name), c, d) > 0 {
      k := |names| - 1;
    } else {
      k := TransitionWitness(init, c, d);
      assert names[k] == init[k];
    }
  }

  /** Every non-empty training name contributes its pairs to the transition counts. */
  lemma {:induction false} TransitionCounted(names: seq<seq<Byte>>, k: nat, c: Byte, d: Byte)
    requires k < |names| && names[k] != []
    ensures TransitionCount(names, c, d) >= PairCount(Wrap(names[k]), c, d)
  {
    if k < |names| - 1 {
      var init := names[..|names| - 1];
      assert init[k] == names[k];
      TransitionCounted(init, k, c, d);
    }
  }

  /** Every non-empty name contributes the transition from the start marker to its first byte. */
  lemma StartLeadsToFirstByte(names: seq<seq<Byte>>, k: nat)
    requires k < |names| && names[k] != []
    ensures TransitionCount(names, StartChar, names[k][0]) > 0
  {
    var w := Wrap(names[k]);
    assert w[0] == StartChar && w[1] == names[k][0];
    PairCounted(w, 0);
    TransitionCounted(names, k, StartChar, names[k][0]);
  }

  /** A successor other than the end marker stands inside a training name,
      so it has a successor of its own, and it is one of that name's bytes. */
  lemma SuccessorOfSuccessor(names: seq<seq<Byte>>, c: Byte, d: Byte)
    requires TransitionCount(names, c, d) > 0 && d != EndChar
    ensures exists k :: 0 <= k < |names| && d in names[k]
    ensures exists e :: TransitionCount(names, d, e) > 0
  {
    var k := TransitionWitness(names, c, d);
    var w := Wrap(names[k]);
    var i := PairWitness(w, c, d);
    assert w[|w| - 1] == EndChar;
    assert i + 1 <= |names[k]|;
    assert names[k][i] == w[i + 1];
    PairCounted(w, i + 1);
    TransitionCounted(names, k, d, w[i + 2]);
  }

  // ---------------------------------------------------------------------
  // The trained model

  /** After training, context `c` lists successor `d` exactly when the pair
      `(c, d)` occurs in the training data, and the count listed for each
      successor is the number of its occurrences. */
  lemma TrainedCounts(names: seq<seq<Byte>>, keyOrder: Byte -> seq<Byte>, c: Byte, d: Byte)
    ensures var m := Trained(names, keyOrder).model;
      c in m && d in m[c].chars <==> TransitionCount(names, c, d) > 0
    ensures var m := Trained(names, keyOrder).model;
      c in m ==>
        && |m[c].counts| == |m[c].chars|
        && forall i :: 0 <= i < |m[c].chars| ==> m[c].counts[i] == TransitionCount(names, c, m[c].chars[i])
  {
    if TransitionCount(names, c, d) > 0 {
      assert d in SuccessorCounts(names, c);
    }
  }

  /** Every table training builds is valid: one entry per successor, positive counts, a positive total. */
  lemma TrainedTablesValid(names: seq<seq<Byte>>, keyOrder: Byte -> seq<Byte>, c: Byte)
    requires c in Trained(names, keyOrder).model
    ensures Valid(Trained(names, keyOrder).model[c])
  {
    var counter := SuccessorCounts(names, c);
    FromCounterValid(counter, Enumerate(counter.Keys, keyOrder(c)));
  }

  /** `g` holds exactly the transition counts of `names`: every transition
      that occurs is listed under its context, and every table is valid and
      lists each successor with its number of occurrences, a positive number. */
  ghost predicate CountsTransitions(g: NameGen, names: seq<seq<Byte>>) {
    && (forall c, d :: TransitionCount(names, c, d) > 0 ==> c in g.model && d in g.model[c].chars)
    && forall c | c in g.model ::
         && Valid(g.model[c])
         && forall i | 0 <= i < |g.model[c].chars| ::
              g.model[c].counts[i] == TransitionCount(names, c, g.model[c].chars[i]) > 0
  }

  lemma TrainedCountsTransitions(names: seq<seq<Byte>>, keyOrder: Byte -> seq<Byte>)
    ensures CountsTransitions(Trained(names, keyOrder), names)
  {
    var m := Trained(names, keyOrder).model;
    forall c, d | TransitionCount(names, c, d) > 0
      ensures c in m && d in m[c].chars
    {
      TrainedCounts(names, keyOrder, c, d);
    }
    forall c | c in m
      ensures Valid(m[c])
      ensures forall i | 0 <= i < |m[c].chars| :: m[c].counts[i] == TransitionCount(names, c, m[c].chars[i]) > 0
    {
      TrainedTablesValid(names, keyOrder, c);
      TrainedCounts(names, keyOrder, c, StartChar);
      forall i | 0 <= i < |m[c].chars|
        ensures TransitionCount(names, c, m[c].chars[i]) > 0
      {
        TrainedCounts(names, keyOrder, c, m[c].chars[i]);
      }
    }
  }

  /** A model holding the transition counts of some names can be walked
      without failing: the start marker has a table, every table has a
      positive total, and every successor other than the end marker has a
      table of its own, so the lookup of each step succeeds. */
  lemma CountedIsWalkable(g: NameGen, names: seq<seq<Byte>>)
    requires CountsTransitions(g, names)
    ensures Walkable(g)
  {
    var m := g.model;
    if m != map[] {
      var c :| c in m;
      assert m[c].counts[0] == TransitionCount(names, c, m[c].chars[0]) > 0;
      var k := TransitionWitness(names, c, m[c].chars[0]);
      StartLeadsToFirstByte(names, k);
    }
    forall c | c in m
      ensures forall d | d in m[c].chars && d != EndChar :: d in m
    {
      forall d | d in m[c].chars && d != EndChar
        ensures d in m
      {
        var i :| 0 <= i < |m[c].chars| && m[c].chars[i] == d;
        SuccessorOfSuccessor(names, c, d);
      }
    }
  }

  lemma TrainedIsWalkable(names: seq<seq<Byte>>, keyOrder: Byte -> seq<Byte>)
    ensures Walkable(Trained(names, keyOrder))
  {
    TrainedCountsTransitions(names, keyOrder);
    CountedIsWalkable(Trained(names, keyOrder), names);
  }

  /** Training yields an empty model exactly when every training name is empty. */
  lemma TrainedEmpty(names: seq<seq<Byte>>, keyOrder: Byte -> seq<Byte>)
    ensures Trained(names, keyOrder).model == map[] <==> forall k :: 0 <= k < |names| ==> names[k] == []
  {
    var m := Trained(names, keyOrder).model;
    if exists k :: 0 <= k < |names| && names[k] != [] {
      var k :| 0 <= k < |names| && names[k] != [];
      StartLeadsToFirstByte(names, k);
      TrainedCounts(names, keyOrder, StartChar, names[k][0]);
    } else {
      forall c, d
        ensures TransitionCount(names, c, d) == 0
      {
        if TransitionCount(names, c, d) > 0 {
          var k := TransitionWitness(names, c, d);
        }
      }
      assert TransitionCounts(names) == map[];
    }
  }

  // ---------------------------------------------------------------------
  // Totals

  /** The number of positions of `w` other than the last holding `c`: the transitions leaving `c`. */
  function OutCount(w: seq<Byte>, c: Byte): nat
  {
    if |w| < 2 then 0 else OutCount(w[..|w| - 1], c) + (if w[|w| - 2] == c then 1 else 0)
  }

  /** The transitions leaving `c` over the bracketed forms of the non-empty names. */
  function OutTransitions(names: seq<seq<Byte>>, c: Byte): nat
  {
    if names == [] then 0
    else
      var name := names[|names| - 1];
      OutTransitions(names[..|names| - 1], c) + (if name == [] then 0 else OutCount(Wrap(name), c))
  }

  /** The number of transitions a name contributes, `|name| + 1`, summed over the non-empty names. */
  function TrainingLength(names: seq<seq<Byte>>): nat
  {
    if names == [] then 0
    else
      var name := names[|names| - 1];
      TrainingLength(names[..|names| - 1]) + (if name == [] then 0 else |name| + 1)
  }

  lemma {:induction false} PairsLeavingContext(w: seq<Byte>, c: Byte)
    ensures ByteSum(d => PairCount(w, c, d), 0) == OutCount(w, c)
  {
    var all := (d: Byte) => PairCount(w, c, d);
    if |w| < 2 {
      ByteSumZero(all, 0);
    } else {
      var v := w[..|w| - 1];
      var before := (d: Byte) => PairCount(v, c, d);
      var here := (d: Byte) => if w[|w| - 2] == c && w[|w| - 1] == d then 1 else 0;
      PairsLeavingContext(v, c);
      forall d: Byte
        ensures all(d) == before(d) + here(d)
      {
      }
      ByteSumAdd(before, here, all, 0);
      if w[|w| - 2] == c {
        ByteSumSingle(here, w[|w| - 1]);
      } else {
        ByteSumZero(here, 0);
      }
    }
  }

  lemma {:induction false} ContextsOfWord(w: seq<Byte>)
    requires |w| >= 1
    ensures ByteSum(c => OutCount(w, c), 0) == |w| - 1
  {
    var all := (c: Byte) => OutCount(w, c);
    if |w| == 1 {
      ByteSumZero(all, 0);
    } else {
      var v := w[..|w| - 1];
      var before := (c: Byte) => OutCount(v, c);
      var here := (c: Byte) => if w[|w| - 2] == c then 1 else 0;
      ContextsOfWord(v);
      forall c: Byte
        ensures all(c) == before(c) + here(c)
      {
      }
      ByteSumAdd(before, here, all, 0);
      ByteSumSingle(here, w[|w| - 2]);
    }
  }

  /** Summed over all successors, the transitions of context `c` are those leaving `c`. */
  lemma {:induction false} TransitionsLeavingContext(names: seq<seq<Byte>>, c: Byte)
    ensures ByteSum(d => TransitionCount(names, c, d), 0) == OutTransitions(names, c)
  {
    if names == [] {
      ByteSumZero(d => TransitionCount(names, c, d), 0);
    } else {
      var init := names[..|names| - 1];
      TransitionsLeavingContext(init, c);
      TransitionsOfLastName(names, c);
    }
  }

  lemma TransitionsOfLastName(names: seq<seq<Byte>>, c: Byte)
    requires names != []
    ensures var init, name := names[..|names| - 1], names[|names| - 1];
      ByteSum(d => TransitionCount(names, c, d), 0) ==
        ByteSum(d => TransitionCount(init, c, d), 0) + if name == [] then 0 else OutCount(Wrap(name), c)
  {
    var init, name := names[..|names| - 1], names[|names| - 1];
    var here := (d: Byte) => if name == [] then 0 else PairCount(Wrap(name), c, d);
    ByteSumAdd(d => TransitionCount(init, c, d), here, d => TransitionCount(names, c, d), 0);
    if name == [] {
      ByteSumZero(here, 0);
    } else {
      PairsLeavingContext(Wrap(name), c);
      ByteSumSame(here, d => PairCount(Wrap(name), c, d), 0);
    }
  }

  /** Summed over all contexts, the transitions are one per byte of each non-empty name plus its end marker. */
  lemma {:induction false} AllTransitions(names: seq<seq<Byte>>)
    ensures ByteSum(c => OutTransitions(names, c), 0) == TrainingLength(names)
  {
    if names == [] {
      ByteSumZero(c => OutTransitions(names, c), 0);
    } else {
      AllTransitions(names[..|names| - 1]);
      ContextsOfLastName(names);
    }
  }

  lemma ContextsOfLastName(names: seq<seq<Byte>>)
    requires names != []
    ensures var init, name := names[..|names| - 1], names[|names| - 1];
      ByteSum(c => OutTransitions(names, c), 0) ==
        ByteSum(c => OutTransitions(init, c), 0) + if name == [] then 0 else |name| + 1
  {
    var init, name := names[..|names| - 1], names[|names| - 1];
    var all := (c: Byte) => OutTransitions(names, c);
    var before := (c: Byte) => OutTransitions(init, c);
    if name == [] {
      forall c: Byte
        ensures all(c) == before(c)
      {
      }
      ByteSumSame(all, before, 0);
    } else {
      var w := Wrap(name);
      var here := (c: Byte) => OutCount(w, c);
      forall c: Byte
        ensures all(c) == before(c) + here(c)
      {
      }
      ByteSumAdd(before, here, all, 0);
      ContextsOfWord(w);
    }
  }

  /** In a model holding the transition counts of `names`, the total of a
      table is the number of transitions leaving its context, which is
      positive, so the modulus of a draw is never zero; and a context has a
      table exactly when some transition leaves it. */
  lemma CountedTotals(g: NameGen, names: seq<seq<Byte>>, c: Byte)
    requires CountsTransitions(g, names)
    ensures c in g.model <==> OutTransitions(names, c) > 0
    ensures c in g.model ==> g.model[c].totalCount == OutTransitions(names, c)
  {
    var f := d => TransitionCount(names, c, d);
    TransitionsLeavingContext(names, c);
    if c in g.model {
      var t := g.model[c];
      forall d: Byte | f(d) > 0
        ensures d in t.chars
      {
      }
      EnumerationSum(f, t.chars, t.counts);
    } else {
      forall d: Byte
        ensures f(d) == 0
      {
      }
      ByteSumZero(f, 0);
    }
  }

  /** The totals of all tables add up to the number of bytes of the
      non-empty training names plus one end marker per name. */
  lemma CountedGrandTotal(g: NameGen, names: seq<seq<Byte>>)
    requires CountsTransitions(g, names)
    ensures ByteSum(c => if c in g.model then g.model[c].totalCount else 0, 0) == TrainingLength(names)
  {
    forall c: Byte
      ensures (if c in g.model then g.model[c].totalCount else 0) == OutTransitions(names, c)
    {
      CountedTotals(g, names, c);
    }
    ByteSumSame(c => if c in g.model then g.model[c].totalCount else 0, c => OutTransitions(names, c), 0);
    AllTransitions(names);
  }

  lemma TrainedTotals(names: seq<seq<Byte>>, keyOrder: Byte -> seq<Byte>, c: Byte)
    ensures var m := Trained(names, keyOrder).model;
      && (c in m <==> OutTransitions(names, c) > 0)
      && (c in m ==> m[c].totalCount == OutTransitions(names, c))
  {
    TrainedCountsTransitions(names, keyOrder);
    CountedTotals(Trained(names, keyOrder), names, c);
  }

  lemma TrainedGrandTotal(names: seq<seq<Byte>>, keyOrder: Byte -> seq<Byte>)
    ensures var g := Trained(names, keyOrder);
      ByteSum(c => if c in g.model then g.model[c].totalCount else 0, 0) == TrainingLength(names)
  {
    var g := Trained(names, keyOrder);
    TrainedCountsTransitions(names, keyOrder);
    CountedGrandTotal(g, names);
  }

  // ---------------------------------------------------------------------
  // Generation from a trained model

  lemma {:induction false} WalkBytesFromTraining(
    g: NameGen, names: seq<seq<Byte>>, draws: seq<U32>, steps: nat, last: Byte)
    requires CountsTransitions(g, names) && Walkable(g)
    requires last in g.model && |draws| >= steps
    ensures forall b :: b in Walk(g, draws, steps, last) ==> exists k :: 0 <= k < |names| && b in names[k]
    decreases steps
  {
    if steps > 0 {
      var c := Sample(g.model[last], draws[0]);
      if c != EndChar {
        var i :| 0 <= i < |g.model[last].chars| && g.model[last].chars[i] == c;
        SuccessorOfSuccessor(names, last, c);
        WalkBytesFromTraining(g, names, draws[1..], steps - 1, c);
      }
    }
  }

  /** A name generated from a trained model has at most `maxLen` bytes, never
      holds the end marker, and holds only bytes of the training names. */
  lemma GeneratedFromTraining(names: seq<seq<Byte>>, keyOrder: Byte -> seq<Byte>, draws: seq<U32>, maxLen: nat)
    requires |draws| >= maxLen
    ensures Walkable(Trained(names, keyOrder))
    ensures var name := Generate(Trained(names, keyOrder), draws, maxLen);
      && |name| <= maxLen
      && EndChar !in name
      && forall b :: b in name ==> exists k :: 0 <= k < |names| && b in names[k]
  {
    TrainedCountsTransitions(names, keyOrder);
    CountedIsWalkable(Trained(names, keyOrder), names);
    if Trained(names, keyOrder).model != map[] {
      WalkBytesFromTraining(Trained(names, keyOrder), names, draws, maxLen, StartChar);
    }
  }

  /** Training on no names, or on empty names only, gives a model that
      generates the empty name for every draw sequence and length. */
  lemma EmptyTrainingGeneratesNothing(names: seq<seq<Byte>>, keyOrder: Byte -> seq<Byte>, draws: seq<U32>, maxLen: nat)
    requires forall k :: 0 <= k < |names| ==> names[k] == []
    requires |draws| >= maxLen
    ensures Walkable(Trained(names, keyOrder))
    ensures Generate(Trained(names, keyOrder), draws, maxLen) == []
  {
    TrainedIsWalkable(names, keyOrder);
    TrainedEmpty(names, keyOrder);
  }
}
