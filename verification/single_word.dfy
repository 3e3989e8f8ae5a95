/** The model trained on the single name "ala": whatever the key orders and
    the draws, it can only emit prefixes of "alalal...". */
module SingleWord {
  import opened Bytes
  import opened FreqTables
  import opened NameGens
  import opened NameGenProps
  import opened Sums

  const A: Byte := 97   // 'a'
  const L: Byte := 108  // 'l'

  /** The one training name, "ala". */
  function Ala(): seq<Byte> {
    [A, L, A]
  }

  /** The transitions of "^ala$": `^ -> a`, `a -> l`, `l -> a`, `a -> $`. */
  lemma AlaTransitions(c: Byte, d: Byte)
    ensures TransitionCount([Ala()], c, d) > 0 <==>
      || (c == StartChar && d == A)
      || (c == A && d == L)
      || (c == L && d == A)
      || (c == A && d == EndChar)
    ensures TransitionCount([Ala()], c, d) <= 1
  {
    var w := Wrap(Ala());
    assert w == [StartChar, A, L, A, EndChar];
    assert [Ala()][..0] == [];
    assert TransitionCount([Ala()], c, d) == PairCount(w, c, d);
    var w2, w3, w4 := [StartChar, A], [StartChar, A, L], [StartChar, A, L, A];
    assert w2[..1] == [StartChar] && w3[..2] == w2 && w4[..3] == w3 && w[..4] == w4;
    assert PairCount(w2, c, d) == if c == StartChar && d == A then 1 else 0;
    assert PairCount(w3, c, d) == PairCount(w2, c, d) + if c == A && d == L then 1 else 0;
    assert PairCount(w4, c, d) == PairCount(w3, c, d) + if c == L && d == A then 1 else 0;
    assert PairCount(w, c, d) == PairCount(w4, c, d) + if c == A && d == EndChar then 1 else 0;
  }

  /** In the model of "ala" the start marker and `l` are followed only by `a`,
      and `a` only by `l` and the end marker; no other byte has a table. */
  lemma AlaSuccessors(g: NameGen, c: Byte, d: Byte)
    requires CountsTransitions(g, [Ala()])
    ensures c in g.model <==> c == StartChar || c == A || c == L
    ensures c in g.model ==>
      (d in g.model[c].chars <==> if c == A then d == L || d == EndChar else d == A)
  {
    AlaTransitions(c, d);
    AlaTransitions(c, A);
    AlaTransitions(c, L);
    if c in g.model {
      var t := g.model[c];
      assert t.counts[0] == TransitionCount([Ala()], c, t.chars[0]) > 0;
      AlaTransitions(c, t.chars[0]);
      if d in t.chars {
        var i :| 0 <= i < |t.chars| && t.chars[i] == d;
        assert t.counts[i] == TransitionCount([Ala()], c, d) > 0;
      }
    }
  }

  /** The shape of the model of "ala" that generation depends on. */
  ghost predicate AlaShaped(g: NameGen) {
    && Walkable(g)
    && StartChar in g.model && A in g.model && L in g.model
    && Valid(g.model[StartChar]) && Valid(g.model[A]) && Valid(g.model[L])
    && (forall d :: d in g.model[StartChar].chars ==> d == A)
    && (forall d :: d in g.model[L].chars ==> d == A)
    && (forall d :: d in g.model[A].chars ==> d == L || d == EndChar)
  }

  lemma AlaModelShaped(g: NameGen)
    requires CountsTransitions(g, [Ala()])
    ensures AlaShaped(g)
  {
    CountedIsWalkable(g, [Ala()]);
    AlaSuccessors(g, StartChar, A);
    AlaSuccessors(g, A, A);
    AlaSuccessors(g, L, A);
    forall c, d | c in {StartChar, A, L} && d in g.model[c].chars
      ensures if c == A then d == L || d == EndChar else d == A
    {
      AlaSuccessors(g, c, d);
    }
  }

  /** The other letter of "ala": `a` for `l`, `l` for `a`. */
  function Other(b: Byte): Byte {
    if b == A then L else A
  }

  /** The first `n` bytes of the endless alternation starting with `first`. */
  function Alternation(n: nat, first: Byte): seq<Byte> {
    if n == 0 then [] else [first] + Alternation(n - 1, Other(first))
  }

  lemma {:induction false} AlaWalk(g: NameGen, draws: seq<U32>, steps: nat, last: Byte)
    requires AlaShaped(g)
    requires last == StartChar || last == A || last == L
    requires |draws| >= steps
    ensures var out := Walk(g, draws, steps, last);
      && out == Alternation(|out|, if last == A then L else A)
      && (|out| < steps ==> if out == [] then last == A else out[|out| - 1] == A)
      && (steps > 0 && last != A ==> out != [])
    decreases steps
  {
    if steps > 0 {
      var t := g.model[last];
      var c := Sample(t, draws[0]);
      SampleNeverFallsBack(t, draws[0]);
      assert c == (if last == A then L else A) || (last == A && c == EndChar);
      if c != EndChar {
        AlaWalk(g, draws[1..], steps - 1, c);
      }
    }
  }

  /** Every model holding the transitions of "ala" generates prefixes of
      "alalal..."; such a name is non-empty when `maxLen` is positive, and a
      name that stops before `maxLen` steps ends in `a`. */
  lemma AlaGenerated(g: NameGen, draws: seq<U32>, maxLen: nat)
    requires AlaShaped(g)
    requires |draws| >= maxLen
    ensures var out := Generate(g, draws, maxLen);
      && out == Alternation(|out|, A)
      && (maxLen > 0 ==> out != [])
      && (|out| < maxLen ==> out != [] && out[|out| - 1] == A)
  {
    AlaWalk(g, draws, maxLen, StartChar);
  }

  /** Trained on "ala", under any key orders and any draws, the model
      generates only prefixes of "alalal..."; with `maxLen` positive the name
      is non-empty; a name cut short by the end marker ends in `a`. */
  lemma AlaOutputs(keyOrder: Byte -> seq<Byte>, draws: seq<U32>, maxLen: nat)
    requires |draws| >= maxLen
    ensures Walkable(Trained([Ala()], keyOrder))
    ensures var out := Generate(Trained([Ala()], keyOrder), draws, maxLen);
      && out == Alternation(|out|, A)
      && (maxLen > 0 ==> out != [])
      && (|out| < maxLen ==> out != [] && out[|out| - 1] == A)
  {
    TrainedCountsTransitions([Ala()], keyOrder);
    AlaModelShaped(Trained([Ala()], keyOrder));
    AlaGenerated(Trained([Ala()], keyOrder), draws, maxLen);
  }

  /** In the model of "ala" every table's total is at most 4, the number of
      transitions of "^ala$". */
  lemma AlaTotalsSmall(g: NameGen, c: Byte)
    requires CountsTransitions(g, [Ala()])
    requires c in g.model
    ensures g.model[c].totalCount <= 4
  {
    assert [Ala()][..0] == [];
    assert TrainingLength([Ala()]) == 4;
    CountedGrandTotal(g, [Ala()]);
    ByteSumAtLeast(x => if x in g.model then g.model[x].totalCount else 0, c, 0);
  }

  /** In the model of "ala" every successor is sampled by some draw. */
  lemma AlaDraw(g: NameGen, c: Byte, d: Byte) returns (draw: U32)
    requires CountsTransitions(g, [Ala()])
    requires c in g.model && d in g.model[c].chars
    ensures Sample(g.model[c], draw) == d
  {
    var t := g.model[c];
    AlaTotalsSmall(g, c);
    assert Valid(t);
    var i :| 0 <= i < |t.chars| && t.chars[i] == d;
    assert t.counts[i] > 0;
    draw := SampleReachesEveryEntry(t, i);
  }

  /** The draws that, from context `a`, emit "la" `m` times and then the end
      marker, given a draw for each of the three transitions they take. */
  function Cycle(m: nat, toL: U32, toA: U32, toEnd: U32): (draws: seq<U32>)
    ensures |draws| == 2 * m + 1
  {
    if m == 0 then [toEnd] else [toL, toA] + Cycle(m - 1, toL, toA, toEnd)
  }

  lemma {:induction false} CycleWalk(g: NameGen, m: nat, toL: U32, toA: U32, toEnd: U32)
    requires AlaShaped(g)
    requires Sample(g.model[A], toL) == L && Sample(g.model[L], toA) == A
    requires Sample(g.model[A], toEnd) == EndChar
    ensures Walk(g, Cycle(m, toL, toA, toEnd), 2 * m + 1, A) == Alternation(2 * m, L)
  {
    var draws := Cycle(m, toL, toA, toEnd);
    if m > 0 {
      var rest := Cycle(m - 1, toL, toA, toEnd);
      assert draws[1..][1..] == rest;
      CycleWalk(g, m - 1, toL, toA, toEnd);
      assert Walk(g, draws[1..], 2 * m, L) == [A] + Walk(g, rest, 2 * m - 1, A);
    }
  }

  /** In the model of "ala" each of the four transitions is taken by some draw. */
  lemma AlaStepDraws(g: NameGen) returns (first: U32, toL: U32, toA: U32, toEnd: U32)
    requires CountsTransitions(g, [Ala()])
    ensures AlaShaped(g)
    ensures Sample(g.model[StartChar], first) == A
    ensures Sample(g.model[A], toL) == L && Sample(g.model[L], toA) == A
    ensures Sample(g.model[A], toEnd) == EndChar
  {
    AlaModelShaped(g);
    AlaSuccessors(g, StartChar, A);
    AlaSuccessors(g, A, L);
    AlaSuccessors(g, A, EndChar);
    AlaSuccessors(g, L, A);
    first := AlaDraw(g, StartChar, A);
    toL := AlaDraw(g, A, L);
    toA := AlaDraw(g, L, A);
    toEnd := AlaDraw(g, A, EndChar);
  }

  /** With a draw for each of the four transitions, ten draws make a model
      of the shape of "ala" generate the first nine letters of "alalal...". */
  lemma AlaPinnedWalk(g: NameGen, first: U32, toL: U32, toA: U32, toEnd: U32)
    requires AlaShaped(g)
    requires Sample(g.model[StartChar], first) == A
    requires Sample(g.model[A], toL) == L && Sample(g.model[L], toA) == A
    requires Sample(g.model[A], toEnd) == EndChar
    ensures Generate(g, [first] + Cycle(4, toL, toA, toEnd), 10) == Alternation(9, A)
  {
    var rest := Cycle(4, toL, toA, toEnd);
    assert ([first] + rest)[1..] == rest;
    CycleWalk(g, 4, toL, toA, toEnd);
  }

  /** The literal the test pins, "alalalala" at `max_len` 10, is an output
      of the model trained on "ala": under every key order some ten draws
      generate exactly it. */
  lemma AlaReachable(keyOrder: Byte -> seq<Byte>) returns (draws: seq<U32>)
    ensures |draws| == 10
    ensures Walkable(Trained([Ala()], keyOrder))
    ensures Generate(Trained([Ala()], keyOrder), draws, 10) == [A, L, A, L, A, L, A, L, A]
  {
    var g := Trained([Ala()], keyOrder);
    TrainedCountsTransitions([Ala()], keyOrder);
    var first, toL, toA, toEnd := AlaStepDraws(g);
    AlaPinnedWalk(g, first, toL, toA, toEnd);
    AlaNine();
    draws := [first] + Cycle(4, toL, toA, toEnd);
  }

  lemma AlaNine()
    ensures Alternation(9, A) == [A, L, A, L, A, L, A, L, A]
  {
  }
}
