# namegen: a verified model of the Markov name generator

namegen learns a first-order, byte-level Markov chain from a list of example
names and walks that chain to invent new names. Training brackets every
non-empty name between a start marker `^` and an end marker `$`. It counts how
often each byte follows each other byte. It then freezes the counter of every
context byte into a `FreqTable`: a list of successor bytes, their counts, and
the total of the counts. Generation starts at `^`. Each step draws a random
32-bit number, reduces it modulo the table's total, and scans the running sum
of the counts. The first successor whose running sum exceeds the reduced draw
is taken. The walk stops when it draws `$` or after `max_len` steps.

The model is split into modules:

- `Bytes` (bytes.dfy): bytes, 32-bit draws, and the two markers. A byte of
  the model stands for the character with the same code point, one per
  training byte, as the source reads it.
- `HashOrder` (hash_order.dfy): the unspecified order in which a hash map
  yields its keys.
- `Sums` (sums.dfy): sums of counts over a list and over all 256 bytes.
- `FreqTables` (freq_table.dfy): `FreqTable::new` and `FreqTable::next_char`.
- `NameGens` (name_gen.dfy): `NameGen::new` (training) and
  `NameGen::next_name` (generation).
- `NameGenProps` (name_gen_props.dfy): what training guarantees and what
  generation then emits.
- `SingleWord` (single_word.dfy): the model trained on `"ala"`.

`FreqTable` and `NameGen` are never changed after they are built, so they are
datatypes. The loops of the source are methods with loop invariants:
`FreqTables.NextChar`, `NameGens.Train` and `NameGens.NextName`. Each one is
proved equal to a specification function (`Sample`, `Trained`, `Generate`).
The properties are proved as lemmas about those functions.

The random source is a sequence of 32-bit draws, one per step. The hash-map
key order of each context is a parameter `keyOrder`. `HashOrder.Enumerate`
turns it into a list of the keys without repetitions. `EveryOrderIsReachable`
shows that every such list can be produced this way. So a property proved for
every `keyOrder` holds whatever order the hash map uses.

## Model

| member | source | states |
|---|---|---|
| HashOrder.Enumerate | src/lib.rs:28 | the keys of a counter are listed each exactly once, in some order |
| HashOrder.EveryOrderIsReachable | src/lib.rs:28 | every repetition-free listing of the keys is a possible key order, so the model covers any hash-map iteration order |
| Sums.SumPrefixStep | src/lib.rs:36-37 | adding the next count to the running total gives the sum of the next prefix |
| Sums.SumPrefixAtMost | src/lib.rs:36-41 | a running total never exceeds the sum of all counts |
| Sums.EnumerationSum | src/lib.rs:27-29 | the counts, listed in any repetition-free key order that covers the counter, add up to the sum of all the counter's values |
| FreqTables.FromCounter | src/lib.rs:26-31 | the table lists every key of the counter once, in the given order, with that key's own count; the total is the sum of the listed counts and the sum of all the counter's values |
| FreqTables.FromCounterValid | src/lib.rs:26-31 | a non-empty counter of positive counts gives a table with distinct bytes, one count per byte and a positive total |
| FreqTables.SelectIndex | src/lib.rs:36-41 | a selected index is within the counts |
| FreqTables.SelectIndexSound | src/lib.rs:36-42 | a selected index is the first whose running total exceeds the reduced draw; no selection means the sum of the counts is at most the draw |
| FreqTables.SelectIndexIsFirstExceeding | src/lib.rs:36-41 | the scan selects index `i` if and only if `i` is the first index whose running total exceeds the reduced draw |
| FreqTables.SelectIndexNone | src/lib.rs:36-42 | the scan selects nothing if and only if the reduced draw is at least the sum of the counts |
| FreqTables.Sample | src/lib.rs:33-43 | a sample is either the end marker or one of the table's bytes |
| FreqTables.SampleNeverFallsBack | src/lib.rs:34-42 | in a table whose total is the positive sum of its counts, with a byte for every count, every draw selects an entry, so the `'$'` fallback at line 42 is never returned and the sample is one of the table's bytes |
| FreqTables.SampleReachesEveryEntry | src/lib.rs:33-43 | in such a table with a total that fits in `u32`, every entry with a positive count is returned for some draw: the draw equal to the sum of the counts before it |
| FreqTables.NextChar | src/lib.rs:33-43 | the running-total scan returns the sample of the draw reduced modulo the total |
| NameGens.Train | src/lib.rs:48-78 | training builds exactly the model `Trained`: one table per context byte, holding the counts of the transitions of the bracketed non-empty names |
| NameGens.Walk | src/lib.rs:88-95 | a walk of at most `steps` draws emits at most `steps` characters (one per training byte) and never the end marker |
| NameGens.NextName | src/lib.rs:80-97 | generation returns `Generate`: the empty name for an empty model, else the walk from the start marker; the name has at most `max_len` characters (one per training byte) and no end marker; it takes one draw per emitted character, plus one for the end marker when that is drawn before `max_len` steps |
| NameGenProps.PairWitness | src/lib.rs:59-61 | a counted pair occurs at some adjacent positions of the bracketed name |
| NameGenProps.PairCounted | src/lib.rs:59-61 | every pair of adjacent positions of the bracketed name is counted |
| NameGenProps.TransitionWitness | src/lib.rs:51-61 | a counted transition comes from some non-empty training name |
| NameGenProps.TransitionCounted | src/lib.rs:51-61 | every non-empty training name contributes all its pairs to the counts |
| NameGenProps.StartLeadsToFirstByte | src/lib.rs:54-61 | every non-empty name contributes the transition from the start marker to its first byte |
| NameGenProps.SuccessorOfSuccessor | src/lib.rs:54-61 | a successor other than the end marker is a byte of a training name and has a successor of its own |
| NameGenProps.TrainedCounts | src/lib.rs:59-70 | after training, context `c` lists successor `d` if and only if the pair `(c, d)` occurs in the bracketed non-empty names; each listed count is the number of occurrences |
| NameGenProps.TrainedTablesValid | src/lib.rs:63-75 | every table training builds has distinct bytes, one count per byte, and a positive total equal to the sum of its counts |
| NameGenProps.TrainedCountsTransitions | src/lib.rs:48-78 | the trained model holds exactly the transition counts of the training names |
| NameGenProps.CountedIsWalkable | src/lib.rs:59-70 | a model holding the transition counts of some names has a table for the start marker when it is non-empty, and a table for every byte it can draw other than the end marker |
| NameGenProps.TrainedIsWalkable | src/lib.rs:85-89 | in a trained model the `unwrap` at line 89 never fails and no modulus at line 34 is zero |
| NameGenProps.TrainedEmpty | src/lib.rs:51-52 | training yields an empty model if and only if every training name is empty |
| NameGenProps.PairsLeavingContext | src/lib.rs:59-70 | summed over all successors, the pairs of a word starting at `c` are the positions of `c` before the last |
| NameGenProps.ContextsOfWord | src/lib.rs:59 | summed over all contexts, a word of length `n` gives `n - 1` pairs |
| NameGenProps.TransitionsLeavingContext | src/lib.rs:51-70 | summed over all successors, the transitions of context `c` are those leaving `c` |
| NameGenProps.TransitionsOfLastName | src/lib.rs:51-70 | adding a name adds its pairs leaving `c` to the transitions leaving `c`, and an empty name adds none |
| NameGenProps.AllTransitions | src/lib.rs:51-70 | summed over all contexts, the transitions number `len + 1` per non-empty name |
| NameGenProps.ContextsOfLastName | src/lib.rs:51-70 | adding a non-empty name adds `len + 1` transitions; adding an empty name adds none |
| NameGenProps.CountedTotals | src/lib.rs:63-75 | a context has a table if and only if some transition leaves it, and the table's total is the number of those transitions |
| NameGenProps.CountedGrandTotal | src/lib.rs:51-75 | the totals of all tables add up to the sum of `len + 1` over the non-empty names |
| NameGenProps.TrainedTotals | src/lib.rs:63-75 | after training, each table's total is the number of transitions leaving its context, so it is positive |
| NameGenProps.TrainedGrandTotal | src/lib.rs:48-78 | after training, the totals of all tables add up to the sum of `len + 1` over the non-empty names |
| NameGenProps.WalkBytesFromTraining | src/lib.rs:88-95 | every character (one per training byte) a walk of a trained model emits is a byte of some training name |
| NameGenProps.GeneratedFromTraining | src/lib.rs:80-97 | a name generated from a trained model has at most `max_len` characters (one per training byte), never contains the end marker, and contains only characters whose code points are bytes of the training names |
| NameGenProps.EmptyTrainingGeneratesNothing | src/lib.rs:122-129 | training on no names, or only on empty names, gives a model that generates the empty name for every draw and length |
| SingleWord.AlaTransitions | src/lib.rs:131-134 | the transitions of `"ala"` are exactly `^a`, `al`, `la` and `a$`, each counted once |
| SingleWord.AlaSuccessors | src/lib.rs:131-134 | the model of `"ala"` has tables for `^`, `a` and `l` only; `^` and `l` lead only to `a`, and `a` leads to `l` or `$` |
| SingleWord.AlaModelShaped | src/lib.rs:131-134 | the model of `"ala"` has the shape generation relies on |
| SingleWord.AlaWalk | src/lib.rs:88-95 | walking the model of `"ala"` alternates `a` and `l`; a walk cut short by the end marker stops after an `a` |
| SingleWord.AlaGenerated | src/lib.rs:80-97 | the model of `"ala"` generates a prefix of `"alalal..."`; it is non-empty for a positive length, and ends in `a` when shorter than the length |
| SingleWord.AlaOutputs | src/lib.rs:131-138 | trained on `["ala"]`, under any key order and any draws, the generated name is a prefix of `"alalal..."`, non-empty for a positive length, and ends in `a` when it stops before `max_len` |
| SingleWord.AlaTotalsSmall | src/lib.rs:131-134 | every table of the model of `"ala"` has a total of at most 4, the number of transitions of `"^ala$"` |
| SingleWord.AlaDraw | src/lib.rs:33-43 | in the model of `"ala"` every listed successor is sampled by some draw |
| SingleWord.AlaStepDraws | src/lib.rs:131-134 | in the model of `"ala"` each of the transitions `^a`, `al`, `la` and `a$` is taken by some draw |
| SingleWord.CycleWalk | src/lib.rs:88-95 | from context `a`, the draws for `al`, `la` repeated `m` times and then `a$` make the walk emit `"la"` `m` times and stop |
| SingleWord.AlaPinnedWalk | src/lib.rs:80-97 | with those draws, ten steps from the start marker generate the first nine letters of `"alalal..."` |
| SingleWord.AlaReachable | src/lib.rs:131-138 | trained on `["ala"]`, under every key order, some ten draws make `next_name` with `max_len` 10 return exactly the test's literal `"alalalala"` |

## Left out

- The random number generator (xoshiro256+ behind `RngCore`) is not modelled. `next_u32` is replaced by a sequence of draws, and every property holds for all draws.
- The exact outputs the tests pin for fixed seeds are not modelled: `'b'` for seed 100 at lines 111-120, and `"alalalala"` for seed 5 at lines 131-138. They depend on the generator's stream. For `"ala"` the model proves that every output has the pinned form, and that some draws produce exactly `"alalalala"` (SingleWord.AlaReachable); which draws seed 5 yields is not modelled.
- Probabilities are not modelled: the distribution of the samples and the modulo bias of `next_u32() % total_count`.
- Characters are bytes. The source reads the bracketed name byte by byte (lines 60-61), so a multi-byte UTF-8 name is split into bytes, and each byte becomes the `char` with the same code point. Encoding those characters into the returned `String` (line 93) is not modelled: the generated name is the sequence of those code points, one per step. A character from U+0080 to U+00FF takes two bytes in the `String`, so the `String` can be up to 2·`max_len` bytes long and can hold bytes that occur in no training name. The length and alphabet bounds of NameGens.NextName and NameGenProps.GeneratedFromTraining are about characters, not about the bytes of the `String`.
- FreqTables.FromCounter: the `u32` total of line 27 is an unbounded `nat`; its overflow, which panics in debug builds and wraps in release builds, is not modelled.
- FreqTables.NextChar: the `u32` running total of line 37 is an unbounded `nat`; its overflow is not modelled.
- NameGens.Train: the `u32` pair count `v+1` of line 64 is an unbounded `nat`; its overflow is not modelled.
- The `#[derive(Debug)]` implementations are not modelled.
- The key order of each hash map is a parameter, not insertion order. The code builds every table from `HashMap` iteration (lines 28 and 75), and the model follows the code.
- FreqTables.FromCounter accepts an empty counter and yields a table with total zero, as the code does. Training never builds one (NameGenProps.TrainedTablesValid).
- NameGens.NextName requires `Walkable`, the condition under which the `unwrap` at line 89 and the modulus at line 34 cannot panic. NameGenProps.TrainedIsWalkable proves that every trained model meets it. A hand-built model that does not meet it is not modelled.
