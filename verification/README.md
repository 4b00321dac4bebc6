# Models and proofs for algorithmic cores of the repository

This project models self-contained algorithms of the repository in Dafny and proves what they are for. Each file
holds one module; `dafny verify dfyconfig.toml` checks all of them.

- **Big integers** (`benchmarks/crypto.js`; Arithmetic, JsNumber, Digits, DigitLoops, DigitInverse, BigIntegers,
  Reduction, Reducers, ExponentBits, ModularPower, IntegerPower). Numbers of 28-bit digits with a sign word. Addition,
  subtraction, multiplication and squaring are exact for all signs and lengths, in place where the code allows it, and
  no intermediate value leaves 32 bits. Montgomery reduction and the sliding-window power compute x/R mod m and
  base^e mod m.
- **Printing, parsing and padding** (`benchmarks/crypto.js`; Numerals, Parsing, Printing, Padding). Text in the radixes
  2, 4, 8, 16 and 32, two's complement bytes, and PKCS#1 padding (section 7.2 of RFC 8017). Parsing undoes printing for
  every integer; unpadding undoes padding exactly for the texts that a condition on their characters describes.
- **The Boyer theorem prover** (`benchmarks/earley-boyer.js`; BoyerTerms, BoyerUnify, BoyerRewrite, BoyerTautology,
  BoyerNormal, BoyerProver, BoyerSteps, BoyerBenchmark). One-way unification decides whether a term is an instance of
  another. Rewriting keeps meaning in every model of the lemmas, and its steps and their number are those of a relation
  on the equations alone. The tautology checker is sound, and with the program's equations it decides exactly which
  rewritten goals are valid. A yes means that the term that was asked about is true.
- **The Earley parser** (`benchmarks/earley-boyer.js`; EarleyGrammar, EarleySets, EarleyChart, EarleyForward,
  EarleyParse, EarleyPrune, EarleyTrees, EarleyForest, EarleyCycles, EarleyEndless, EarleyOnce, EarleyTables,
  EarleyUses, EarleyDefinitions, EarleyParser, EarleySpan, EarleyAnswers, EarleyListing). Item sets threaded through vectors, a worklist per state, a backward pass,
  and tree extraction. The chart has an item if and only if it is true of the input, the pruned chart if and only if a
  whole parse uses it. The listing of trees ends unless there are parse trees of any size, and then lists and counts
  exactly the parse trees. All answers are told by the definitions of the grammar as they are given.
- **The splay tree** (`benchmarks/splay.js`; SplayShapes, SplaySteps, SplayTrees). Pointer surgery around a dummy node
  keeps all nodes in order; every operation is the one on a finite map.
- **The array library** (`src/array.js`; SparseArrays, ArraySort, ArrayReverse, ArraySplice, ArrayHoles). Arrays with
  holes are partial maps with a length. The sparse and the dense variants have the same, unique result.
- **The Richards scheduler** (`benchmarks/richards.js`; RichardsPackets, RichardsTasks, RichardsMoves,
  RichardsScheduler, RichardsRuns, RichardsEnding, RichardsSchedule, RichardsSetup). At every turn every packet is in
  exactly one place, every list is linked, and the task that is run is the ready one with the highest priority. The run
  comes to an end.
- **Relocation information** (`src/assembler.cc`; RelocFormat, RelocReader, RelocWriter, RelocRoundTrip). A format
  written backwards with variable-length deltas. Reading gives back the wanted records for exactly the masks that a
  condition describes.
- **Preallocated storage** (`src/allocation.cc`; AllocatorRings, AllocatorArena, Allocator). Two rings of chunks that
  divide an arena without gap or overlap, whatever is allocated and freed.

Objects whose methods update their fields are classes. A class has a predicate that its methods keep and a value that it
stands for (an integer, a map, a set of items, a list of cells, a sequence of units), and each method says what that
value becomes. What the program is for is proved about those values.

Some promises do not hold for every input. There the code is kept as it is, and a member says exactly when it holds:

- `BigIntegers.BigInteger.CompareTo` orders two negative numbers of different digit counts the wrong way round.
- `Padding.PadAndUnpad`: a text with a character from 0x80 to 0xff7f does not come back.
- `EarleyParser.Result.IsParsed`: asked about a span that ends before it begins, the parser reads past the end of a vector
  and may say yes; `EarleySpan.BackwardFound` is such an input.
- `EarleyAnswers.ResultTrees`: the listing of trees does not end if there are trees of any size.
- `RelocRoundTrip.FaithfulExactly`: with comments wanted and positions not, data come back wrong; `RelocRoundTrip.PcExactly`:
  a pc delta of 2^32 or more does.
- `Allocator.Storage.New`: near the end of the machine word the rounded request is too small, or the split does not divide
  the chunk.
- `RichardsSetup.RunningConsistent`: a task that is marked as running with packets in its queue has a wrong runnable bit.

## Model

| member | source | states |
|---|---|---|
| BigIntegers.AmWord | benchmarks/crypto.js:112-122 | one turn of the multiplier loop: digit out and carry out are those of the exact x*a + w + c, every 32-bit piece fits |
| BigIntegers.BigInteger.Am3 | benchmarks/crypto.js:108-123 | adds x times n digits to w: new digits and final carry make up the exact sum; the carry stays below 3*2^28 and at most x |
| BigIntegers.BigInteger.Clamp | benchmarks/crypto.js:243-247 | drops exactly the top digits that repeat the sign, the value unchanged |
| BigIntegers.BigInteger.CopyTo | benchmarks/crypto.js:180-187 | r gets the digits, count and sign of this, whatever was in r |
| BigIntegers.BigInteger.AddTo | benchmarks/crypto.js:935-968 | r = this + a exactly, for all signs and lengths, r being this or a or neither |
| BigIntegers.BigInteger.SubTo | benchmarks/crypto.js:378-411 | r = this - a exactly, for all signs and lengths, r being this or a or neither |
| DigitLoops.RunFinish | benchmarks/crypto.js:406-410 | the last carry becomes the sign word and, when it is not just a sign, one more digit |
| BigIntegers.BigInteger.Negate | benchmarks/crypto.js:281 | a new number with the opposite value |
| BigIntegers.BigInteger.Abs | benchmarks/crypto.js:284 | the absolute value; a number that is not negative is returned itself |
| BigIntegers.BigInteger.DlShiftTo | benchmarks/crypto.js:319-327 | multiplies by 2^(28n), in place too |
| BigIntegers.BigInteger.DrShiftTo | benchmarks/crypto.js:330-336 | divides by 2^(28n) and rounds down, in place too |
| BigIntegers.BigInteger.CompareTo | benchmarks/crypto.js:287-298 | zero exactly for equal values; the sign is that of the difference except exactly for two negative numbers of different digit counts, for which it is the opposite |
| DigitLoops.LongerIsFarther | benchmarks/crypto.js:293-295 | of two clamped numbers of one sign the one with more digits is farther from zero |
| BigIntegers.BigInteger.MultiplyTo | benchmarks/crypto.js:415-428 | r = this * a exactly, for all signs |
| DigitLoops.ProductStep | benchmarks/crypto.js:424 | a round of multiplying adds x times one digit at its place and leaves the digits above to come |
| BigIntegers.BigInteger.SquareTo | benchmarks/crypto.js:431-448 | r = this * this exactly |
| DigitLoops.SquareArithmetic | benchmarks/crypto.js:439-443 | the two multiplier calls of a squaring round add x*x and twice x times the rest, the overflow of the doubled part moved up included |
| DigitLoops.SquareStep | benchmarks/crypto.js:438-444 | after each round what is missing is the square of the digits still to come |
| BigIntegers.BigInteger.IsEven | benchmarks/crypto.js:615-618 | even exactly when the value is |
| BigIntegers.BigInteger.RemTo | benchmarks/crypto.js:519 | the remainder of a number that is not negative, in [0, m) |
| ModularPower.Nbits | benchmarks/crypto.js:301-309 | the bit length of every unsigned 32-bit number |
| ModularPower.BitLength | benchmarks/crypto.js:312-316 | the bits of the value, or for a negative number of -value - 1: 2^(r-1) <= it < 2^r, and 0 exactly for 0 and -1 |
| DigitInverse.NewtonStep | benchmarks/crypto.js:545-550 | if y inverts x modulo k, y*(2 - x*y) does modulo k*k |
| DigitInverse.InvertDigit | benchmarks/crypto.js:544-552 | for an odd digit: mp with x*mp = -1 modulo 2^28, by four exact steps |
| BigIntegers.BigInteger.InvDigit | benchmarks/crypto.js:539-553 | the same for the lowest digit of a number; 0 if it is even |
| Reduction.SplitMultiplier | benchmarks/crypto.js:589-590 | the 15- and 13-bit pieces give the low 28 bits of d*mp exactly and stay below 2^31 |
| Reduction.MultiplierClears | benchmarks/crypto.js:589-593 | with that multiplier the digit it was made from vanishes |
| Reduction.RoundBound | benchmarks/crypto.js:585-595 | what the rounds have added leaves the number below the padded array, so carries never leave it |
| Reduction.Quotient | benchmarks/crypto.js:597-599 | after the rounds the shifted number is congruent to x/R and below 2m, so one subtraction is enough |
| Reducers.Reducer.ReduceRound | benchmarks/crypto.js:587-596 | one round: v0 + k*m becomes v0 + k'*m with one more low digit zero and all digits in range |
| Reducers.Reducer.MontReduce | benchmarks/crypto.js:583-600 | for odd m and 0 <= x < m*R: x becomes y in [0, m) with y*R congruent to x modulo m |
| Reducers.Reducer.MontConvert | benchmarks/crypto.js:566-572 | the representative of any number, negative ones included |
| Reducers.Reducer.Convert | benchmarks/crypto.js:514-517 | each reducer keeps a representative of the number it is given |
| Reducers.Reducer.Revert | benchmarks/crypto.js:575-580 | from the representative of v comes v mod m |
| Reducers.Reducer.MulTo | benchmarks/crypto.js:606 | the representative of a product from those of its factors, for all three reducers |
| Reducers.Reducer.SqrTo | benchmarks/crypto.js:603 | the representative of a square |
| ExponentBits.WindowInside | benchmarks/crypto.js:1130 | k bits inside one digit are those bits of the exponent |
| ExponentBits.WindowStraddles | benchmarks/crypto.js:1132-1133 | k bits across two digits are those bits of the exponent |
| ModularPower.Window | benchmarks/crypto.js:1130-1134 | the window is the next k bits of the exponent, filled up with zeros past the lowest bit |
| ModularPower.StripZeros | benchmarks/crypto.js:1136-1137 | dropping low zeros leaves an odd window of n bits that are all bits of the exponent |
| ModularPower.Precompute | benchmarks/crypto.js:1115-1125 | the table has the representative of every odd power up to 2^k - 1 |
| ModularPower.SquareAndMultiply | benchmarks/crypto.js:1144-1146 | from b^q and b^w comes b^(q*2^n + w), r and r2 swapped as the code does |
| ModularPower.SkipZeros | benchmarks/crypto.js:1149-1152 | squares once for each zero bit, across digits, to the next one bit or the end |
| ModularPower.PowerLoop | benchmarks/crypto.js:1115-1154 | base^e mod m for every positive e, every window size 1 to 6 and every reducer |
| ModularPower.ModPow | benchmarks/crypto.js:1098-1155 | base^e mod m for every e > 0 and positive m; 1 for e = 0 whatever m |
| IntegerPower.Exp | benchmarks/crypto.js:621-631 | base^e mod m for 1 <= e < 2^32, and 1 for every other e |
| IntegerPower.ModPowInt | benchmarks/crypto.js:634-638 | the same for every integer e and positive m, with the reducer that the code picks |
| Numerals.ParsePrinted | benchmarks/crypto.js:203-278 | for radix 2^k, k from 1 to 5, parsing the printed form of any integer gives it back |
| Numerals.NegativeExactly | benchmarks/crypto.js:215-223 | a text is negative exactly if a minus sign comes before its first digit |
| Numerals.MagnitudeSkips | benchmarks/crypto.js:215-223 | a character that is no digit makes no difference, wherever it is |
| Numerals.BytesRoundTrip | benchmarks/crypto.js:783-806 | the two's complement bytes of any integer make it up again |
| Numerals.BytesShortest | benchmarks/crypto.js:783-806 | no other bytes that make up the integer are fewer |
| Parsing.PushDigit | benchmarks/crypto.js:223-232 | k more bits on top: the number grows by digit * 2^n, in the free bits of the top digit, in a new one, or in both |
| Parsing.CutInTwo | benchmarks/crypto.js:225-228 | a digit that straddles two array elements is cut without loss |
| Parsing.FromText | benchmarks/crypto.js:203-240 | any text with digits below the radix: other characters are skipped, and a minus sign counts if no digit is before it |
| Parsing.FromBytes | benchmarks/crypto.js:203-240 | any byte array, read as a two's complement number; the top digit is filled up with ones when the first byte is negative |
| Printing.TakeDigit | benchmarks/crypto.js:265-272 | the next k bits from the top, inside a digit or across two |
| Printing.PrintMagnitude | benchmarks/crypto.js:260-277 | the numeral without leading zeros of a number that is not negative |
| Printing.ToText | benchmarks/crypto.js:250-278 | the usual numeral, with a minus sign for a negative number |
| Printing.ToByteArray | benchmarks/crypto.js:783-806 | the shortest two's complement representation, for every integer |
| Padding.TextRoundTrip | benchmarks/crypto.js:250-278 | printing and parsing a number object gives an equal one |
| Padding.BytesAndBack | benchmarks/crypto.js:783-806 | the same through bytes |
| Padding.Pad | benchmarks/crypto.js:1477-1496 | null exactly when n < length + 11; else the number of the block 0, 2, filler without zeros, 0, text |
| Padding.Unpad | benchmarks/crypto.js:1551-1564 | a text comes out exactly if the number's bytes are, behind leading zeros, a 2, bytes that are not zero, a 0 and the text, n bytes with the one in front; the text is then these bytes as 16-bit characters; else null |
| Padding.MessageExactly | benchmarks/crypto.js:1551-1564 | the same about any bytes, both ways |
| Padding.MessageOfBlock | benchmarks/crypto.js:1551-1564 | unpadding a padded block gives every character's low byte, its sign extended to 16 bits |
| Padding.PadAndUnpad | benchmarks/crypto.js:1477-1564 | unpad(pad(s, n), n) is s if and only if n >= length + 11 and every character is below 0x80 or at least 0xff80 |
| BoyerTerms.IsTermEqual | benchmarks/earley-boyer.js:3686-3719 | true exactly for equal terms |
| BoyerTerms.IsTermMember | benchmarks/earley-boyer.js:3720-3732 | true exactly for members |
| BoyerTerms.ApplyIsInstance | benchmarks/earley-boyer.js:3555-3563 | applying a list of bindings is the instance under the function that it stands for |
| BoyerTerms.EvalInstance | benchmarks/earley-boyer.js:3555-3563 | the meaning of an instance: the variables mean what is substituted for them |
| BoyerTerms.InstanceHolds | benchmarks/earley-boyer.js:3555-3563 | both sides of a lemma that holds mean the same under every substitution that leaves numbers alone |
| BoyerUnify.UnifySound | benchmarks/earley-boyer.js:3635-3679 | from any bindings: on success term2 under the new bindings is term1, and old bindings are kept |
| BoyerUnify.UnifyComplete | benchmarks/earley-boyer.js:3635-3679 | if a substitution that agrees with the bindings turns term2 into term1, the matcher succeeds and stays in agreement with it |
| BoyerUnify.UnifyDecides | benchmarks/earley-boyer.js:3635-3679 | from no bindings it succeeds if and only if term1 is an instance of term2, and then its bindings show it |
| BoyerUnify.UnifyUnique | benchmarks/earley-boyer.js:3635-3679 | there is no other such substitution on the variables of term2 |
| BoyerRewrite.RewriteKeepsMeaning | benchmarks/earley-boyer.js:3604-3633 | whenever rewriting returns, the result means the same in every model of the lemmas |
| BoyerRewrite.RewriteIsNormal | benchmarks/earley-boyer.js:3616-3625 | whenever rewriting returns, no lemma of its symbol matches any subterm of the result |
| BoyerRewrite.RewriteTwice | benchmarks/earley-boyer.js:3604-3633 | rewriting a rewritten term changes nothing and takes one call for each subterm |
| BoyerRewrite.DeeperRewrite | benchmarks/earley-boyer.js:3604-3633 | a larger bound on the recursion never changes an answer |
| BoyerTautology.TautologySound | benchmarks/earley-boyer.js:3564-3601 | a yes for (x, T, F) means x is true in every model and valuation that makes all of T true and none of F |
| BoyerTautology.TautologyDecides | benchmarks/earley-boyer.js:3564-3601 | on terms whose conditions are no ifs it never fails and says yes exactly to the valid ones |
| BoyerTautology.TautologyRefuted | benchmarks/earley-boyer.js:3564-3601 | when it says no on such a term there is an assignment that makes the term false |
| BoyerTautology.NestedCondition | benchmarks/earley-boyer.js:3585-3597 | why rewriting has to come first: a valid term with an if in its condition that the checker alone turns down |
| BoyerNormal.NormalIsIfNormal | benchmarks/earley-boyer.js:3466 | with (equal (if (if a b c) d e) (if a (if b d e) (if c d e))) among the lemmas, a term that no lemma matches and whose ifs have three arguments has no if in a condition |
| BoyerNormal.UnifyBindsFull | benchmarks/earley-boyer.js:3635-3679 | what the matcher binds are parts of the term, so their ifs have three arguments if its ifs do |
| BoyerNormal.RewriteKeepsFull | benchmarks/earley-boyer.js:3604-3633 | rewriting keeps every if with its three arguments |
| BoyerNormal.RewrittenIsDecided | benchmarks/earley-boyer.js:3564-3633 | so no rewritten term has an if in a condition, and on it the checker never lacks an argument and says yes if and only if the term is propositionally valid |
| BoyerProver.SetupUnnests | benchmarks/earley-boyer.js:3733-3766 | the lemma lists made from such equations are of that kind |
| BoyerProver.TestDecides | benchmarks/earley-boyer.js:3767-3799 | on the whole goal: the checker never lacks an argument and says yes if and only if the rewritten goal is valid |
| BoyerProver.Prover.OneWayUnify1 | benchmarks/earley-boyer.js:3635-3679 | the method over the global bindings computes the matcher of the model |
| BoyerProver.Prover.Rewrite | benchmarks/earley-boyer.js:3604-3629 | the method over the global counter and bindings computes the rewriter, and counts its calls; BoyerSteps.RewritesExactly says which steps these are |
| BoyerProver.Prover.Setup | benchmarks/earley-boyer.js:3733-3766 | the equations become lemmas one by one up to the first that is turned down |
| BoyerProver.AddedLemmas | benchmarks/earley-boyer.js:3753-3757 | a symbol's equations stand in its list with the last one first |
| BoyerProver.SetupModels | benchmarks/earley-boyer.js:3733-3766 | a model of the equations is a model of the lemma lists made of them |
| BoyerProver.Prover.Test | benchmarks/earley-boyer.js:3767-3799 | the answer is the rewrite count exactly when the rewritten goal is recognized, which with the equations of the program is exactly when rewriting returns and its result is valid; BoyerBenchmark.Nboyer says what that means for the term |
| BoyerProver.ProvedIsTrue | benchmarks/earley-boyer.js:3767-3799 | a yes of the whole prover means that the goal is true in every lawful model of the equations, under every valuation |
| BoyerSteps.MatchUnique | benchmarks/earley-boyer.js:3616-3622 | a match of an equation is the one that is found, and gives the same right side |
| BoyerSteps.FirstMatchUsed | benchmarks/earley-boyer.js:3617-3625 | of a lemma list the first lemma that matches is used, and its right side is rewritten |
| BoyerSteps.StepTaken | benchmarks/earley-boyer.js:3604-3633 | a term with rewritten arguments is rewritten as the right side of the first lemma that matches, with one call more and one for each subterm of the arguments |
| BoyerSteps.TryUsesLast | benchmarks/earley-boyer.js:3617-3625 | running through a symbol's list uses the last equation that matches |
| BoyerSteps.RewritesExactly | benchmarks/earley-boyer.js:3604-3633 | what is computed, and in how many calls, is given by a relation on the equations alone: arguments first, then the last equation that matches, once, and its right side again |
| BoyerBenchmark.OrFalseAround | benchmarks/earley-boyer.js:3778-3783 | each of the n ors is put around the term, with (f) behind it; the term grows by two for each |
| BoyerBenchmark.OrKeepsTruth | benchmarks/earley-boyer.js:3466 | with (equal (or p q) (if p (t) (if q (t) (f)))), (or x (f)) is true in a lawful model just when x is |
| BoyerBenchmark.OrFalseMeans | benchmarks/earley-boyer.js:3778-3783 | the instance of the expanded term is true in every such model just when the instance of the term is |
| BoyerBenchmark.Nboyer | benchmarks/earley-boyer.js:3470-3482 | setup and test: a yes means that the instance of the term itself is true in every model of the equations; it is the number of calls in which the goal is rewritten to a recognized term, and with full ifs it is given exactly if the goal is rewritten to a valid one |
| EarleyTables.Ind | benchmarks/earley-boyer.js:3836-3850 | the index of a symbol, found exactly when it is there |
| EarleyTables.Symbols | benchmarks/earley-boyer.js:3851-3877 | every symbol that the grammar mentions once, the goal first |
| EarleyTables.CountConfs | benchmarks/earley-boyer.js:3879-3902 | one item for each place of the dot in each rule |
| EarleyTables.MakeTables | benchmarks/earley-boyer.js:3903-3963 | starters, enders, predictors, steps and names are those of the grammar |
| EarleyDefinitions.RuleListed | benchmarks/earley-boyer.js:3903-3963 | rule b of definition a is rule (rules of the definitions before a) + b, with the number b + 1 |
| EarleyDefinitions.RuleOfDef | benchmarks/earley-boyer.js:3903-3963 | there are no other rules |
| EarleyDefinitions.GrammarSpelledOut | benchmarks/earley-boyer.js:3851-3963 | the grammar in numbers has each rule of each definition in this order, and no more |
| EarleyDefinitions.DerivesExactly | benchmarks/earley-boyer.js:3851-3963 | a symbol derives a span in the grammar in numbers if and only if it does by the definitions as they are given |
| EarleyDefinitions.UsesExactly | benchmarks/earley-boyer.js:3851-3963 | and a parse of the whole input uses it over a span in the one if and only if one does by the other |
| EarleyParser.ReadTokens | benchmarks/earley-boyer.js:4446-4471 | the symbols of each token by number, unknown ones left out |
| EarleyChart.Chart.constructor | benchmarks/earley-boyer.js:4038-4055 | an empty state for each place in the input |
| EarleyChart.Chart.Get | benchmarks/earley-boyer.js:4056-4060 | the set of a conf is made if it is not there, everything else as before |
| EarleyChart.Chart.Member | benchmarks/earley-boyer.js:4241 | a slot of the set is not false: for i up to j if and only if origin i is a member, for i behind j, past the end of the set, if and only if there is a set |
| EarleySets.AppendedRepresents | benchmarks/earley-boyer.js:4064-4067 | writing the three slots puts an origin at the end of the new members of a set |
| EarleySets.MergedRepresents | benchmarks/earley-boyer.js:4061-4063 | one write moves the new members behind the others |
| EarleyChart.Chart.Adjoin | benchmarks/earley-boyer.js:4068-4091 | the members of a state grow by exactly this one, if it was not there |
| EarleyChart.Chart.Pop | benchmarks/earley-boyer.js:4141-4148 | the first conf of the worklist is taken, and its new members become members that are dealt with |
| EarleyChart.Chart.Union | benchmarks/earley-boyer.js:4099-4114 | the members of a state grow by exactly the origins that the other set has dealt with |
| EarleyForward.AddStarters | benchmarks/earley-boyer.js:4151-4164 | the rules of the symbol after the dot are items of the state |
| EarleyForward.SkipNulls | benchmarks/earley-boyer.js:4165-4179 | an item moves over a symbol that one of its finished items here says derives nothing |
| EarleyForward.CompleteAll | benchmarks/earley-boyer.js:4183-4216 | a finished item moves the dot of every item that waits for it in the states of its origins |
| EarleyForward.Step | benchmarks/earley-boyer.js:4139-4222 | one turn of the loop keeps everything that follows from the items dealt with in the state, and makes progress |
| EarleyForward.Forward | benchmarks/earley-boyer.js:4115-4224 | the loop ends with an empty worklist, all members dealt with, each item added once |
| EarleyParse.ParseForward | benchmarks/earley-boyer.js:4474-4486 | the chart is sound in every state and closed under scanning, predicting and completing |
| EarleyGrammar.FinishedMeans | benchmarks/earley-boyer.js:4181-4217 | a finished item that is true of the input says that its symbol derives the span |
| EarleyGrammar.AdvanceMeans | benchmarks/earley-boyer.js:4201-4207 | moving the dot over a derived symbol keeps items true |
| EarleyGrammar.ClosedReaches | benchmarks/earley-boyer.js:4115-4224 | a rule that may begin at a place has its first item there in every closed chart |
| EarleyGrammar.ClosedComplete | benchmarks/earley-boyer.js:4115-4224 | if the first symbol derives the whole input, a closed chart has one of its finished items over it, empty rules included |
| EarleyGrammar.ChartExactly | benchmarks/earley-boyer.js:4115-4224 | a sound and closed chart has item (conf, i) in state j if and only if the rule may begin at i and what is before its dot derives tokens i to j |
| EarleyPrune.AdjoinKept | benchmarks/earley-boyer.js:4092-4098 | an item is kept if and only if the forward chart has it |
| EarleyPrune.SplitItem | benchmarks/earley-boyer.js:4531-4574 | both halves of every way the item comes about are kept |
| EarleyPrune.PruneState | benchmarks/earley-boyer.js:4511-4583 | a state is worked off, and nothing is kept without a reason |
| EarleyPrune.Prune | benchmarks/earley-boyer.js:4487-4585 | the backward pass as a whole |
| EarleyPrune.PrunedExactly | benchmarks/earley-boyer.js:4487-4585 | an item is left if and only if it is reached from a finished goal over the whole input |
| EarleyParser.Parser.constructor | benchmarks/earley-boyer.js:3813-3964 | a parser whose tables are those of the grammar that has each rule of each given definition, in order, and no other |
| EarleyParser.Parser.Parse | benchmarks/earley-boyer.js:3965-4589 | parsing any input ends with the exact pruned chart of a grammar that derives exactly what the given definitions derive |
| EarleyParser.Result.IsParsed | benchmarks/earley-boyer.js:4225-4253 | for i up to j it is yes if and only if, by the definitions as given, a parse of the whole input uses the symbol over tokens i..j; for i behind j if and only if one uses it over any tokens that end at j; for the goal and the whole input if and only if the goal derives it |
| EarleySpan.BackwardFound | benchmarks/earley-boyer.js:4241 | after parsing a b with the grammar s -> a b, is_parsed(a, 2, 1) is yes, and no symbol derives tokens 2..1 |
| EarleySpan.BackwardSpan | benchmarks/earley-boyer.js:4241 | the same as a run of the parser |
| EarleySpan.DerivesForward | benchmarks/earley-boyer.js:4225-4253 | no symbol derives a span that ends before it begins, so the answers for i behind j are right exactly when they are no |
| EarleyParser.FoundExactly | benchmarks/earley-boyer.js:4225-4253 | what a finished item that is left says, both ways |
| EarleyForest.NameStops | benchmarks/earley-boyer.js:3915-3939 | names is set exactly for tokens' items and first items of rules |
| EarleyTrees.Parse.CountIsLength | benchmarks/earley-boyer.js:4254-4402 | nb_deriv_trees answers exactly when deriv_trees does, with the length of its list |
| EarleyTrees.Parse.ListLength | benchmarks/earley-boyer.js:4324-4435 | the same for the functions over all finished items of a symbol |
| EarleyTrees.Parse.StrayListed | benchmarks/earley-boyer.js:4324-4356 | for a span that ends before it begins: it fails if a word behind the input is to be read, and else lists a leaf for a token's item and a bare node for a rule without symbols |
| EarleyForest.TreeDerives | benchmarks/earley-boyer.js:4254-4323 | a parse tree is a derivation |
| EarleyForest.BothThere | benchmarks/earley-boyer.js:4531-4574 | the pruned chart has both halves of each of its items |
| EarleyForest.TreesExactly | benchmarks/earley-boyer.js:4254-4323 | deriv_trees lists exactly the trees of the grammar over the item's tokens |
| EarleyCycles.RankFalls | benchmarks/earley-boyer.js:4254-4323 | while the search reaches no item that reaches itself, each request reaches strictly fewer items than the one before |
| EarleyCycles.CyclicNever | benchmarks/earley-boyer.js:4254-4323 | if the search reaches an item that reaches itself, no bound on the recursion is enough |
| EarleyCycles.AnswersExactly | benchmarks/earley-boyer.js:4254-4323 | deriv_trees ends exactly when its search reaches no item that reaches itself, and then no deeper than there are items |
| EarleyCycles.DeeperTrees | benchmarks/earley-boyer.js:4254-4323 | a larger bound on the recursion never changes an answer |
| EarleyCycles.ListExactlyOnce | benchmarks/earley-boyer.js:4324-4435 | for a symbol and a span there is one list that deriv_trees* gives at every bound that is enough, with nb_deriv_trees* giving its length, or neither ever answers |
| EarleyEndless.SymHasTree | benchmarks/earley-boyer.js:4254-4323 | what a symbol derives has a parse tree |
| EarleyEndless.CyclicGrows | benchmarks/earley-boyer.js:4254-4323 | an item whose search comes back stands for trees of any size |
| EarleyOnce.JoinOnce | benchmarks/earley-boyer.js:4291-4305 | if no two rules have one name, a tree is put together from its parts in one way only |
| EarleyOnce.TreesOnce | benchmarks/earley-boyer.js:4254-4323 | then deriv_trees lists no tree twice |
| EarleyUses.FinishedTogether | benchmarks/earley-boyer.js:4531-4574 | if one finished item of a symbol is kept over a span, every other true one is |
| EarleyUses.KeptExplained | benchmarks/earley-boyer.js:4531-4574 | an item is kept only if its rule goes on behind its dot and a parse of the whole input uses the rule's head |
| EarleyUses.UsedKept | benchmarks/earley-boyer.js:4531-4574 | what a parse of the whole input uses has a kept finished item |
| EarleyUses.UsedExactly | benchmarks/earley-boyer.js:4531-4574 | so a finished item of a symbol is kept over a span if and only if a parse of the whole input, from the goal down, uses the symbol there |
| EarleyUses.UsedBackward | benchmarks/earley-boyer.js:4241 | and for a span that ends before it begins, if and only if one uses the symbol over any span with this end |
| EarleyAnswers.TreesOfSymbol | benchmarks/earley-boyer.js:4324-4356 | the list for a symbol and a span holds its parse trees there if a whole parse uses it there, and else nothing |
| EarleyAnswers.RuleNumbersDiffer | benchmarks/earley-boyer.js:3905-3939 | if no symbol is defined twice, no two rules have one name |
| EarleyAnswers.ResultTrees | benchmarks/earley-boyer.js:4592-4617 | for every symbol and span i up to j, deriv_trees* and nb_deriv_trees* come to an end unless a whole parse uses the symbol there and it has parse trees of any size there; then the list holds exactly these trees, or none if no whole parse uses it, each once if no symbol is defined twice, and the count is the length of the list |
| EarleyAnswers.GoalTrees | benchmarks/earley-boyer.js:4592-4617 | for the goal and the whole input: they end if and only if there are not parse trees of any size, and then list and count all parse trees of the input |
| EarleyListing.TreeSame | benchmarks/earley-boyer.js:3905-3939 | the parse trees in numbers are those of the definitions as given, with each rule's number in its definition |
| EarleyListing.SymbolTrees | benchmarks/earley-boyer.js:4592-4617 | by the definitions as given: the listing for a symbol over tokens i..j ends unless a parse of the whole input uses it there and it has parse trees of any size; then it lists exactly the parse trees if one uses it, and else nothing |
| EarleyListing.WholeTrees | benchmarks/earley-boyer.js:4592-4617 | for the first definition's symbol and the whole input: exactly its parse trees, unless there are ones of any size |
| SplaySteps.RotatesRight | benchmarks/splay.js:312-315 | a right rotation keeps the pieces linked and their nodes in order |
| SplaySteps.RotatesLeft | benchmarks/splay.js:330-333 | a left rotation keeps the pieces linked and their nodes in order |
| SplaySteps.LinksRight | benchmarks/splay.js:321-323 | hanging the current node under the right tree keeps all nodes in order |
| SplaySteps.LinksLeft | benchmarks/splay.js:339-341 | hanging the current node under the left tree keeps all nodes in order |
| SplaySteps.Assembles | benchmarks/splay.js:347-351 | the final assignments make one tree of the pieces, with the current node as root and the order kept |
| SplayTrees.TurnRight | benchmarks/splay.js:306-323 | one turn to the left of the current node: smaller and larger keys stay apart, and the current subtree shrinks or the search ends |
| SplayTrees.TurnLeft | benchmarks/splay.js:324-341 | the mirror image |
| SplayTrees.Search | benchmarks/splay.js:302-345 | the search ends, with the key at the current node or nowhere to go |
| SplayTrees.SplayTree.Splay | benchmarks/splay.js:293-352 | the same nodes in the same order, the root the key's node or a neighbour of the key |
| SplayTrees.NearContents | benchmarks/splay.js:224-228 | after a splay the key is in the map exactly when it is at the root |
| SplayTrees.SplayTree.Insert | benchmarks/splay.js:160-182 | the map gets the entry unless the key is there, and then stays as it is |
| SplayTrees.SplayTree.Remove | benchmarks/splay.js:193-214 | the node of the key leaves the tree and the map loses the key; nothing happens exactly when the key is not there |
| SplayTrees.SplayTree.RemoveRoot | benchmarks/splay.js:201-212 | joining the two subtrees by splaying the left one loses no other entry |
| SplayTrees.SplayTree.Find | benchmarks/splay.js:224-230 | null exactly when the key is not in the map, else its node with its value |
| SplayTrees.SplayTree.FindMax | benchmarks/splay.js:236-245 | the entry with the largest key, null exactly for the empty map |
| SplayTrees.SplayTree.FindMaxFrom | benchmarks/splay.js:240-244 | from any node: the last node of its subtree |
| SplayTrees.SplayTree.FindGreatestLessThan | benchmarks/splay.js:252-268 | the entry with the largest key below the one given, null exactly when there is none |
| SplayTrees.BelowKey | benchmarks/splay.js:258-267 | why: the root or the last node of the left subtree is it |
| SplayTrees.SplayTree.ExportKeys | benchmarks/splay.js:274-280 | the keys of the map, strictly increasing |
| SplayTrees.Traverse | benchmarks/splay.js:386-394 | visits the nodes of a subtree in order |
| SplayTrees.SplayTree.IsEmpty | benchmarks/splay.js:147-149 | true exactly for the empty map |
| ArraySort.InsertionSort | src/array.js:661-675 | the array part becomes the insertion sort of what it was, nothing else changes |
| ArraySort.InsertionElements | src/array.js:661-675 | insertion sort rearranges its input for any comparison |
| ArraySort.InsertionIsSorted | src/array.js:661-675 | it is sorted when the comparison is a total preorder |
| ArraySort.InsertionStable | src/array.js:661-675 | it is stable: elements that compare equal keep their order |
| ArraySort.Partition | src/array.js:683-705 | smaller elements, then those equal to the pivot with the pivot among them, then larger ones, for any comparison |
| ArraySort.QuickSort | src/array.js:677-708 | ends and rearranges the part for any comparison and any pivots, and sorts it when the comparison is a total preorder |
| ArrayReverse.PresentKeys | src/array.js:42-64 | exactly the present keys that the intervals list |
| ArrayReverse.GetSortedArrayKeys | src/array.js:41-67 | the same, in increasing order |
| ArrayReverse.SwapCells | src/array.js:444-460 | the two cells change places in each of the four cases of holes |
| ArrayReverse.DenseReverse | src/array.js:473-491 | cell k of the result is cell len-1-k, holes included |
| ArrayReverse.NextPair | src/array.js:427-442 | the next pair is the outermost key with its mirror, and the keys of the pair are behind the counters |
| ArrayReverse.SparseReverse | src/array.js:422-462 | the reverse, for every key list that covers the present indices, with repeated keys and intervals; no mirrored pair is swapped twice |
| ArrayReverse.Reverse | src/array.js:465-493 | the reverse, whichever variant is taken |
| ArrayReverse.ReverseUnique | src/array.js:422-493 | there is one reverse only, so the variants agree, and reversing twice changes nothing |
| ArraySplice.SimpleSlice | src/array.js:292-302 | the deleted cells, holes kept |
| ArraySplice.SimpleMove | src/array.js:305-342 | the cells behind the cut are moved, in either direction, and nothing is left over at the end |
| ArraySplice.SmartSlice | src/array.js:186-224 | the same cells from the keys alone |
| ArraySplice.SmartMove | src/array.js:229-287 | the same move from the keys alone |
| ArraySplice.Splice | src/array.js:573-640 | d cells from cell s on give way to the new elements and are returned, holes kept, whichever strategy: s is the start itself or counted from the end, kept within the array, and d is the delete count as far as there are cells, without one all of them |
| ArraySplice.SplicedUnique | src/array.js:573-640 | a splice has one result only, so the two strategies agree |
| ArrayHoles.FindUndefined | src/array.js:778-782 | the next place that is not defined, passed places counted |
| ArrayHoles.FindDefined | src/array.js:789-796 | the last defined place, holes passed by counted |
| ArrayHoles.SafeRemoveArrayHoles | src/array.js:770-825 | defined elements first, each as often as before, then undefined ones, then as many holes as there were; returns the number of defined elements |
| RichardsPackets.AddTo | benchmarks/richards.js:527-535 | the packet is at the end of the list, every other packet of the list where it was |
| RichardsTasks.OnlyHere | benchmarks/richards.js:515-520 | a packet of one task is once there and nowhere else |
| RichardsTasks.InOnePlace | benchmarks/richards.js:465-491 | while none is on its way every packet is once in exactly one list of exactly one task |
| RichardsMoves.QueuePopped | benchmarks/richards.js:326-328 | taking the first packet of a queue leaves all other packets where they are |
| RichardsMoves.QueueJoined | benchmarks/richards.js:345-354 | putting a packet behind a queue does so, all lists staying linked |
| RichardsMoves.HandlerTakes | benchmarks/richards.js:466-472 | a handler keeps work packets and device packets apart and loses none |
| RichardsMoves.HandlerGives | benchmarks/richards.js:477-487 | the first packet of a hand leaves it, the rest stays linked |
| RichardsScheduler.QueuedQuiet | benchmarks/richards.js:345-354 | the next task is the woken one exactly when it is more urgent, and the tasks above the next one wait |
| RichardsScheduler.Scheduler.CheckPriorityAdd | benchmarks/richards.js:345-354 | the packet joins the queue, the runnable bit is set, and the next task is right |
| RichardsScheduler.Scheduler.Queue | benchmarks/richards.js:241-248 | the packet goes to the task it names and names its sender; an unknown name returns null and changes nothing |
| RichardsScheduler.Scheduler.Release | benchmarks/richards.js:204-213 | the task is not held, and next is the more urgent of the two; an unknown name returns null |
| RichardsScheduler.Scheduler.HoldCurrent | benchmarks/richards.js:220-224 | the current task is held and counted, and the one after it is next |
| RichardsScheduler.Scheduler.SuspendCurrent | benchmarks/richards.js:230-233 | the current task is suspended and comes next again |
| RichardsRuns.IdleRun | benchmarks/richards.js:374-384 | counts down; holds itself at zero, else steps the shift register and releases the device it picks |
| RichardsRuns.DeviceRun | benchmarks/richards.js:401-411 | a packet is put into an empty slot, never over another one, and the device held; without a packet the slot's packet is sent on, or the device suspends |
| RichardsRuns.WorkerRun | benchmarks/richards.js:430-448 | the packet gets the next four letters and goes to the other handler |
| RichardsRuns.LettersGoRound | benchmarks/richards.js:441-444 | the letters go round from 1 to 26 |
| RichardsRuns.HandlerServe | benchmarks/richards.js:473-490 | passes one datum on with a device packet, or returns a finished work packet, or suspends, as its hand says |
| RichardsRuns.HandlerRun | benchmarks/richards.js:465-491 | the same behind taking the packet in hand |
| RichardsEnding.IdleEnds | benchmarks/richards.js:374-384 | a run of the idle task uses up a count, and releases one device or holds the idle task |
| RichardsEnding.DeviceTakes | benchmarks/richards.js:407-410 | a device that takes a packet is held until it is released again |
| RichardsEnding.DeviceSends | benchmarks/richards.js:404-406 | a released device returns its packet to a handler: fewer device packets are on their way back, with no device held or released |
| RichardsEnding.HandlerPasses | benchmarks/richards.js:476-483 | a handler that passes a datum on has one device packet less |
| RichardsEnding.WorkerSends | benchmarks/richards.js:434-448 | a packet that the worker sends is at a handler with all its data still to be passed on: fewer work packets are at work |
| RichardsEnding.HandlerReturns | benchmarks/richards.js:484-488 | the same for a finished work packet that a handler returns |
| RichardsEnding.HandlerWaits | benchmarks/richards.js:490 | a handler with nothing to do leaves a queue shorter or is newly suspended |
| RichardsSchedule.TakePacket | benchmarks/richards.js:324-335 | a suspended task with packets gets the first one and is running, or runnable exactly if there are more |
| RichardsSchedule.Run | benchmarks/richards.js:324-337 | every task, whatever it does, keeps all tables sound, no packet lost or doubled, and every task above the next one waiting; with tasks wired like the benchmark's it keeps the wiring and lowers the first of four numbers that changes |
| RichardsSchedule.Step | benchmarks/richards.js:190-197 | a task that is run is the ready task with the highest priority |
| RichardsSchedule.Schedule | benchmarks/richards.js:188-199 | with tasks wired like the benchmark's the loop ends, all of that holds at every turn, and afterwards no task is ready |
| RichardsSetup.AddTask | benchmarks/richards.js:179-183 | a task with packets of its own joins, all others as before |
| RichardsSetup.AddIdleTask | benchmarks/richards.js:167-170 | the idle task is added running |
| RichardsSetup.RunningConsistent | benchmarks/richards.js:297-299 | marking a task as running keeps the runnable bit right if and only if it has no packets |
| RichardsSetup.MadeWired | benchmarks/richards.js:48-70 | the tasks and packets of the benchmark are wired that way |
| RichardsSetup.RunRichards | benchmarks/richards.js:47-70 | the benchmark's run comes to an end, with every packet in one place and no task ready |
| RelocFormat.RecordSize | src/assembler.cc:81-116 | exactly how many bytes a record takes, for each mode, data and pc delta; never more than 8 + kIntptrSize |
| RelocFormat.EncodedAreBytes | src/assembler.cc:207-256 | everything that is written for good units is between 0 and 255 |
| RelocWriter.RelocInfoWriter.WriteVariableLengthPCJump | src/assembler.cc:150-167 | the jump is written in chunks of seven bits, the last one tagged, and the low six bits are returned |
| RelocWriter.RelocInfoWriter.WriteExtraTaggedData | src/assembler.cc:197-204 | the eight bytes of the data delta, lowest first, behind its tag |
| RelocWriter.RelocInfoWriter.Write | src/assembler.cc:207-256 | the record's units are written, for every mode, and the last pc and data are remembered |
| RelocRoundTrip.WriteAll | src/assembler.cc:207-256 | a sequence of records is written one after the other, in bytes |
| RelocReader.RelocIterator.AdvanceReadVariableLengthPCJump | src/assembler.cc:293-306 | reading chunks gives back the jump that was written |
| RelocReader.RelocIterator.AdvanceReadData | src/assembler.cc:284-290 | reading bytes gives back the word that was written |
| RelocReader.ValueOfBytes | src/assembler.cc:284-290 | why: the bytes of a number make it up modulo their weight |
| RelocReader.RelocIterator.ReadUnit | src/assembler.cc:340-381 | one unit is read, pc, data and mode as the mask says |
| RelocReader.RelocIterator.Next | src/assembler.cc:333-383 | on to the next record of a wanted mode, or done |
| RelocReader.Iterate | src/assembler.cc:386-396 | the records that an iteration goes through |
| RelocRoundTrip.RecordRead | src/assembler.cc:333-383 | the units of a record move the pc by its delta and stop the reader exactly if the mode is wanted |
| RelocRoundTrip.ReadsFiltered | src/assembler.cc:207-383 | with data in step, reading gives exactly the records of wanted modes, pcs, modes and data |
| RelocRoundTrip.FaithfulExactly | src/assembler.cc:351-375 | reading is exact for every sequence of records if and only if the mask has a position mode or does not have comments |
| RelocRoundTrip.CommentDrifts | src/assembler.cc:351-375 | with comments wanted and positions not, a comment behind a position comes out wrong |
| RelocRoundTrip.PcExactly | src/assembler.cc:214-215 | a pc delta comes back exactly if and only if it is below 2^32 |
| RelocRoundTrip.RoundTrip | src/assembler.cc:207-396 | written to a buffer from its end and read back, filtered |
| AllocatorRings.Chunk.LinkTo | src/allocation.cc:183-188 | the four writes, whatever the two neighbours are |
| AllocatorRings.Chunk.Unlink | src/allocation.cc:191-194 | the two writes |
| AllocatorRings.Inserted | src/allocation.cc:183-188 | a chunk linked to a head is right behind it in the ring |
| AllocatorRings.Unlinked | src/allocation.cc:191-194 | an unlinked chunk is out of the ring, the others in their order |
| AllocatorArena.TilesTotal | src/allocation.cc:152-155 | headers and sizes add up to the whole arena |
| AllocatorArena.BlocksApart | src/allocation.cc:149-155 | the bytes of different chunks, headers included, do not overlap and are inside the arena |
| AllocatorArena.TilesSplit | src/allocation.cc:149-155 | a split chunk and the rest with its header fill what the chunk filled |
| Allocator.SplitBroken | src/allocation.cc:149-155 | a chunk without room for the request and a header is divided by no size of the rest |
| Allocator.Storage.Init | src/allocation.cc:112-121 | one free chunk, which is the whole arena if and only if a header fits into it |
| Allocator.Storage.FindExact | src/allocation.cc:133-141 | the first free chunk of exactly the size |
| Allocator.Storage.FindFit | src/allocation.cc:143-146 | the first free chunk that the size and a header fit into |
| Allocator.Storage.New | src/allocation.cc:124-163 | for every request below the machine word: null exactly if no chunk passes; else the first exact fit, or the first that passes the test split, goes in use, and is large enough exactly if rounding up does not wrap around; the arena stays divided if and only if nothing was split or the request is measurable |
| Allocator.Storage.Delete | src/allocation.cc:167-180 | the chunk goes to the front of the free list, whichever ring it was in; nothing else changes |
| Allocator.Storage.Split | src/allocation.cc:149-156 | the rest of a chunk becomes the first free chunk, and the arena stays divided if and only if the chunk has room for the request and a header |

## Left out

- BigIntegers.BigInteger.RemTo: takes the modulus away as often as it fits instead of estimating quotient digits; the
  estimate of `bnpDivRemTo` uses floating point.
- Reducers.Reducer.Reduce: does not model Barrett's estimate of the quotient, which rests on `bnpDivRemTo`; the Barrett
  reducer reduces by the exact remainder.
- Reducers.Reducer.Convert: takes the Barrett reducer's result as the exact remainder, as said above.
- Reducers.Reducer.MulTo: likewise.
- Reducers.Reducer.SqrTo: likewise.
- ModularPower.ModPow: does not model negative exponents and moduli that are not positive.
- IntegerPower.Exp: does not model exponents that are not integers.
- IntegerPower.ModPowInt: does not model moduli that are not positive, nor exponents that are not integers.
- Parsing.FromText: does not model digits at or above the radix, for which the code mixes up bits.
- Padding.Pad: takes each random byte as any byte other than zero; the generator and the end of its retries are not modelled.
- BoyerBenchmark.Nboyer: takes the equations, the term and the bindings, which are constants of the program, as parameters.
- BoyerRewrite.RewriteKeepsMeaning: speaks of rewriting that returns; the bound on the recursion stands for that, since
  rewriting need not end.
- EarleyTrees.Parse.ListLength: for a span that ends before it begins, and begins behind the last token, does not compare
  the two functions: there one of them fails and the other does not.
- EarleyListing.SymbolTrees: does not say in which order the trees are listed; a name is a symbol's number instead of the
  symbol.
- EarleyAnswers.ResultTrees: speaks of spans i up to j; the tree functions read the lists that the sets stand for rather
  than their slots.
- RichardsSchedule.Schedule: asks for tasks that are wired like the benchmark's; otherwise packets may circulate for ever, and
  `RichardsSchedule.Step` says what holds at each turn. Task control blocks are records in a sequence, where the link of one
  is the index below it.
- RichardsRuns.IdleRun: the shift register has 32 bits without a sign; it never leaves its 16 low ones.
- RichardsSetup.RunRichards: does not say what the two counters are at the end.
- RichardsSetup.AddTask: asks for an identity that no other task has; a second task of the same identity would hide the first.
- RichardsSetup.AddIdleTask: does not model an idle task with packets, which would lose them.
- RelocRoundTrip.RoundTrip: takes the mask as a set of modes, a pc as an integer and `intptr_t` as 64 bits wide; the code
  object around the buffer and the pointers in it are not modelled.
- Allocator.Storage.New: says nothing about the time before the storage is set up, when requests go to malloc. A header is
  an object with its address.
- ArraySort.QuickSort: takes the comparison as a function without effects; pivots are any choice. The default comparison is
  not modelled.
- ArraySplice.Splice: takes the choice between the two strategies as a parameter, and what the runtime lists as keys as any
  list that covers the elements. Inherited elements are not modelled here or anywhere else in the array library.
- ArrayHoles.SafeRemoveArrayHoles: does not model accessors, nor the runtime function that is tried first.
- SplayTrees.SplayTree.Remove: returns null where the code throws. Keys are integers.
- RSA keys, encryption and decryption, prime generation, greatest common divisors, modular inverses, bitwise operations and
  shifts by bits of big integers, and printing in other radixes, which uses floating point.
- The lexer and the printing of the Scheme programs, and the Scheme runtime under them.
- Join, push, pop, concat, shift, unshift, search and the callback functions of the array library.
- `benchmarks/deltablue.js`, `benchmarks/raytrace.js`, `benchmarks/regexp.js` and the benchmark harness.
- Everything in the repository that needs the heap, the compiler or the generated code.
