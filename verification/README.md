# Proofs about the QuickJS support libraries

This Dafny project models the algorithmic core of the support libraries that are vendored under
`quickJS/src/main/cpp/quickjs`, and proves what they promise:

- **Regular expressions** (`libregexp.c`): the one-pass compiler that emits byte code, inserts code in front of
  code, copies atoms and patches jumps, and the backtracking matcher that runs the byte code. The theorem chain
  goes from the bytes (`RegexpEmit`, `RegexpImage`, `RegexpEncoding`, `RegexpConstants`) through the instructions
  (`RegexpCompiler`, `RegexpStack`) and a transition system (`RegexpMachine`, `RegexpCorrectness`, `RegexpProgram`) to
  the matcher on registers and buffers (`RegexpExec`). The meaning of patterns is in `RegexpSyntax`. `RegexpText` and
  `RegexpGroups` say what its parts accept of the characters of a text and what captures hold, `RegexpEcma`,
  `RegexpCaptures` and `RegexpRounds` compare it with ECMA-262, and `RegexpClasses` joins the classes with the
  character sets.
- **Floating point text** (`dtoa.c`): limb arithmetic with wrap-around (`Limbs`, `Bignum`), exact scaling by powers
  with a sticky bit (`Scaling`), rounding to a double (`RealRounding`, `DoubleRounding`), the search for the
  shortest digits (`ReadBack`, `FreeFormat`, `FreeFormatLimit`, `MaxDigits`), digit text (`DigitText`), parsing
  (`Atod`, `ExponentTables`) and the round trip (`RoundTrip`).
- **Unicode** (`libunicode.c`): interval sets (`CharSets`, `CharRanges`), case folding of sets (`CaseRanges`), compressed
  tables with an index (`RunTable`) and the generator that writes them (`RunEncoding`, `unicode_gen.c`), and the
  normalization forms (`Normalization`, `NfcComplete`).
- **Sorting** (`cutils.c`): the introsort with its fixed stack (`Rqsort`).
- **Worker message pipes** (`quickjs-libc.c`, `list.h`): all interleavings of senders and receivers as a state
  machine (`WorkerPipe`, `WorkerPipeInvariant`, `WorkerPipeRuns`, `WorkerPipeDelivery`), and the critical sections
  over the intrusive list (`MessageQueue`).
- **Pi** (`examples/pi_bigint.js`): logarithms, integer square root and binary splitting, down to the digits of pi
  (`PiBigint`).

Code that changes things in place is a method on arrays or on a class; what it computes is a function or a
predicate of the old state, and the lemmas are about those. Doubles are pairs (m, e) that stand for m * 2^(e-53),
and exact values are real numbers. Run `dafny verify dfyconfig.toml` in this directory.

Where the code and its comments or the standards disagree, the model follows the code:

- Captures inside a quantified group are cleared once, before the loop and only if its minimum is 0, not in every
  round (`RegexpEcma.CaptureKept`). Without back references the matches are still at the same positions
  (`RegexpEcma.SameExtents`) and no capture is lost or different, some are only kept too long
  (`RegexpCaptures.OnlyMoreCaptures`). `RegexpCaptures.NothingStale` has the patterns on which nothing differs, and
  `RegexpRounds.MandatoryRounds` exactly when a loop of mandatory rounds agrees.
- The digit search stops at the first precision that fails. For 2^-44 in radix ten a shorter number that reads back
  is missed (`FreeFormatLimit.SearchMissesShorter`). `FreeFormat.FreeFormatDigits` has the exact condition: the
  double is a power of two, and at some number of digits the rounded digits lie below all that reads back while the
  next ones read back.
- `compose_pair` accepts U+11A7 behind an LV syllable and drops it. `Normalization.NfcEquivalent` gives the exact
  condition under which nothing is lost, and `Normalization.LostExample` a text that fails it.
- `ceil_log2(1)` is 1, although its comment promises the logarithm rounded up for every a > 0.
- `js_waker_signal` means to retry an interrupted write, but its condition `errno != EAGAIN || errno != EINTR` is
  always true, so it gives up after any failure; `WorkerPipeRuns.WakeByte` has the exact effect and
  `WorkerPipeRuns.LostWakeup` a run in which a message is left unseen; `WorkerPipeRuns.NeverTaken` says that this is
  for ever.

## Model

| member | source | states |
|---|---|---|
| `RegexpInput.PrevNext` | quickJS/src/main/cpp/quickjs/libregexp.c:2558-2639 | Reading backwards undoes reading forwards if and only if the position does not cut a surrogate pair |
| `RegexpInput.StartPos` | quickJS/src/main/cpp/quickjs/libregexp.c:3192-3198 | The adjusted start is never inside a character, and is the requested index whenever that is a character boundary |
| `RegexpText.BackRefMeans` | quickJS/src/main/cpp/quickjs/libregexp.c:2975-3021 | A back reference accepts, in either direction, exactly the stretches whose characters are those of its group, up to folding under the ignore-case flag; a group that is not set accepts exactly the empty text; characters are decoded independently of the matcher |
| `RegexpText.BackRefUnits` | quickJS/src/main/cpp/quickjs/libregexp.c:2988-3020 | Without the ignore-case flag a back reference accepts exactly the stretches with the same code units as its group |
| `RegexpText.AssertionMeans` | quickJS/src/main/cpp/quickjs/libregexp.c:2869-2974 | Line and word assertions hold exactly as the last character before and the first one behind the position say, the word characters and line terminators being listed |
| `RegexpText.AtomMeans` | quickJS/src/main/cpp/quickjs/libregexp.c:2813-2900 | A character, dot or class steps over exactly one character that it is for, a surrogate pair being one character, in either direction |
| `RegexpText.QuantifiedMeans` | quickJS/src/main/cpp/quickjs/libregexp.c:2118-2309 | A quantified character, dot or class steps over exactly the runs of characters that it is for with a length between the minimum and the maximum, the longest first if greedy and the shortest first otherwise |
| `RegexpGroups.GroupCaptures` | quickJS/src/main/cpp/quickjs/libregexp.c:2901-2920 | A group's captures are the ends of the stretch it matched, the smaller first in either direction, and captures of groups outside it stay |
| `RegexpGroups.SkippedUnset` | quickJS/src/main/cpp/quickjs/libregexp.c:2221-2230 | A quantifier with minimum 0 that takes no round leaves every group inside it unset and the others as they were |
| `RegexpTests.RangeCorrect` | quickJS/src/main/cpp/quickjs/libregexp.c:1165-1199 | The emitted 16-bit or 32-bit table (0xffff read as infinity) accepts exactly the characters of a canonical set with fewer than 65535 intervals |
| `RegexpExec.RangeSearch` | quickJS/src/main/cpp/quickjs/libregexp.c:3022-3100 | The first-interval, last-interval and halving search answers membership in the table; the index never goes below 0 |
| `RegexpTests.ResultsMove` | quickJS/src/main/cpp/quickjs/libregexp.c:1498-1558 | Whenever the zero-advance check is left out, every way in which the atom can match has moved in the match direction |
| `RegexpSimpleQuant.SimpleResults` | quickJS/src/main/cpp/quickjs/libregexp.c:1562-1607 | Code accepted as a simple quantifier has no captures and at most one result, the one its straight run computes |
| `RegexpSimpleQuant.StraightBack` | quickJS/src/main/cpp/quickjs/libregexp.c:2625-2639 | Going back as many characters as one round has tests returns to where the round started |
| `RegexpSimpleQuant.CountAll` | quickJS/src/main/cpp/quickjs/libregexp.c:3107-3148 | The counting loop fails exactly when fewer than quant_min rounds are possible, and otherwise stops at the position the pattern prefers |
| `RegexpCorrectness.SimSimple` | quickJS/src/main/cpp/quickjs/libregexp.c:2182-2206 | simple_greedy_quant offers the positions of the general greedy loop: all counts from the largest down to quant_min |
| `RegexpCorrectness.SimRound` | quickJS/src/main/cpp/quickjs/libregexp.c:2211-2305 | One optional round offers exactly the results that moved, with push_char_pos and check_advance or without them |
| `RegexpCorrectness.SimMore` | quickJS/src/main/cpp/quickjs/libregexp.c:2281-2305 | The split and goto, or counter and loop, around a copied atom offers the optional rounds in order of preference, greedy and lazy |
| `RegexpCorrectness.SimMandatory` | quickJS/src/main/cpp/quickjs/libregexp.c:2264-2305 | push_i32, the atom, loop and drop run the mandatory rounds before the optional ones |
| `RegexpCorrectness.SimZero` | quickJS/src/main/cpp/quickjs/libregexp.c:2221-2263 | The code for quant_min = 0 with its capture reset and its one or many rounds offers the results of the quantifier |
| `RegexpCorrectness.SimLook` | quickJS/src/main/cpp/quickjs/libregexp.c:2742-2811 | A lookaround offers the first result of its body, at its own position and without the choice points of the body, or nothing; a negative one the other way round, with its captures undone |
| `RegexpProgram.ExecCorrect` | quickJS/src/main/cpp/quickjs/libregexp.c:2725-3154 | Compiler correctness: for every pattern tree, input and start the machine reaches Done, and its answer is the first result of the backtracking semantics, or no match; so every match ends |
| `RegexpProgram.NeverStuck` | quickJS/src/main/cpp/quickjs/libregexp.c:2725-3154 | No step of any run fetches outside the program, pops an empty stack, uses a capture that does not exist or reads outside the text |
| `RegexpStack.CodeFlow` | quickJS/src/main/cpp/quickjs/libregexp.c:2390-2434 | The code of every pattern leaves the stack as it found it, and every jump in it goes to an instruction for which the linear scan found the same depth |
| `RegexpStack.StackSound` | quickJS/src/main/cpp/quickjs/libregexp.c:2390-2434 | At every reachable configuration, after jumps, backtracking and lookaround exits, the stack depth is that of the scan for its pc and at most compute_stack_size |
| `RegexpEncoding.DecodeEncode` | quickJS/src/main/cpp/quickjs/libregexp-opcode.h:25-68 | Decoding the bytes of any instruction whose operands fit their fields gives the instruction back |
| `RegexpConstants.OpcodesTo19` | quickJS/src/main/cpp/quickjs/libregexp-opcode.h:28-46 | Numbers and sizes of the first nineteen instructions, in the order listed |
| `RegexpConstants.OpcodesFrom20` | quickJS/src/main/cpp/quickjs/libregexp-opcode.h:47-65 | Numbers and sizes of the other nineteen instructions, tables included |
| `RegexpConstants.FlagsRead` | quickJS/src/main/cpp/quickjs/libregexp.h:30-38 | Whatever flags are set, the tests find the sticky flag and either of the Unicode flags exactly when they are |
| `RegexpEmit.ReNeedCheckAdvance` | quickJS/src/main/cpp/quickjs/libregexp.c:1498-1558 | The scan over bytes computes the answer specified on instructions |
| `RegexpEmit.ReIsSimpleQuantifier` | quickJS/src/main/cpp/quickjs/libregexp.c:1562-1607 | The scan over bytes returns the number of characters of a simple atom, and -1 exactly for other code |
| `RegexpEmit.ComputeStackSize` | quickJS/src/main/cpp/quickjs/libregexp.c:2390-2434 | The scan over bytes returns the largest depth, and -1 exactly when the depth gets too large |
| `RegexpEmit.REParseState.PutNarrowPairs` | quickJS/src/main/cpp/quickjs/libregexp.c:1176-1188 | The loop over the points appends the encoded 16-bit pairs, with 0xffff for an upper bound at infinity |
| `RegexpEmit.REParseState.PutWidePairs` | quickJS/src/main/cpp/quickjs/libregexp.c:1189-1197 | The loop over the points appends the encoded 32-bit pairs |
| `RegexpEmit.REParseState.EmitRange` | quickJS/src/main/cpp/quickjs/libregexp.c:1165-1199 | The two loops over the points, chosen by the highest bound, append exactly the encoded table instruction; 65535 ranges or more are refused |
| `RegexpEmit.REParseState.EmitQuantifier` | quickJS/src/main/cpp/quickjs/libregexp.c:2118-2309 | After insertions in front of the atom, copies of it and patched jumps, the buffer holds the old bytes and the code of the quantifier |
| `RegexpEmit.REParseState.EmitAlternative` | quickJS/src/main/cpp/quickjs/libregexp.c:2321-2353 | Terms in a row; in a lookbehind the code of the later term is moved in front of the earlier one |
| `RegexpEmit.REParseState.EmitDisjunction` | quickJS/src/main/cpp/quickjs/libregexp.c:2355-2387 | split and goto around two alternatives that are already emitted or emitted later |
| `RegexpEmit.REParseState.EmitLook` | quickJS/src/main/cpp/quickjs/libregexp.c:1910-1928 | A lookaround whose length is patched after its body |
| `RegexpEmit.REParseState.EmitRegex` | quickJS/src/main/cpp/quickjs/libregexp.c:1792-2387 | The one-pass compiler appends exactly the encoded code of the pattern tree, counts its groups, and is refused exactly for too many captures or ranges |
| `RegexpImage.LreCompile` | quickJS/src/main/cpp/quickjs/libregexp.c:2451-2543 | The byte code is the header with capture count, stack size and length, and the encoded program; it fails exactly for too many captures or ranges or too deep a stack |
| `RegexpImage.CodeEncodable` | quickJS/src/main/cpp/quickjs/libregexp.c:583-618 | Every operand and jump of compiled code fits its field |
| `RegexpImage.ImageLoaded` | quickJS/src/main/cpp/quickjs/libregexp.c:2451-2543 | Disassembling the byte code gives the program that the correctness theorem is about |
| `RegexpExec.REExecContext.PushState` | quickJS/src/main/cpp/quickjs/libregexp.c:2676-2712 | A choice point holds copies of the stack and capture buffers |
| `RegexpExec.REExecContext.ExecInstr` | quickJS/src/main/cpp/quickjs/libregexp.c:2832-3154 | One instruction on registers and buffers is one step of the machine |
| `RegexpExec.REExecContext.PopState` | quickJS/src/main/cpp/quickjs/libregexp.c:2742-2811 | Handling the last choice point restores the buffers and goes on where the machine goes on |
| `RegexpExec.REExecContext.LreExecBacktrack` | quickJS/src/main/cpp/quickjs/libregexp.c:2725-3154 | The matcher loop ends with the machine's answer and its captures, within a stack buffer of the computed size |
| `RegexpExec.LreExec` | quickJS/src/main/cpp/quickjs/libregexp.c:3159-3204 | On the byte code of any compiled pattern, lre_exec reads buffer type and Unicode flag, and returns whether there is a match, with the captures of the first one |
| `RegexpEcma.SameExtents` | quickJS/src/main/cpp/quickjs/libregexp.c:2211-2230 | Without back references the matches, in order, are at the positions that section 22.2.2 of ECMA-262 gives |
| `RegexpCaptures.OnlyMoreCaptures` | quickJS/src/main/cpp/quickjs/libregexp.c:2211-2230 | Without back references the k-th match of the program has every capture of the standard's, with the same value; what it has besides belongs to groups that the pattern can leave stale |
| `RegexpCaptures.NothingStale` | quickJS/src/main/cpp/quickjs/libregexp.c:2211-2230 | For a pattern that leaves no group stale and refers back to none, all results are those of the standard: groups that every round writes or resets may stand inside quantifiers |
| `RegexpRounds.ResultsOver` | quickJS/src/main/cpp/quickjs/libregexp.c:2211-2230 | Without back references and clearing, what a pattern does does not depend on the captures it starts with, and it keeps them below its own |
| `RegexpRounds.MandatoryRounds` | quickJS/src/main/cpp/quickjs/libregexp.c:2264-2281 | Of any number of mandatory rounds the program's first match has the captures of all laid over each other, the standard's those of the last; they are equal if and only if the last round sets every capture that a round has set |
| `RegexpRounds.KeptWhenSkipped` | quickJS/src/main/cpp/quickjs/libregexp.c:2221-2230 | A capture that some mandatory round sets and the last one does not stays in the program's match and is not in the standard's |
| `RegexpEcma.CaptureKept` | quickJS/src/main/cpp/quickjs/libregexp.c:2221-2230 | On "ab" the pattern ((a)|b){2} keeps a capture that the standard clears before the second round |
| `Limbs.InverseIs` | quickJS/src/main/cpp/quickjs/dtoa.c:107-112 | The inverse is floor((2^64 - 1) / d) - 2^32 |
| `Limbs.EstimateClose` | quickJS/src/main/cpp/quickjs/dtoa.c:115-135 | The first quotient estimate is exact or one too small |
| `Limbs.UDivExact` | quickJS/src/main/cpp/quickjs/dtoa.c:107-135 | udiv1norm returns the exact quotient and remainder for every normalized divisor and every a1 < d, under 32-bit and 64-bit wrap-around |
| `Bignum.Mpb.Renorm` | quickJS/src/main/cpp/quickjs/dtoa.c:214-218 | Leading zero limbs go, the value stays |
| `Bignum.Mpb.SetU64` | quickJS/src/main/cpp/quickjs/dtoa.c:419-432 | The value is m |
| `Bignum.Mpb.GetU64` | quickJS/src/main/cpp/quickjs/dtoa.c:434-445 | The value of a table of at most two limbs |
| `Bignum.Mpb.GetBit` | quickJS/src/main/cpp/quickjs/dtoa.c:299-310 | Bit k of the number, 0 beyond the table |
| `Bignum.Mpb.MpAddUi` | quickJS/src/main/cpp/quickjs/dtoa.c:74-88 | Value plus carry times the base power is the sum |
| `Bignum.Mpb.MpMul1` | quickJS/src/main/cpp/quickjs/dtoa.c:91-104 | Value plus carry times the base power is the product plus the addend |
| `Bignum.Mpb.MpDiv1` | quickJS/src/main/cpp/quickjs/dtoa.c:137-148 | Quotient in place and remainder returned |
| `Bignum.Mpb.MpShl` | quickJS/src/main/cpp/quickjs/dtoa.c:169-184 | Value and the bits shifted out are the shifted number |
| `Bignum.Mpb.MpShr` | quickJS/src/main/cpp/quickjs/dtoa.c:152-167 | Value and the bits shifted out are the two parts of the number |
| `Bignum.Mpb.MpDiv1Norm` | quickJS/src/main/cpp/quickjs/dtoa.c:186-199 | In place, an n-limb number is divided exactly by the unshifted divisor and the exact remainder is returned |
| `Bignum.Mpb.FloorLog2` | quickJS/src/main/cpp/quickjs/dtoa.c:447-456 | The position of the top bit, or -1 for zero |
| `Bignum.Mpb.RoundsUp` | quickJS/src/main/cpp/quickjs/dtoa.c:337-373 | The half bit, the bits below it and the last kept bit decide as rounding to nearest even, to nearest away, or to zero |
| `Bignum.Mpb.ShrRound` | quickJS/src/main/cpp/quickjs/dtoa.c:312-398 | The value becomes round(value / 2^shift) in each mode, or value * 2^-shift for a negative shift |
| `RealRounding.RoundRational` | quickJS/src/main/cpp/quickjs/dtoa.c:294-298 | Rounding a fraction is decided by comparing twice its remainder with the divisor |
| `RealRounding.RoundClosest` | quickJS/src/main/cpp/quickjs/dtoa.c:294-298 | In the nearest modes no integer is closer than the rounded one |
| `RealRounding.RoundAway` | quickJS/src/main/cpp/quickjs/dtoa.c:294-298 | In the mode with ties away from zero the result is n exactly for n - 1/2 <= x < n + 1/2 |
| `RealRounding.RoundDown` | quickJS/src/main/cpp/quickjs/dtoa.c:294-298 | Truncation gives n exactly for n <= x < n + 1 |
| `Scaling.Pow5Table` | quickJS/src/main/cpp/quickjs/dtoa.c:220-240 | The stored powers of five are powers of five |
| `Scaling.Pow5InvTable` | quickJS/src/main/cpp/quickjs/dtoa.c:220-240 | The stored inverses are the inverses of the normalized powers of five |
| `Scaling.PowUi` | quickJS/src/main/cpp/quickjs/dtoa.c:241-269 | a^b, whenever it fits 64 bits |
| `Scaling.PowUiInv` | quickJS/src/main/cpp/quickjs/dtoa.c:271-292 | The power shifted to a normalized limb, its shift and its inverse |
| `Scaling.StickyRound` | quickJS/src/main/cpp/quickjs/dtoa.c:898-967 | With at least two extra bits, rounding the quotient with the OR-ed sticky bit is rounding the exact quotient: no double rounding |
| `Scaling.DivPow` | quickJS/src/main/cpp/quickjs/dtoa.c:935-953 | Chained truncating divisions by limbs are one division by the product, and the low bit becomes a true sticky bit |
| `Scaling.MulPower` | quickJS/src/main/cpp/quickjs/dtoa.c:900-916 | The table is multiplied by radix1^f |
| `Scaling.MulPow` | quickJS/src/main/cpp/quickjs/dtoa.c:891-956 | The table and e_offset hold a * radix^f exactly, or its truncation with a sticky bit, with the promised number of extra bits |
| `Scaling.MulPowRound` | quickJS/src/main/cpp/quickjs/dtoa.c:958-967 | Exactly round(m * 2^e * radix^f), in each of the three modes, for f and e of either sign |
| `DoubleRounding.NearestIsClosest` | quickJS/src/main/cpp/quickjs/dtoa.c:969-1001 | The specification of rounding gives a double, subnormals included, and no double is closer; ties go to the even one |
| `DoubleRounding.NearestMono` | quickJS/src/main/cpp/quickjs/dtoa.c:969-1001 | Rounding to a double keeps the order of numbers |
| `DoubleRounding.RoundPositive` | quickJS/src/main/cpp/quickjs/dtoa.c:979-997 | The rounded mantissa and exponent, through subnormal precision and mantissa carry-out |
| `DoubleRounding.RoundToD` | quickJS/src/main/cpp/quickjs/dtoa.c:969-1001 | The result is the double nearest to the number, also when the table only holds its truncation with a sticky bit |
| `DoubleRounding.MulPowRoundToD` | quickJS/src/main/cpp/quickjs/dtoa.c:1003-1013 | The double nearest to a * radix^f, for f of either sign |
| `ReadBack.ReadsOnly` | quickJS/src/main/cpp/quickjs/dtoa.c:1213-1232 | Where the neighbours are equally far, what reads back rounds to the double in whole spacings |
| `ReadBack.CloserReads` | quickJS/src/main/cpp/quickjs/dtoa.c:1213-1232 | There, whatever is no farther from the double than a number that reads back reads back too |
| `ReadBack.ReadsUneven` | quickJS/src/main/cpp/quickjs/dtoa.c:1213-1232 | At a power of two exactly the numbers from a quarter of the spacing below to half of it above read back |
| `FreeFormat.ClosestAt` | quickJS/src/main/cpp/quickjs/dtoa.c:1180-1207 | Rounding at P digits with the exponent of the search gives the closest number with at most P digits, over all exponents |
| `FreeFormat.SecondTry` | quickJS/src/main/cpp/quickjs/dtoa.c:1199-1207 | When the digits overflow, one more round with the next exponent succeeds |
| `FreeFormat.MaxDigitsRead` | quickJS/src/main/cpp/quickjs/dtoa.c:1213-1215 | The unchecked first try reads back, because B^(P_max - 1) is at least 2^53 |
| `MaxDigits.MaxDigitsTable` | quickJS/src/main/cpp/quickjs/dtoa.c:722-725 | Every entry of the table satisfies that bound, and its digits fit 64 bits |
| `FreeFormat.TryPrecision` | quickJS/src/main/cpp/quickjs/dtoa.c:1195-1207 | The inner loop: the digits at one precision and their exponent |
| `FreeFormat.StripZeros` | quickJS/src/main/cpp/quickjs/dtoa.c:1208-1212 | The same number without trailing zero digits |
| `FreeFormat.ReadsAs` | quickJS/src/main/cpp/quickjs/dtoa.c:1216-1222 | The test accepts exactly the digits that read back to (m, e) |
| `FreeFormat.AllFail` | quickJS/src/main/cpp/quickjs/dtoa.c:1222-1232 | When the digits tried at a precision fail and the interval is even, all digits of that precision fail |
| `FreeFormat.FailsUnlessMissed` | quickJS/src/main/cpp/quickjs/dtoa.c:1213-1233 | At a power of two a failed precision hides a number that reads back if and only if the digits tried lie below the interval that reads back and the next ones lie in it |
| `FreeFormat.FoundNotMissed` | quickJS/src/main/cpp/quickjs/dtoa.c:1194-1233 | What a try at one precision finds is not missed at any smaller precision that holds it |
| `FreeFormat.FreeFormatDigits` | quickJS/src/main/cpp/quickjs/dtoa.c:1180-1236 | The digits found read back to (m, e); no number with as many digits is closer; and no number with fewer digits reads back if and only if no number of digits is missed, which the double and the radix decide before the search |
| `FreeFormatLimit.SearchMissesShorter` | quickJS/src/main/cpp/quickjs/dtoa.c:1194-1233 | For 2^-44 in radix ten the sixteen digits tried do not read back although other sixteen digits do: the search misses them |
| `DigitText.NumberOfDigits` | quickJS/src/main/cpp/quickjs/dtoa.c:847-889 | The number of the n digits of v is v modulo b^n, and v itself when it is small enough |
| `DigitText.DigitsOfNumber` | quickJS/src/main/cpp/quickjs/dtoa.c:1333-1351 | Only one string of n digits stands for a number |
| `DigitText.BaseIs` | quickJS/src/main/cpp/quickjs/dtoa.c:702-720 | The two tables belong together: radix_base is radix^digits_per_limb for each of the 35 radixes |
| `DigitText.MulBase` | quickJS/src/main/cpp/quickjs/dtoa.c:1332-1351 | The value becomes value * radix_base + a, where 0 stands for 2^32 |
| `DigitText.AccumulateDigits` | quickJS/src/main/cpp/quickjs/dtoa.c:1462-1496 | The value of the first max_digits digits, and whether any later digit is not zero |
| `DigitText.LimbToA` | quickJS/src/main/cpp/quickjs/dtoa.c:543-588 | The zero-padded digits of a limb, from the last one back |
| `DigitText.OutputDigits` | quickJS/src/main/cpp/quickjs/dtoa.c:847-880 | The last n digits of the number, zero-padded, for power-of-two and other radixes |
| `Atod.PackUnpack` | quickJS/src/main/cpp/quickjs/dtoa.c:1123-1166 | The bits built from the unpacked mantissa and exponent are the bits it was unpacked from |
| `Atod.KnownDoubles` | quickJS/src/main/cpp/quickjs/dtoa.c:1123-1166 | The bits of 1, of the least positive double and of the greatest finite one stand for 1, 2^-1074 and 2^1024 - 2^971 |
| `Atod.RoundNumber` | quickJS/src/main/cpp/quickjs/dtoa.c:1583-1607 | The bits are those of the double nearest to the number, through underflow, subnormals, carry-out and overflow |
| `Atod.ParseNumber` | quickJS/src/main/cpp/quickjs/dtoa.c:1422-1607 | Correct rounding of any digit string with any exponent in a radix that is not a power of two, counting at most max_digits digits |
| `Atod.DroppedHarmless` | quickJS/src/main/cpp/quickjs/dtoa.c:1462-1496 | Digits beyond max_digits do not change the result when the digits kept and the next number with as many digits are rounded alike |
| `Atod.ParseBinary` | quickJS/src/main/cpp/quickjs/dtoa.c:1507-1607 | In a power-of-two radix all digits count, the ones that were not kept through the sticky bit |
| `Atod.DtoaFree` | quickJS/src/main/cpp/quickjs/dtoa.c:1108-1236 | The digits printed for any finite nonzero double, with the properties of the search, the exact condition for the fewest digits included |
| `Atod.PrintParse` | quickJS/src/main/cpp/quickjs/dtoa.c:1180-1236 | Whatever bits are correctly rounded from the printed digits are the bits that were printed |
| `RoundTrip.DigitLimits` | quickJS/src/main/cpp/quickjs/dtoa.c:722-733 | In each of the 35 radixes the parser counts at least as many digits as the printer writes, and in a power of two enough for exact rounding |
| `RoundTrip.PrintAndParse` | quickJS/src/main/cpp/quickjs/dtoa.c:1108-1607 | Printing any positive finite double and parsing the digits gives the same bits, in each of the 35 radixes, with the tables of the program for digits and exponents |
| `ExponentTables.ExponentTable` | quickJS/src/main/cpp/quickjs/dtoa.c:735-755 | In each of the 35 radixes the entry of max_exponent is beyond the doubles, and that of min_exponent rounds to zero without leaving the range of the scaling |
| `Rqsort.HeapSort` | quickJS/src/main/cpp/quickjs/cutils.c:472-504 | The segment is sorted and rearranged only within itself |
| `Rqsort.Med3` | quickJS/src/main/cpp/quickjs/cutils.c:506-511 | One of the three positions, whose element lies between the other two |
| `Rqsort.ScanZones` | quickJS/src/main/cpp/quickjs/cutils.c:553-575 | When the scans meet, all elements are in one of the zones equal, smaller, greater, equal |
| `Rqsort.Partition` | quickJS/src/main/cpp/quickjs/cutils.c:544-609 | Scans and block swaps split the segment into smaller, equal and greater elements, both outer parts shorter than the whole |
| `Rqsort.InsertionSort` | quickJS/src/main/cpp/quickjs/cutils.c:625-629 | A small segment is sorted and rearranged only within itself |
| `Rqsort.SortSegment` | quickJS/src/main/cpp/quickjs/cutils.c:531-630 | One stacked segment is finished or split; what is pending stays on the stack, with depths that grow along it |
| `Rqsort.RqSort` | quickJS/src/main/cpp/quickjs/cutils.c:513-631 | For every total preorder the array ends up sorted with the same elements, and the 50-entry stack never overflows |
| `CharRanges.ContainsInSome` | quickJS/src/main/cpp/quickjs/libunicode.c:461-515 | For a canonical list, membership by counting points and by intervals agree |
| `CharRanges.CharRange.AddInterval` | quickJS/src/main/cpp/quickjs/libunicode.h:66-75 | The characters of the interval join those of the list |
| `CharRanges.CharRange.Compress` | quickJS/src/main/cpp/quickjs/libunicode.c:432-459 | The same characters, as a strictly increasing list of an even number of points |
| `CharRanges.CharRange.Op` | quickJS/src/main/cpp/quickjs/libunicode.c:461-515 | A canonical list whose membership is exactly the union, intersection, symmetric difference or difference |
| `CharRanges.CharRange.Op1` | quickJS/src/main/cpp/quickjs/libunicode.c:517-527 | The same, in place |
| `CharRanges.CharRange.UnionInterval` | quickJS/src/main/cpp/quickjs/libunicode.h:81-87 | Exactly the characters of the set and of the closed interval; at c2 = UINT32_MAX the end wraps to 0, and an interval from 0 adds nothing |
| `CharRanges.CharRange.Invert` | quickJS/src/main/cpp/quickjs/libunicode.c:529-541 | Exactly the complement below UINT32_MAX |
| `CaseRanges.SortAndRemoveOverlap` | quickJS/src/main/cpp/quickjs/libunicode.c:615-656 | The same characters, as a canonical list, from intervals in any order |
| `CaseRanges.LreCanonicalize` | quickJS/src/main/cpp/quickjs/libunicode.c:227-261 | The binary search finds the run of the character, and so its folding |
| `CaseRanges.FoldRanges` | quickJS/src/main/cpp/quickjs/libunicode.c:683-721 | The intervals written hold exactly the images of the characters that fold |
| `CaseRanges.RegexpCanonicalize` | quickJS/src/main/cpp/quickjs/libunicode.c:658-742 | The set becomes exactly its image under case folding, as a canonical list |
| `RegexpClasses.ClassInstr` | quickJS/src/main/cpp/quickjs/libregexp.c:1355-1474 | From two operands to the emitted table: a class under the ignore-case flag accepts exactly the characters whose folding is the folding of members of the operands, combined as the operation says, or exactly the others if it is inverted |
| `RunTable.UnicodeProp1` | quickJS/src/main/cpp/quickjs/libunicode.c:1458-1503 | The plain decoder gives exactly the characters of the runs that are on |
| `RunTable.GetIndexPos` | quickJS/src/main/cpp/quickjs/libunicode.c:268-302 | -1 exactly behind the table, otherwise a decoder state in front of the character |
| `RunTable.IsInTable` | quickJS/src/main/cpp/quickjs/libunicode.c:304-345 | The indexed lookup gives the answer of the plain decoder for every character, table and well-formed index |
| `RunEncoding.TableMeans` | quickJS/src/main/cpp/quickjs/libunicode.c:1458-1503 | For every list of run lengths, written in any of the four formats that fits each, the table holds a character if and only if it lies in an odd run by the sums of the lengths |
| `RunEncoding.Written` | quickJS/src/main/cpp/quickjs/libunicode.c:1458-1503 | Every complete table is what some list of entries is written as, so TableMeans speaks of all tables that the readers accept |
| `RunEncoding.CollectRuns` | quickJS/src/main/cpp/quickjs/unicode_gen.c:1846-1875 | The odd ones of the collected runs are exactly the characters with the property |
| `RunEncoding.EncodeRuns` | quickJS/src/main/cpp/quickjs/unicode_gen.c:1877-1936 | The bytes are entries for the runs, and the index is one that the lookup accepts; with an index the table is refused where an offset exceeds 7, without one never |
| `RunEncoding.BuildPropTable` | quickJS/src/main/cpp/quickjs/unicode_gen.c:1846-1936 | The table that is built holds exactly the characters with the property |
| `RunEncoding.LookUpBuilt` | quickJS/src/main/cpp/quickjs/libunicode.c:304-345 | Round trip: the indexed lookup and the plain decoder find in the table built for a property exactly the characters with the property |
| `Normalization.FullFixed` | quickJS/src/main/cpp/quickjs/libunicode.c:1127-1151 | What a full decomposition consists of decomposes to itself |
| `Normalization.OrderOrdered` | quickJS/src/main/cpp/quickjs/libunicode.c:1091-1124 | After canonical ordering no mark stands behind one of a higher class |
| `Normalization.OrderSame` | quickJS/src/main/cpp/quickjs/libunicode.c:1091-1124 | Canonical ordering is a permutation |
| `Normalization.OrderStable` | quickJS/src/main/cpp/quickjs/libunicode.c:1091-1124 | Marks of one class, and starters, keep their order |
| `Normalization.OrderStarters` | quickJS/src/main/cpp/quickjs/libunicode.c:1091-1124 | Starters stay at their positions |
| `Normalization.OrderMove` | quickJS/src/main/cpp/quickjs/libunicode.c:1091-1124 | A mark can be moved in front of marks of lower classes without changing the canonical order |
| `Normalization.NfdIdempotent` | quickJS/src/main/cpp/quickjs/libunicode.c:1198-1213 | NFD of NFD is NFD |
| `Normalization.CompositeFull` | quickJS/src/main/cpp/quickjs/libunicode.c:1155-1169 | A composite decomposes to its two parts, save for an LV syllable with U+11A7 |
| `Normalization.BlockedByLast` | quickJS/src/main/cpp/quickjs/libunicode.c:1218-1231 | Comparing with the one character in front, as the code does, decides definition D115 of the Unicode Standard |
| `Normalization.ComposedKeeps` | quickJS/src/main/cpp/quickjs/libunicode.c:1215-1239 | Invariant of the composition loop: what is composed, decomposed again, and what is unread order to the NFD text |
| `Normalization.DropsExactly` | quickJS/src/main/cpp/quickjs/libunicode.c:1162-1165 | A U+11A7 is lost exactly when the NFD text has a leading consonant, a vowel and U+11A7 in a row |
| `Normalization.NfcEquivalent` | quickJS/src/main/cpp/quickjs/libunicode.c:1171-1242 | Decomposing and reordering the composed text gives back the NFD text if and only if there is no such triple |
| `Normalization.LostExample` | quickJS/src/main/cpp/quickjs/libunicode.c:1162-1165 | The text U+1100 U+1161 U+11A7 loses its last character |
| `Normalization.NfcDecides` | quickJS/src/main/cpp/quickjs/libunicode.c:1171-1242 | Without such triples two texts have the same NFC exactly when they have the same NFD |
| `Normalization.NfcIdempotent` | quickJS/src/main/cpp/quickjs/libunicode.c:1171-1242 | NFC of NFC is NFC, for every text |
| `Normalization.LatinUnaffected` | quickJS/src/main/cpp/quickjs/libunicode.c:1185-1196 | NFC leaves Latin-1 text alone, which justifies the shortcut |
| `Normalization.TextBuffer.ToNfdRec` | quickJS/src/main/cpp/quickjs/libunicode.c:1127-1151 | The full decomposition of the source is appended |
| `Normalization.TextBuffer.Insert` | quickJS/src/main/cpp/quickjs/libunicode.c:1101-1113 | The insertion loop puts the mark where the specification puts it |
| `Normalization.TextBuffer.SortCc` | quickJS/src/main/cpp/quickjs/libunicode.c:1091-1124 | The buffer becomes its canonical ordering |
| `Normalization.TextBuffer.FindStarter` | quickJS/src/main/cpp/quickjs/libunicode.c:1218-1231 | The starter found and the blocked test agree with D115 |
| `Normalization.TextBuffer.Compose` | quickJS/src/main/cpp/quickjs/libunicode.c:1215-1241 | The in-place loop leaves the composed text in front |
| `Normalization.TextBuffer.Normalize` | quickJS/src/main/cpp/quickjs/libunicode.c:1171-1242 | NFC, NFD, NFKC and NFKD by their names, with the Latin-1 shortcut and the shortcut for short texts |
| `NfcComplete.HangulNumbering` | quickJS/src/main/cpp/quickjs/libunicode.c:1135-1143 | The parts of each of the 11172 syllables are the jamo that the arithmetic of the Unicode Standard gives |
| `NfcComplete.CompositeFound` | quickJS/src/main/cpp/quickjs/libunicode.c:1155-1169 | Every composite of two characters, by the table of pairs or as the syllable with their jamo, is found; for jamo it is that syllable |
| `NfcComplete.NothingToCompose` | quickJS/src/main/cpp/quickjs/libunicode.c:1171-1242 | In the NFC of any text no unblocked character behind a starter has a composite with it, unless that character decomposes further or is of a lower class than the end of the starter's decomposition |
| `NfcComplete.FullyComposed` | quickJS/src/main/cpp/quickjs/libunicode.c:1171-1242 | When the pairs of the table are in canonical order with a second part that decomposes no further, the NFC of any text has nothing left to compose |
| `NfcComplete.SyllableComposed` | quickJS/src/main/cpp/quickjs/libunicode.c:1155-1169 | The NFC of the jamo of any syllable is the syllable |
| `NfcComplete.OutOfOrderLeft` | quickJS/src/main/cpp/quickjs/libunicode.c:1215-1239 | With a pair out of canonical order a pair with a composite does stay in the result |
| `NfcComplete.UnfinishedLeft` | quickJS/src/main/cpp/quickjs/libunicode.c:1215-1239 | With a pair whose second part decomposes further a pair with a composite does stay in the result |
| `WorkerPipeRuns.NoFault` | quickJS/src/main/cpp/quickjs/quickjs-libc.c:3455-3539 | In no interleaving is freed memory accessed or freed again, a count taken below zero, or a held mutex destroyed |
| `WorkerPipeRuns.WakeByte` | quickJS/src/main/cpp/quickjs/quickjs-libc.c:3781-3787 | Outside the mutex the wake pipe holds one byte if and only if the queue is not empty and the last write of a byte succeeded |
| `WorkerPipeRuns.LostWakeup` | quickJS/src/main/cpp/quickjs/quickjs-libc.c:2310-2321 | A write that fails, which js_waker_signal never tries again, leaves a queued message with every thread idle and no poll enabled |
| `WorkerPipeRuns.NeverTaken` | quickJS/src/main/cpp/quickjs/quickjs-libc.c:2310-2321 | After a failed write no message of the pipe is ever taken again: in every continuation what is handled or in progress stays the same, and no byte comes |
| `WorkerPipeRuns.ClearNeverBlocks` | quickJS/src/main/cpp/quickjs/quickjs-libc.c:2323-2335 | js_waker_clear always finds a byte, and a woken receiver always finds a message |
| `WorkerPipeRuns.MutualExclusion` | quickJS/src/main/cpp/quickjs/quickjs-libc.c:2357-2372 | At most one thread is inside the mutex of a pipe |
| `WorkerPipeRuns.NoDeadlock` | quickJS/src/main/cpp/quickjs/quickjs-libc.c:2357-2372 | A thread inside an operation can go on, or waits for a mutex whose holder can go on with it |
| `WorkerPipeRuns.FifoOnce` | quickJS/src/main/cpp/quickjs/quickjs-libc.c:2349-2403 | The messages sent are, in order, those handled, the one in progress, those freed with the pipe and those queued; none occurs twice |
| `WorkerPipeRuns.SabCountExact` | quickJS/src/main/cpp/quickjs/quickjs-libc.c:3465-3482 | The count of a shared buffer is the references held by threads, queued messages and messages under way; it is freed exactly when there is none |
| `WorkerPipeRuns.PipeCountExact` | quickJS/src/main/cpp/quickjs/quickjs-libc.c:3501-3539 | The count of a pipe is the references held by threads; it is freed exactly when there is none and the last holder is done, and then its queue is empty |
| `WorkerPipeDelivery.Delivered` | quickJS/src/main/cpp/quickjs/quickjs-libc.c:2357-2380 | From taking a message to the end of the handler, when all objects are read, the receiver gains exactly the references of the message; none of these buffers is then freed, and their counts include the new references |
| `WorkerPipeDelivery.TakenIsPosted` | quickJS/src/main/cpp/quickjs/quickjs-libc.c:3733-3787 | Whatever a thread takes under a number is the message posted under it: the pipe and the references are those of the post |
| `WorkerPipeDelivery.PostReceived` | quickJS/src/main/cpp/quickjs/quickjs-libc.c:2357-2380 | End to end: the references posted are the references received, each counted and to a buffer that is not freed |
| `WorkerPipeDelivery.WokenHandles` | quickJS/src/main/cpp/quickjs/quickjs-libc.c:2349-2403 | A woken receiver that goes through its handler handles exactly one message, the next in the order sent |
| `WorkerPipeDelivery.BusyLive` | quickJS/src/main/cpp/quickjs/quickjs-libc.c:3501-3539 | In every reachable state a thread inside an operation works on a pipe that is not freed |
| `WorkerPipeInvariant.StepKeeps` | quickJS/src/main/cpp/quickjs/quickjs-libc.c:3455-3539 | Every event of every thread keeps locks, wake byte, order and counts |
| `MessageQueue.ListAddTail` | quickJS/src/main/cpp/quickjs/list.h:63-67 | The ring gains the node behind its last one |
| `MessageQueue.ListDel` | quickJS/src/main/cpp/quickjs/list.h:69-78 | The ring loses the node, whose links are cleared |
| `MessageQueue.ListEmpty` | quickJS/src/main/cpp/quickjs/list.h:80-83 | True exactly when the head is alone |
| `MessageQueue.MessagePipe.Append` | quickJS/src/main/cpp/quickjs/quickjs-libc.c:3781-3787 | The message goes to the end of the linked queue, and a byte is written exactly when the queue was empty |
| `MessageQueue.MessagePipe.TakeFirst` | quickJS/src/main/cpp/quickjs/quickjs-libc.c:2357-2370 | The first message leaves the linked queue, and the bytes are read exactly when the queue became empty |
| `PiBigint.FloorLog2` | quickJS/src/main/cpp/quickjs/examples/pi_bigint.js:6-24 | The binary logarithm rounded down, 0 for 0 |
| `PiBigint.CeilLog2` | quickJS/src/main/cpp/quickjs/examples/pi_bigint.js:26-30 | The binary logarithm rounded up if and only if a is not 1 |
| `PiBigint.NewtonAbove` | quickJS/src/main/cpp/quickjs/examples/pi_bigint.js:41-46 | A Newton step never falls below the root |
| `PiBigint.IntSqrt` | quickJS/src/main/cpp/quickjs/examples/pi_bigint.js:33-48 | The square root rounded down; the estimate gets strictly smaller in every round but the last |
| `PiBigint.NumeratorSplit` | quickJS/src/main/cpp/quickjs/examples/pi_bigint.js:59-79 | Two neighbouring sums combine to the whole, wherever they meet |
| `PiBigint.ChudBs` | quickJS/src/main/cpp/quickjs/examples/pi_bigint.js:58-79 | Numerator, denominator and factor product of the terms a+1..b, whatever the splits |
| `PiBigint.SeriesIs` | quickJS/src/main/cpp/quickjs/examples/pi_bigint.js:58-79 | Numerator over denominator is the partial sum of the Chudnovsky series |
| `PiBigint.TailBound` | quickJS/src/main/cpp/quickjs/examples/pi_bigint.js:58-79 | The terms behind the first n add up to at most a geometric tail, whatever their number |
| `PiBigint.EnoughTerms` | quickJS/src/main/cpp/quickjs/examples/pi_bigint.js:81-86 | With ceil(prec / bits per term) + 10 terms, adding more moves the sum by at most 1.2e9 (n + 1) / RATE^11 parts of 2^-prec, so by less than one part as long as that factor is below one |
| `PiBigint.CalcPi` | quickJS/src/main/cpp/quickjs/examples/pi_bigint.js:50-88 | The result is at most 804 units of the last bit below the Chudnovsky formula with n terms, and not above it, compared by squares; from four terms on it is at most 10^-50 above pi, and less than 10^-50 and 804 units of the last bit below it, with pi given by its digits |
| `PiBigint.DenominatorNear` | quickJS/src/main/cpp/quickjs/examples/pi_bigint.js:58-79 | From four terms on, whatever their number, the denominator of the formula is enclosed by numbers with 54 digits behind the point |

## Left out

- Pattern text: the regular expression model starts from a pattern tree. Escapes, class syntax, named groups, modifiers, the `v` flag's string sets and Annex B fallbacks are not parsed.
- Scan results: `re_count_captures` and `re_parse_captures` are not modelled; back references in the tree carry the index of an existing group.
- Resource failures: allocation failure, interrupt and timeout polling, C stack checks and error texts.
- Byte-code size: a compiled program is assumed to be smaller than 2^31 bytes, as offsets in the source are 32-bit.
- RegexpMachine: captures that are set are a map there; `RegexpExec` has the capture and stack buffers of the source.
- RegexpExec.LreExec: the subject is a sequence of code units with positions in units instead of bytes and pointers, and case folding is a parameter.
- RegexpEcma.SameExtents: patterns with back references are not covered; those that refer to no stale group are in `RegexpCaptures.NothingStale`.
- RegexpCaptures.NothingStale: the condition is on the pattern alone, so it also refuses patterns whose skipping alternative can never match.
- RegexpRounds.MandatoryRounds: bodies with inner clearing or back references are not covered.
- Limb width: limbs have 32 bits, the width the source selects; the capacity of `mpb_t` tables is not bounded.
- Bignum.Mpb.MpDiv1Norm: modelled in place, the way it is called.
- FreeFormat.FreeFormatDigits: the initial exponent E0 is a parameter with B^(E0-1) <= 2^(e-1) < B^E0, the property `mul_log2_radix` is for; its multiplier table is not checked.
- Atod.ParseNumber: digits behind the limit are dropped as in the source, so the result is the rounding of the digits kept, which is that of all digits where `DroppedHarmless` applies.
- RoundTrip.PrintAndParse: the digits and the position of the point go from printer to parser; the layout of the text between them is left out.
- Layout of numbers: the fixed and exponential formats of `js_dtoa`, its integer fast path, the position of the dot, and the prefix, separator, dot and exponent syntax of `js_atod`.
- Infinity, NaN, zero and signs in `js_dtoa` and `js_atod`, which are single branches.
- Unicode tables: case conversion runs, property tables, combining classes, decompositions and composition pairs are parameters with well-formedness predicates; `unicode_decomp_entry`, `unicode_compose_pair`, `unicode_get_cc` and `lre_case_conv` are not decoded.
- Normalization.TextBuffer.Normalize: the Latin-1 shortcut relies on facts about the character data (`LatinData`), and decompositions are assumed to end, by a rank.
- Rqsort.RqSort: elements are array entries, so byte-wise exchange and element sizes are not modelled; the comparison function is pure.
- Worker pipes: thread start, JavaScript calls, serialization and the rest of the runtime are events that only move references; a pipe is polled by one thread, and a failing read in `js_waker_clear` is not modelled. The Windows event handle and `js_os_poll`'s other handlers are left out.
- WorkerPipeRuns.NoDeadlock: threads that are idle and fairness of the mutex are not part of it.
- PiBigint.CalcPi: the number of terms is a parameter; the source computes it in floating point, and `EnoughTerms` says which numbers are enough. The result is compared with fifty digits of pi; that the series with all its terms is pi is not proved.
- CharRanges.CharRange.UnionInterval: an interval from above 0 up to UINT32_MAX is excluded; its end wraps to 0, and `cr_op` does not expect such points. No caller passes one.
- DoubleRounding.MulPowRoundToD: numbers below 2^-1085 are excluded; the exponent tests of the caller turn them into zero before.
- NfcComplete.NothingToCompose: the two exceptions concern pairs that the Unicode data does not have; that its tables have none (`OrderedPairs`) is a parameter, as the tables are.
- RunEncoding.EncodeRuns: the assertion on the offset of an index entry is a refusal, and the other tables of `unicode_gen.c` are not modelled.
- Secondary helpers: the UTF-8 conversions, `tofp16`, `re_string_list_*`, and everything that calls the interpreter core, the operating system or Android.
