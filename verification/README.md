# Proofs about the core algorithms of the vendored Ruby interpreter

The repository carries the Ruby 1.9.1 interpreter as C source under `lib/ruby`. This project models the
algorithms of six of its files in Dafny and proves what they compute:

- **Multi-precision integers** (`bignum.c`). A `Bignum` is a sign and a buffer of little-endian 32-bit digits
  that the methods overwrite in place, with the carries, borrows and shortcuts of the C loops. `Digits.Val` is
  the number a buffer denotes. Addition, subtraction, multiplication, half-split squaring, power, schoolbook
  division with trial digits and add-back, floor division, radix printing (plain and divide-and-conquer with the
  power cache), radix parsing, two's-complement bit operations and shifts are each proved equal to the operation
  on mathematical integers. What is printed is fixed by its characters (`Radix.CanonicalOnly`), which strings
  are literals and what they mean by their parts (`Literals`), and printing and then parsing is the identity.
- **The compiler's control flow** (`compile.c`). Trees of literals, local variables, sequences, `if`, `&&`,
  `||`, `while`, `until` and `break` are lowered to a list of instructions, labels and adjustments
  (`Emission.Compiler`, proved to produce `Lowering.Lower`), linked to words with relative offsets
  (`Linking.Linker`) and rewritten by the peephole optimiser, one call in `PeepholeStep` and the loop over the
  list in `OptimizePass`. `Nodes.Eval` is the meaning of a tree; `Machine.Step` runs the list and
  `WordMachine.WStep` the linked words. A compiled program gives the tree's value and variables, runs for ever
  exactly when the tree does, agrees at every step with the stack depth recorded by linking, and never needs
  more stack than `stack_max`. The optimised list gives what the tree means whenever no call merges a jump that
  something leads to with the branch in front of it; `NeatLists` says of a list, and `TidyTrees` of a tree, when
  that never happens and the optimiser returns. `Levels` gives every place of a list its true stack depth and
  `LevelPass` follows it through the optimiser; `Relinking` compares it with the depths that linking records for
  the optimised list, and `Relinked` proves when its words compute what the tree means, what they do when they
  do not, and that they stay within its `stack_max`. The doubly linked list itself is `LinkList` with
  `LinkedRewrites`, parallel assignment is `ParallelAssignment`.
- **Arrays** (`array.c`). `CowArray.Heap` holds embedded, owned, shared and shared-root storage with the share
  counts. Every operation is stated on the *view*, a map from array to its own sequence of elements, and proved
  to change the one array it is called on and no other: any run of operations is a run on independent sequences,
  and no view ever reads a freed buffer. `Combination` and `Flatten` model the two iterative enumerations; what
  flatten gives is stated by the routes down to the elements.
- **The file name matcher** (`dir.c`). `Fnmatch` proves the two nested greedy loops complete against a
  declarative match, which is in turn the existence of an assignment of text to wildcards and, for whole paths,
  of text components to pattern components. `WrittenSets`, `WrittenPatterns` and `WrittenPaths` say the same of
  patterns as they are written: characters, escapes, sets with their ranges, stars, components between slashes,
  without any positions.
- **Fibers** (`cont.c`). `Fibers.Thread` keeps the chain of resumers and the ring through every resume, yield
  and termination, the root's own included; `Fibers.Calls` is the call stack of fibers it refines, over whole
  runs, with the values that resumes, yields and ends of blocks hand over.
- **The path normaliser** (`file.c`). `Paths` proves the pointer loop over the growing buffer equal to a
  fold over a stack of components behind any number of leading slashes, its results normal, and exactly the
  normal paths unchanged by it.

How the files depend on each other: `arith`, `digits`, `long_division`, `bignum`, `big_*` and `radix` are
the integers; `nodes`, `lowering`, `depths`, `machine`, `meaning`, `linking`, `emission`, `words`,
`peephole`, `peephole_step`, `optimize_pass`, `neat_lists`, `tidy_pieces`, `tidy_trees`, `optimized`,
`optimize_failures`, `levels`, `level_pass`, `relinking`, `relinked`, `settled_trees`, `pass_steps`,
`relink_failure`, `relink_lost`, `massign`, `link_list` and `linked_rewrites` are the compiler; the rest stand
alone but for `options`, `arith` under `combination`, and `fnmatch` under `written_sets`, `written_patterns` and
`written_paths`. `dafny verify dfyconfig.toml` checks everything.

Where the code and what one would expect of it differ:

- The peephole rewrite that inverts a branch around a jump keeps the program's result only if nothing else
  leads to that jump. The source does not check this, and `unless a || true || b; c = 7; end; c` is compiled
  to a list on which it goes wrong: with `a` nil it means nil, the optimised list gives 7
  (`OptimizeFailures.UnlessPass`, `UnlessLost`). `Peephole.InvertSame` proves every other case, `Clean` is the
  condition for a whole pass, and by `TidyTrees.TidyPass` only literals inside tests can break it.
- The retry of that step does not end where jumps lead round in a circle that the one at hand is not in.
  `while true && true; end` is compiled to such a list (`OptimizeFailures.EndlessRetry`).
  `PeepholeStep.FiniteExactly` says when it ends, and the same tidy trees never meet it.
- Linking records the depth of a label where it is first met, so once the optimiser has led every branch to an
  else part on, that part is recorded as deep as the then part's value. The depths agree exactly when that does
  not happen (`Relinking.AgreesExactly`). Otherwise they are too large, which alone is harmless
  (`Relinking.NeverBelow`), but a break adjusts by their difference. That goes wrong in two ways. On the
  optimised list of `y = a ? 1 : while b && (break 5); end` linking ends in its "adjust bug"
  (`RelinkFailure.RefusedRelinking`). And `while (a ? b : if nil then x = 1 else c end || (break d)); end`
  links, but with a and c nil its words come to an adjustment that finds nothing on the stack to pop, and the
  value of d is lost (`RelinkLost.LostValue`). Where `Clean` holds and the optimised list links, its words give
  what the tree means exactly on the runs where no adjustment would pop anything (`Relinked.RightExactly`,
  `RelinksExactly`). Tidy programs without break, and those where no such else part starts with a jump, never meet
  either (`SettledTrees.UnbrokenRelinks`, `SettledRelinks`).
- Trace instructions, which are on by default and not part of this model, stand in front of every statement. An
  else part that is written as a statement therefore starts with one and not with a jump, which is why the two
  programs above make the else part an operand of `?:`.
- The fast path of parallel assignment differs from the general one as soon as a variable occurs twice
  (`ParallelAssignment.DuplicatesDiffer`); the guard of the source, modelled exactly, excludes just that.
- The comment above `rb_ary_combination` promises no order. The code yields in lexicographic order, and
  that is what is proved.
- The overflow test of `combi_len` misses products that wrap round to something larger than their first
  factor: 11 of 35 elements are counted as 26774327 (`Combination.CountWraps`), and then only so many
  combinations are yielded. The count is right, and no error raised, exactly when the largest product fits
  a long (`Combination.CountExactly`).
- A path with more than one leading slash can expand to the empty string, as `//a/..` does
  (`Paths.NothingLeft`); `Paths.ExpandTwice` says exactly which do. As the directory of a relative path such
  a result leaves a buffer of length 0, which doubling never makes long enough (`Paths.RoomExactly`,
  `Paths.DirectoryGrows`).
- The root fiber, which nobody resumed, can be resumed, even by a fiber that waits for one it resumed. The back
  links then lead round in a circle (`Fibers.Thread.CircleExactly`); control still returns to each resumer
  in turn (`Fibers.BackToResumer`, `Fibers.Script.Run`).

## Model

| member | source | states |
|---|---|---|
| LongDivision.TheoremB | lib/ruby/bignum.c:1639-1640 | with a normalised divisor and a partial remainder below it, the trial digit is never too small and at most two too big, and its product exceeds the dividend by less than one unit of the high digit (Knuth, TAOCP vol. 2, section 4.3.1, Theorem B) |
| LongDivision.MultiplyAndSubtract | lib/ruby/bignum.c:1642-1652 | the loop, with its unchanged high digit and skipped zeros, leaves exactly window minus q times divisor, as low digits plus a signed amount for the high digit; digits outside the window stay |
| LongDivision.BorrowAtMostOne | lib/ruby/bignum.c:1642-1653 | that signed amount is 0 or -1 |
| LongDivision.AddBack | lib/ruby/bignum.c:1654-1660 | one add-back adds the divisor to the window modulo the carry it reports |
| LongDivision.Correct | lib/ruby/bignum.c:1653-1662 | the add-back loop ends after at most two rounds with the one quotient digit that leaves a remainder below the divisor |
| LongDivision.DivideDigit | lib/ruby/bignum.c:1635-1665 | one turn: window = digit times divisor + remainder, remainder below the divisor, at most two add-backs, all other digits kept |
| LongDivision.DivRem1 | lib/ruby/bignum.c:1624-1667 | the whole buffer before = quotient digits after times divisor + remainder digits after, remainder below the divisor |
| BigDivide.LeadingZeros | lib/ruby/bignum.c:1711-1716 | the shift count brings the top digit to at least half the radix without overflow |
| BigDivide.ShiftUp | lib/ruby/bignum.c:1720-1735 | digits and carried-out word together are 2^dd times the source's value |
| BigDivide.NormalizeOperands | lib/ruby/bignum.c:1706-1741 | dividend and divisor are scaled by the same power of two, the divisor's top bit is set and the leading window is below the divisor, so division may start |
| BigDivide.ShortDivide | lib/ruby/bignum.c:1688-1697 | division by one digit in place: old value = new value times digit + remainder, remainder below the digit |
| BigDivide.TakeQuotient | lib/ruby/bignum.c:1755-1762 | the quotient digits moved down keep their value and sign, without a zero on top |
| BigDivide.ShiftDown | lib/ruby/bignum.c:1767-1775 | undoes the scaling exactly |
| BigDivide.TakeRemainder | lib/ruby/bignum.c:1763-1779 | the remainder scaled back, with the dividend's sign and no zero on top |
| BigDivide.LongDivide | lib/ruby/bignum.c:1706-1781 | for a divisor of two digits or more, magnitudes: x = q*y + r with r < y, and the signs of truncated division |
| BigDivide.BigDivRem | lib/ruby/bignum.c:1669-1781 | zero division exactly for y = 0; otherwise x = q*y + r as signed integers with magnitude of r below that of y, r signed like x, on all three branches |
| BigDivide.BigDivMod | lib/ruby/bignum.c:1783-1796 | floor division: x = q*y + r with r zero or of y's sign and smaller in magnitude |
| BigDivide.FloorCorrect | lib/ruby/bignum.c:1789-1791 | when the signs differ and the remainder is not zero, q-1 and r+y are again within the floor bounds |
| BigArith.LongerIsLarger | lib/ruby/bignum.c:1397-1399 | for normalised operands more digits never means a smaller magnitude |
| BigArith.LargerAt | lib/ruby/bignum.c:1400-1410 | the highest differing digit decides the comparison |
| BigArith.BigSub | lib/ruby/bignum.c:1388-1432 | the signed difference of the magnitudes of normalised operands, whichever is larger |
| BigArith.SubtractSmaller | lib/ruby/bignum.c:1413-1431 | subtracting the smaller from the larger leaves no borrow: exact difference in as many digits |
| BigArith.BigAdd | lib/ruby/bignum.c:1434-1475 | x+y or x-y by the sign argument, for every combination of signs and lengths |
| BigArith.AddShorter | lib/ruby/bignum.c:1456-1472 | the exact sum in one digit more than the longer operand |
| BigArith.BigMul1 | lib/ruby/bignum.c:1538-1567 | schoolbook multiplication with its skipped zeros leaves exactly the product of the magnitudes |
| BigArith.BigMul0 | lib/ruby/bignum.c:1569-1603 | the signed product |
| BigPower.CrossTermFits | lib/ruby/bignum.c:2062-2068 | the truncated cross product has at most k + length(a*a) digits, so doubling it into place stays inside the buffer |
| BigPower.Assemble | lib/ruby/bignum.c:2055-2061 | the low square padded to 2k digits with the high square behind it, and room for one digit more |
| BigPower.AddCross | lib/ruby/bignum.c:2063-2080 | adds twice the cross product from digit k on exactly; the carry ends within the one spare digit |
| BigPower.SquareAssembled | lib/ruby/bignum.c:2053-2080 | b*b + 2*a*b*B^k + a*a*B^2k assembled this way is the square |
| BigPower.BigSqr | lib/ruby/bignum.c:2037-2082 | x*x for every length, normalised |
| BigPower.BigPow | lib/ruby/bignum.c:2114-2136 | gives up exactly when the length limit says so; otherwise square-and-multiply over the 31 mask bits gives x^n with its sign |
| BigPower.IntPowDouble | lib/ruby/bignum.c:2130-2135 | x^e * x^e = x^(2e), why squaring doubles the exponent reached |
| Bignums.Bignum.IsZero | lib/ruby/bignum.c:43-51 | true exactly when the magnitude is zero |
| Bignums.Bignum.Realloc | lib/ruby/bignum.c:81-113 | the digits that fit are kept; a capacity not below the length keeps the number |
| Bignums.Bignum.Resize | lib/ruby/bignum.c:115-120 | the new length, with the old digits where they fit |
| Bignums.Bignum.Truncate | lib/ruby/bignum.c:179-189 | drops leading zero digits: same magnitude and sign, normalised, empty only if it was |
| Bignums.Bignum.Fixize | lib/ruby/bignum.c:191-212 | a Fixnum exactly when the value is in Fixnum range, and then that value |
| Bignums.Normalize | lib/ruby/bignum.c:214-221 | truncation and Fixnum test together keep the value |
| Radix.PrintedSplit | lib/ruby/bignum.c:914-919 | the n digits of q*base^m + r are the n-m digits of q and then the m digits of r |
| Radix.DenotedPrinted | lib/ruby/bignum.c:868-885 | reading n printed digits back gives the number, if it has no more |
| Radix.TrimPrinted | lib/ruby/bignum.c:886-890 | trimming any sufficiently long padded print gives the one canonical digit string |
| Radix.CanonicalOnly | lib/ruby/bignum.c:691-691 | no other string of the characters 0 to 9 and a to z without a leading zero denotes the number |
| Radix.PrintedOnly | lib/ruby/bignum.c:868-885 | nor any other of the same length, zeros included |
| Radix.DigitOrder | lib/ruby/bignum.c:414-419 | the digits are the ten figures and, counting on from ten, the letters in order, small or capital, and nothing else |
| BigPrint.Big2StrOrig | lib/ruby/bignum.c:862-892 | writes exactly the base digits of x, zero-padded to len without trim, without leading zeros with trim, and nothing in front |
| BigPrint.PutDigits | lib/ruby/bignum.c:878-884 | one group of four digits put backwards continues the digits of the quotient, including both early exits |
| BigPrint.DropZeros | lib/ruby/bignum.c:886-891 | moves the digits to the front without their leading zeros |
| BigPrint.PowerCache.GetPower0 | lib/ruby/bignum.c:775-785 | the cache entry i is base^(128 * 2^i), filled on demand, and the cache stays valid |
| BigPrint.PowerCache.GetPower | lib/ruby/bignum.c:787-809 | returns base^m1 for m1 the least power of two not below n1, also past the end of the table |
| BigPrint.OutputSplit | lib/ruby/bignum.c:914-922 | the output of q*base^m1 + r is that of q and then that of r, trimmed only if nothing came before |
| BigPrint.HalvesFit | lib/ruby/bignum.c:914-919 | x < base^len and x = q*base^m1 + r give q < base^(len-m1) |
| BigPrint.SplitAtPower | lib/ruby/bignum.c:913-914 | splits x at base^m1 into a quotient and a remainder below it, both normalised |
| BigPrint.PrintHalves | lib/ruby/bignum.c:915-922 | both recursive calls keep their length bounds and together write the two halves |
| BigPrint.Big2StrKaratsuba | lib/ruby/bignum.c:894-923 | for x < base^len it writes the same characters as plain printing, for both settings of trim |
| BigPrint.Big2Str0 | lib/ruby/bignum.c:925-969 | raises exactly for a bad radix of a non-zero x; otherwise the sign and then figures and small letters that denote the magnitude, without a leading zero if trimmed and else as many as asked for |
| BigParse.AllocationSuffices | lib/ruby/bignum.c:523-549 | n digits of the radix always fit the length computed from its bits per digit |
| BigParse.MultiplyAdd | lib/ruby/bignum.c:569-582 | one turn of the parse loop: value * base + digit, the used length growing only inside the buffer |
| BigParse.ReadDigits | lib/ruby/bignum.c:548-583 | reads exactly the digits that the scan reads, with single underscores, and never leaves the allocated buffer |
| BigParse.Strtoul | lib/ruby/bignum.c:526-526 | reads digits up to the first non-digit and loses nothing of what the scan would read |
| BigParse.ReadLiteral | lib/ruby/bignum.c:523-594 | short literals by the word, long ones and those with underscores digit by digit, with the same result and the same rejections |
| BigParse.CstrToInum | lib/ruby/bignum.c:401-595 | the whole function, both ways of reading digits, gives what Parse says, of which Literals proves which strings it takes and what they mean |
| Literals.LiteralValue | lib/ruby/bignum.c:401-595 | white space, an optional sign, the radix prefix the base allows or announces, and digits with single underscores between them are read as the signed number the digits denote, whatever the base |
| Literals.StrictExactly | lib/ruby/bignum.c:401-595 | strict reading takes exactly the strings that are one such literal with nothing but white space around it |
| Literals.LenientExactly | lib/ruby/bignum.c:401-595 | lenient reading gives the literal the string begins with, as far as it goes, and zero exactly if there is none |
| Literals.BadRadixExactly | lib/ruby/bignum.c:436-513 | the radix is refused exactly for a base of 1, above 36, or below -36 in front of no zero, unless a second sign comes first |
| BigParse.PrintThenParse | lib/ruby/bignum.c:401-969 | parsing the printed form of any integer in any base from 2 to 36 gives the integer back, strict or not |
| BigBits.Get2Comp | lib/ruby/bignum.c:150-171 | complements to B^len - x in place; one digit more exactly when all digits are zero |
| BigBits.BigNeg | lib/ruby/bignum.c:1368-1386 | -x-1, whose every bit is the other one, for both signs and the empty number |
| BigBits.BigBitwise | lib/ruby/bignum.c:2166-2329 | and, or, xor: every bit of the result, of infinitely many, is the connective of the operands' bits, for all signs and lengths |
| BigBits.CombineDigits | lib/ruby/bignum.c:2187-2209 | the two digit loops combine the sign-extended operands digit by digit |
| BigBits.PointwiseBits | lib/ruby/bignum.c:2204-2209 | combining sign-extended digits combines all bits of the two's-complement integers |
| BigBits.BitsDetermine | lib/ruby/bignum.c:2166-2329 | integers with the same bits are equal, so the bit statements fix the results |
| BigBits.BigAref | lib/ruby/bignum.c:2507-2546 | the bit of the two's-complement integer at any index, false below zero and the sign above the digits |
| BigBits.ComplementedDigit | lib/ruby/bignum.c:2533-2539 | the digit of the complement computed with the running carry has the bits of the negative number |
| BigBits.BigLShift | lib/ruby/bignum.c:2379-2403 | x * 2^shift, sign kept |
| BigBits.BigRShift | lib/ruby/bignum.c:2445-2486 | floor of x / 2^shift for both signs, including shifts past the end |
| BigBits.ShiftLeft | lib/ruby/bignum.c:2348-2374 | word-sized counts: x * 2^n, or the floor of x / 2^-n |
| BigBits.ShiftByBig | lib/ruby/bignum.c:2331-2444 | counts that are bignums: a range error exactly for a left shift by more digits than a long has; a right shift by so many leaves the sign, any other is exact |
| BigBits.OnlySign | lib/ruby/bignum.c:2331-2339 | leaving only the sign is right exactly for numbers of no more bits than the count |
| BigBits.ShiftRoundTrip | lib/ruby/bignum.c:2379-2486 | shifting right undoes shifting left |
| BigBits.ShiftMovesBits | lib/ruby/bignum.c:2379-2486 | a shift moves every bit by the count, zeros from below and the sign from above |
| Emission.Compiler.Each | lib/ruby/compile.c:2941-3004 | appends exactly the lowered list of the node in value or popped context and takes exactly its label numbers |
| Emission.Compiler.EachIf | lib/ruby/compile.c:2975-3005 | condition, then and else built on lists of their own and spliced in order |
| Emission.Compiler.EachShort | lib/ruby/compile.c:3626-3645 | first operand, dup unless popped, the branch to the end, pop, second operand |
| Emission.Compiler.EachLoop | lib/ruby/compile.c:3167-3249 | the four loop forms with all their labels; the loop in scope is saved and restored |
| Emission.Compiler.EachBreak | lib/ruby/compile.c:3287-3303 | adjust to the loop's depth, value, jump to the break label, restore |
| Emission.Compiler.BranchCondition | lib/ruby/compile.c:2187-2230 | the lowered condition for every kind of test, constant tests without code |
| Emission.CompileProgram | lib/ruby/compile.c:418-500 | the whole list, ending in leave |
| Lowering.LabelsOnce | lib/ruby/compile.c:2941-3303 | a lowered node places each of its labels once and no other, and refers only to its own and to the break label |
| Depths.LinkLower | lib/ruby/compile.c:1316-1502 | walking a lowered node the way linking does moves the recorded depth by the value the node leaves, keeps the loop's labels at their depths and never adjusts upwards |
| Depths.LinkCond | lib/ruby/compile.c:1316-1502 | walking a lowered condition leaves the depth as it was and records both labels at it |
| Machine.Sim | lib/ruby/compile.c:2941-3004 | running the lowered code of any node shows its meaning: a value on top, a break behind the loop's break label above what lay below the loop, or as many steps as there was fuel, always at the recorded depth |
| Machine.SimCond | lib/ruby/compile.c:2187-2230 | a lowered condition reaches the then label exactly when the condition is true, with the stack as before |
| Machine.SimAsgn | lib/ruby/compile.c:3652-3665 | the same for an assignment |
| Machine.SimBlock | lib/ruby/compile.c:2964-2974 | the same for a sequence: only the last value stays |
| Machine.SimIf | lib/ruby/compile.c:2975-3005 | the same for if, both branches |
| Machine.SimShort | lib/ruby/compile.c:3626-3645 | the same for `and` and `or`, which keep the deciding operand |
| Machine.SimWhile | lib/ruby/compile.c:3166-3249 | the same for while and until, body or test first |
| Machine.SimBreak | lib/ruby/compile.c:3287-3303 | the same for break out of a nested expression: temporaries are dropped, its value is the loop's |
| Meaning.Preserves | lib/ruby/compile.c:418-500 | a compiled tree with a value stops at leave with exactly that value and those variables; without one it goes on for as many steps as wanted |
| Meaning.Computes | lib/ruby/compile.c:418-500 | conversely, where a compiled tree stops it is at leave, and what it holds is the tree's value and variables |
| Meaning.AlwaysAgrees | lib/ruby/compile.c:1326-1330 | in every reachable state of every run the stack is as deep as linking recorded for that instruction |
| Meaning.RunsForever | lib/ruby/compile.c:3166-3249 | the compiled tree runs for ever exactly when the tree has no value with any amount of fuel |
| Linking.Linker.SetPositions | lib/ruby/compile.c:1265-1307 | the first pass: total words, number of table entries and every label's position |
| Linking.Linker.EmitInsn | lib/ruby/compile.c:1318-1455 | depth, peak, unknown-label test, depth noted at the label, and the offset operand relative to the next instruction |
| Linking.Linker.EmitAdjust | lib/ruby/compile.c:1467-1501 | adjuststack by the difference, a jump of zero if there is none, the bug report exactly if it is negative |
| Linking.Linker.SetSequence | lib/ruby/compile.c:1254-1505 | links exactly the lists with no unknown label and no upward adjustment; then the words, the table of positions and depths and stack_max are the specified ones, so both passes agree on every position |
| Linking.WordsAt | lib/ruby/compile.c:1366-1368 | the words of each element stand at the position the first pass computed for it |
| Linking.BelowPeak | lib/ruby/compile.c:1326-1330 | no recorded depth, of an instruction or a label, exceeds stack_max |
| Linking.PeakReached | lib/ruby/compile.c:1326-1330 | a positive stack_max is the depth recorded behind some instruction |
| Linking.TablePositions | lib/ruby/compile.c:1448-1453 | the instruction table lists exactly the positions of the opcodes among the words, in order |
| WordMachine.CompiledLinks | lib/ruby/compile.c:1359-1362 | every compiled program links: no unknown label and never the adjust bug |
| WordMachine.StepRefines | lib/ruby/compile.c:1355-1368 | a step of the list is a step of the words, offsets landing on their labels; labels take no word |
| WordMachine.WordsRun | lib/ruby/compile.c:1254-1505 | linked words run as long as wanted or stop at the last word with the tree's value and variables |
| WordMachine.WordsCompute | lib/ruby/compile.c:1254-1505 | linked words that stop hold exactly the tree's value and variables |
| WordMachine.WordsForever | lib/ruby/compile.c:1254-1505 | linked words run for ever exactly when the tree does |
| WordMachine.WithinStackMax | lib/ruby/compile.c:1326-1330 | in every state the words reach the stack is within stack_max |
| WordMachine.TableDepths | lib/ruby/compile.c:1448-1453 | for every word that a run of a compiled program carries out the table has the depth of the stack behind it |
| WordMachine.Build | lib/ruby/compile.c:418-500 | compiling and linking together give those words and a stack_max no run exceeds |
| Peephole.UselessSame | lib/ruby/compile.c:1673-1681 | removing a jump to the next instruction keeps every run's result |
| Peephole.ThreadSame | lib/ruby/compile.c:1682-1687 | leading a jump or branch through another jump keeps every run's result |
| Peephole.LeaveSame | lib/ruby/compile.c:1688-1708 | replacing a jump to leave by leave and an unreachable pop keeps every run's result |
| Peephole.InvertSame | lib/ruby/compile.c:1723-1732 | inverting a branch around a jump nobody else jumps to keeps every run's result |
| PeepholeStep.Round | lib/ruby/compile.c:1657-1733 | one round for a jump: exactly one of the rewrites or none, and another round exactly if the jump was led on to another label |
| PeepholeStep.PeepholeBranch | lib/ruby/compile.c:1735-1749 | a branch to a jump is led on once, to that jump's label, and nothing else changes |
| PeepholeStep.FiniteExactly | lib/ruby/compile.c:1682-1687 | the retry of a jump ends exactly if no label comes back, and then within as many retries as the list has elements and one |
| PeepholeStep.Optimize | lib/ruby/compile.c:1653-1749 | where the retry ends, the call leaves what the jump led on as far as it goes and one last rewrite make of the list, for all four rewrites |
| PeepholeStep.CallSame | lib/ruby/compile.c:1653-1749 | a call keeps every run's result, provided it merges no jump that something else leads to with the branch in front |
| PeepholeStep.KeptSettled | lib/ruby/compile.c:1657-1733 | a jump that a call keeps leads neither to what follows it, nor to leave, nor to a jump to another label except itself |
| OptimizePass.IseqOptimize | lib/ruby/compile.c:1871-1895 | the loop calls the step once for every instruction, going on behind what stands in its place, and returns when every retry on the way ends |
| OptimizePass.PassSame | lib/ruby/compile.c:1871-1895 | the whole pass keeps every run's result and leaves a list that ends in leave with every label placed, provided no call merged a jump that something led to |
| NeatLists.NeatPass | lib/ruby/compile.c:1871-1895 | on a neat list, which can be read off the list itself, every retry ends and no call merges a jump that something leads to |
| TidyTrees.CompileNeat | lib/ruby/compile.c:2187-3303 | a tree in whose tests no literal is an operand of `&&` or `||`, and whose tests are literals only in front of a branch or loop body that begins with an instruction other than a jump, is compiled to a neat list |
| TidyTrees.TidyPass | lib/ruby/compile.c:1871-1895 | so on its list the optimiser returns and merges no jump that something leads to |
| OptimizeFailures.UnlessPass | lib/ruby/compile.c:1709-1732 | for one program the pass returns, and on the way merges a jump that something leads to with the branch in front of it |
| OptimizeFailures.UnlessLost | lib/ruby/compile.c:1709-1732 | what it leaves gives 7 where the tree, and the list before it, mean nil |
| OptimizeFailures.EndlessRetry | lib/ruby/compile.c:1682-1687 | for another program the very first call is retried for ever |
| Optimized.RewrittenMeaning | lib/ruby/compile.c:1653-1749 | a list that gives the same results as the compiled program gives a value and variables exactly when the tree evaluates to them |
| Optimized.PassMeaning | lib/ruby/compile.c:1871-1895 | after the optimiser the list gives a value and variables exactly when the tree evaluates to them, provided no call merged a jump that something led to |
| Optimized.TidyMeaning | lib/ruby/compile.c:1871-1895 | and without that proviso for every tidy tree |
| Levels.CompileLevel | lib/ruby/compile.c:2187-3303 | in the list of every tree each element finds the operands it takes, jumps lead to labels of the depth they leave, a label behind a jump is met no lower than it is, and breaks start with nothing on the stack |
| LevelPass.PassLevel | lib/ruby/compile.c:1871-1895 | whatever the optimiser rewrites, the list stays so with the same depths at its labels, the pop behind an inserted leave included |
| Relinking.NeverBelow | lib/ruby/compile.c:1318-1501 | no depth that linking records for such a list, of a place or of a label, is below the true one |
| Relinking.AgreesExactly | lib/ruby/compile.c:1355-1465 | the recorded depths are the true ones exactly when every label met above its depth, behind a jump, has been jumped to before |
| Relinking.LinksExactly | lib/ruby/compile.c:1254-1505 | all that linking can refuse in the list of an optimised program is an adjustment that would have to push |
| Relinked.StuckExactly | lib/ruby/compile.c:1467-1501 | a run stops nowhere but at leave exactly when no adjustment it comes to would pop anything |
| Relinked.CalmRelinks | lib/ruby/compile.c:1467-1501 | no run comes to such an adjustment if linking makes a jump of zero of each |
| Relinked.RewrittenCompute | lib/ruby/compile.c:926-956 | after a pass that merged no jump something led to: where the words of the optimised and linked program stop, they are at leave with the value and variables of the tree if the run comes to no adjustment that would pop, and otherwise at that adjustment with nothing on the stack |
| Relinked.RewrittenReach | lib/ruby/compile.c:926-956 | if the tree has a value, they stop: with it and its variables on a run without such an adjustment, at the adjustment otherwise |
| Relinked.RewrittenForever | lib/ruby/compile.c:926-956 | they go on for ever exactly when the run comes to no such adjustment and the tree has no value with any amount of fuel |
| Relinked.RightExactly | lib/ruby/compile.c:926-956 | after such a pass and from given variables, the words of an optimised list that links give what the tree means, stopping with its value where it has one and only so, exactly if the run comes to no adjustment that would pop |
| Relinked.RelinksExactly | lib/ruby/compile.c:926-956 | so they are right for all variables exactly if no run from any variables comes to one |
| Relinked.RewrittenWithin | lib/ruby/compile.c:1326-1330 | in every state the words of any optimised list that links reach, on whatever run, the stack is within its stack_max |
| Relinked.Build | lib/ruby/compile.c:926-956 | compiling, optimising and linking together: refused exactly for an adjustment that would have to push, otherwise those words and a stack_max no run exceeds, right or wrong |
| SettledTrees.SettledExact | lib/ruby/compile.c:1355-1465 | in the optimised list of a tree where no conditional whose value is used has an else part that starts with a jump, or a test without a branch, every recorded depth is the true one |
| SettledTrees.SettledAgrees | lib/ruby/compile.c:1254-1505 | in every state such a list reaches the stack is as deep as recorded for the place |
| SettledTrees.SettledRelinks | lib/ruby/compile.c:926-956 | so tidy trees of this kind link after optimising and compute what they mean |
| SettledTrees.UnbrokenRelinks | lib/ruby/compile.c:926-956 | and so do all tidy trees without break |
| RelinkFailure.RefusedRelinking | lib/ruby/compile.c:1493-1499 | a tidy tree whose optimised list is refused: the break in a loop test that is an operand of `&&` |
| RelinkLost.LostValue | lib/ruby/compile.c:1478-1484 | a tidy tree whose optimised list links, and variables for which it has a value that the words do not give |
| LinkList.List.Add | lib/ruby/compile.c:386-393 | the element goes to the end and all links, last included, stay right |
| LinkList.List.Append | lib/ruby/compile.c:711-720 | the other list's elements go behind this one's; an empty list changes nothing |
| LinkList.List.InsertNext | lib/ruby/compile.c:588-597 | the element goes behind the given one, all links right; last is right afterwards exactly if it was not at the end |
| LinkList.List.Replace | lib/ruby/compile.c:618-629 | the one element is exchanged, all links right; last is right afterwards exactly if it was not at the end |
| LinkList.List.Remove | lib/ruby/compile.c:631-638 | the element is gone, all links right; last is right afterwards exactly if it was not at the end |
| LinkList.List.Pop | lib/ruby/compile.c:654-662 | the last element is returned and gone |
| LinkedRewrites.DropJump | lib/ruby/compile.c:1680-1680 | unlinking a jump's cell drops the jump from the list, and on a list ending in leave the pointer to the last cell stays right |
| LinkedRewrites.LeaveInstead | lib/ruby/compile.c:1700-1707 | so with the cell exchanged for a leave and a pop linked in behind it |
| ParallelAssignment.CompileOpt | lib/ruby/compile.c:2388-2451 | takes the fast path exactly for at most 64 distinct plain targets and emits it |
| ParallelAssignment.AssignBackwards | lib/ruby/compile.c:2379-2386 | assignments in reverse order |
| ParallelAssignment.FastIsEffect | lib/ruby/compile.c:2432-2449 | pushing, padding with nil, evaluating and dropping extras, then assigning in reverse has the effect of parallel assignment |
| ParallelAssignment.GeneralIsEffect | lib/ruby/compile.c:2461-2481 | so has building the array, ready made for literals, and expanding it |
| ParallelAssignment.FastIsGeneral | lib/ruby/compile.c:2388-2481 | the two paths agree on stack, variables, breaks and fuel for distinct targets |
| ParallelAssignment.DuplicatesDiffer | lib/ruby/compile.c:2399-2406 | with a variable twice they would not, which is what the guard is for |
| ParallelAssignment.CompilePlain | lib/ruby/compile.c:2453-2481 | whichever path is taken, the code has the effect of parallel assignment for distinct targets and of the general path otherwise |
| CowArray.ViewsAreSafe | lib/ruby/array.c:175-253 | in every consistent heap a view lies in its root's live part of a live buffer, nobody else owns that buffer and the share count is at least the number of sharers |
| CowArray.DropSharer | lib/ruby/array.c:175-188 | one sharer less keeps the heap consistent and all other arrays' elements; the buffer is freed only with its last view |
| CowArray.AddSharer | lib/ruby/array.c:205-220 | one view more keeps the heap consistent and all other arrays' elements |
| CowArray.BecomeShared | lib/ruby/array.c:379-390 | handing a buffer to a new root changes no array's elements |
| CowArray.SetOwn | lib/ruby/array.c:143-173 | rewriting an array's own storage touches no other array |
| CowArray.Heap.New | lib/ruby/array.c:276-307 | a new empty array with the capacity asked for |
| CowArray.Heap.ResizeCapa | lib/ruby/array.c:143-173 | changes the storage and no array's elements |
| CowArray.Heap.Unshare | lib/ruby/array.c:190-203 | the array leaves its root for storage of its own, all other views as before |
| CowArray.Heap.Modify | lib/ruby/array.c:230-253 | afterwards the array may be written; no array's elements change |
| CowArray.Heap.MakeShared | lib/ruby/array.c:371-392 | returns the root, an old or a new one; no array's elements change |
| CowArray.Heap.MakePartial | lib/ruby/array.c:605-631 | a new array with the asked-for part, embedded or a view; the source array is unchanged |
| CowArray.Heap.Store | lib/ruby/array.c:567-603 | raises exactly for an index before the start; otherwise only this array changes, padded with nil past its end |
| CowArray.Heap.Push | lib/ruby/array.c:679-684 | only this array changes, by one element at its end |
| CowArray.Heap.Pop | lib/ruby/array.c:709-724 | returns and removes the last element of this array only, nil from an empty one |
| CowArray.Heap.PopM | lib/ruby/array.c:743-756 | the last n elements as a new array and removed from this one; an error for negative n |
| CowArray.Heap.Shift | lib/ruby/array.c:758-781 | returns and removes the first element of this array only, by moving down or by becoming a view |
| CowArray.Heap.ShiftM | lib/ruby/array.c:804-826 | the first n elements as a new array and removed from this one; an error for negative n |
| CowArray.Heap.Subseq | lib/ruby/array.c:885-900 | nil exactly out of range; otherwise a new array with the clipped part |
| CowArray.Heap.Replace | lib/ruby/array.c:2335-2374 | the array gets the other's elements, all others and the other itself unchanged |
| CowArray.Heap.Splice | lib/ruby/array.c:1181-1237 | raises exactly for a negative length or an index before the start; otherwise the part is replaced by the other array's old elements, also when that is the array itself |
| CowArray.Heap.SplicePast | lib/ruby/array.c:1206-1218 | past the end: nil padding and then the replacement |
| CowArray.Heap.SpliceInside | lib/ruby/array.c:1220-1236 | inside: tail moved, replacement copied, right also if the replacement is the array itself |
| CowArray.Heap.Execute | lib/ruby/array.c:567-826 | each operation acts on the view as on independent sequences |
| CowArray.Heap.Run | lib/ruby/array.c:567-826 | any run of operations on any number of arrays is a run on independent sequences, the heap consistent after each |
| Combination.NextFactor | lib/ruby/array.c:3520-3527 | C(n,k) * k = C(n,k-1) * (n-k+1): every division in the loop is exact |
| Combination.CombiLen | lib/ruby/array.c:3511-3529 | the loop in longs that wrap, with its overflow test and error |
| Combination.CountExactly | lib/ruby/array.c:3511-3529 | its count never exceeds the binomial coefficient, and is that without an error exactly when the largest product fits a long |
| Combination.CountWraps | lib/ruby/array.c:3520-3527 | an input for which an overflow goes unnoticed |
| Combination.AllAreChoices | lib/ruby/array.c:3555-3597 | the specified rows are exactly the strictly increasing index rows of length n |
| Combination.AllInOrder | lib/ruby/array.c:3574-3594 | they are in strict lexicographic order, so each occurs once |
| Combination.AllCount | lib/ruby/array.c:3577-3577 | their number is the binomial coefficient |
| Combination.FromStep | lib/ruby/array.c:3591-3593 | the row the odometer makes is the next one in that order |
| Combination.Turn | lib/ruby/array.c:3591-3593 | one turn of the odometer finds the right place, and after the last row none is left |
| Combination.Fill | lib/ruby/array.c:3586-3589 | completes the row and keeps the chosen elements in step with it |
| Combination.Odometer | lib/ruby/array.c:3575-3594 | yields the elements of as many rows as asked for in order, each once |
| Combination.Combination | lib/ruby/array.c:3555-3597 | for every n: nothing, the empty row, single elements or the odometer; the rows in order, as many as were counted, or the range error of the count |
| Combination.AllYielded | lib/ruby/array.c:3555-3597 | these are all rows exactly when the largest product of the count fits a long or n is below two |
| Flatten.FlattenArray | lib/ruby/array.c:3113-3165 | the explicit-stack loop terminates on every finite array graph; it gives exactly the elements kept within the level, one for each route down to them, in lexicographic order of the routes, raises exactly when a route comes to an array still open, and tells whether anything was opened |
| Flatten.FlatListed | lib/ruby/array.c:3127-3150 | the same of the recursive form, below any arrays that are open |
| Flatten.RaisesOnLoops | lib/ruby/array.c:3139-3143 | it raises exactly when some way down within the level meets an array already open on that way |
| Flatten.AllFlat | lib/ruby/array.c:3128-3150 | with no level limit the result holds no arrays |
| Fnmatch.Bracket | lib/ruby/dir.c:86-151 | the loop with its early exits gives what BracketMatch says, of which WrittenSets.BracketExactly proves what it is |
| WrittenSets.BracketExactly | lib/ruby/dir.c:86-151 | matching goes on behind the closing bracket exactly if what stands in the brackets is written as an optional negation and a list of characters and ranges, escapes included, and some listed character or end of a range equals the text's or some range has it in between, or none does under a negation; an unterminated set matches nothing |
| Fnmatch.MatchIsAssignment | lib/ruby/dir.c:162-252 | the declarative match holds exactly when text can be assigned to the wildcards and one character to each other token |
| Fnmatch.BackToStar | lib/ruby/dir.c:243-249 | when the text after the last star does not match, only a longer star can help |
| Fnmatch.ForgetStar | lib/ruby/dir.c:189-199 | at a new star the earlier ones may be forgotten |
| Fnmatch.StarStar | lib/ruby/dir.c:190-190 | a run of stars means what one star means |
| Fnmatch.FnmatchHelper | lib/ruby/dir.c:162-252 | terminates and succeeds exactly when the component matches with the leading-period rule, the pattern then at its end marker |
| WrittenPatterns.ComponentExactly | lib/ruby/dir.c:162-252 | a component matches exactly if it is written with characters, escapes, question marks, sets and stars that cover the text one by one, stars any part of it, and a leading period is written out |
| Fnmatch.Path.BackToDeep | lib/ruby/dir.c:287-296 | when what follows the last `**/` does not match here, only skipping one more visible directory can help |
| Fnmatch.Path.ForgetDeep | lib/ruby/dir.c:272-276 | at a new `**/` the earlier one may be forgotten |
| Fnmatch.Path.NothingHidden | lib/ruby/dir.c:288-288 | components matched by the same patterns elsewhere cannot be hidden, so the period test on skipped ones loses nothing |
| Fnmatch.Path.MatchIsLaying | lib/ruby/dir.c:254-302 | a whole path matches exactly when its components can be laid on those of the pattern, each double star skipping some that are not hidden |
| Fnmatch.Fnmatch | lib/ruby/dir.c:254-302 | terminates and returns zero exactly when the pattern matches, with and without FNM_PATHNAME, FNM_DOTMATCH and FNM_NOESCAPE |
| WrittenPaths.PathExactly | lib/ruby/dir.c:254-302 | with FNM_PATHNAME a pattern matches exactly if it and the path are written as components between slashes of which each of the pattern's takes one of the path's, none left over, double stars passing some that are not hidden |
| WrittenPaths.TextExactly | lib/ruby/dir.c:254-302 | without it the whole pattern is one component and takes the whole text |
| Fibers.LinkJoin | lib/ruby/cont.c:141-153 | the new fiber joins the ring behind the current one, links right in both directions |
| Fibers.LinkRemove | lib/ruby/cont.c:155-160 | the ring without the fiber, links right in both directions |
| Fibers.Thread.Current | lib/ruby/cont.c:802-812 | makes the root fiber on first use and otherwise changes nothing |
| Fibers.Thread.Create | lib/ruby/cont.c:660-697 | a new fiber in the ring, in state created, with no resumer |
| Fibers.Thread.Free | lib/ruby/cont.c:162-177 | a fiber off the chain leaves the ring, which stays well formed |
| Fibers.Thread.Switch | lib/ruby/cont.c:842-878 | raises exactly for a dead fiber, changing nothing; otherwise the fiber runs, with nil for no argument, the one argument itself, or an array of exactly the arguments, and its back link is set only by resume |
| Fibers.Thread.Resume | lib/ruby/cont.c:886-897 | double resume exactly for a fiber that was resumed and has not given control back, dead fiber exactly for a terminated one, otherwise the chain grows by it and the arguments arrive as for a switch; the root too, which at first nobody has resumed |
| Fibers.Thread.CircleExactly | lib/ruby/cont.c:864-866 | the back links from the running fiber go on for ever exactly when the root has been resumed and has not given control back; they then lead from it back to itself |
| Fibers.Thread.ReturnFiber | lib/ruby/cont.c:711-733 | takes the back link, the root without one, an error on the root itself |
| Fibers.Thread.Yield | lib/ruby/cont.c:899-903 | an error exactly on a root nobody resumed; otherwise back to the resumer, which is live and gets nil, the one argument, or an array of exactly the arguments |
| Fibers.Thread.Start | lib/ruby/cont.c:745-771 | a created fiber runs, its block called with exactly the arguments given to its first resume, however they were passed on |
| Fibers.Thread.Terminate | lib/ruby/cont.c:737-743 | back to a live resumer with the fiber's value; only this fiber becomes terminated |
| Fibers.RunsSound | lib/ruby/cont.c:711-903 | over any run the chain starts at the root, nobody on it was resumed twice, it holds only live fibers, and dead fibers stay dead |
| Fibers.Nested | lib/ruby/cont.c:711-903 | a run that does not leave a fiber leaves everything below it on the chain alone |
| Fibers.BackToResumer | lib/ruby/cont.c:711-903 | whatever a resumed fiber does meanwhile, its yield or end returns to the one that resumed it, whose resume returns what that yield was given or the block ended with |
| Fibers.ResumeGives | lib/ruby/cont.c:745-871 | over any run the first resume of a fiber calls its block with exactly its arguments, and a later one is what the fiber's own yield returns |
| Fibers.Script.Do | lib/ruby/cont.c:842-903 | each operation on the linked objects is the operation on the call stack, with the same outcome and the same value handed over |
| Fibers.Script.Run | lib/ruby/cont.c:842-903 | so is any run, the back-link chain and the ring well formed throughout |
| Paths.LastSeparator | lib/ruby/file.c:2509-2525 | the start of the last run of separators with something behind it, or none |
| Paths.ChompDirSep | lib/ruby/file.c:2527-2541 | the start of the trailing separators, or the end |
| Paths.SkipRoot | lib/ruby/file.c:2462-2470 | past the leading separators |
| Paths.Parent | lib/ruby/file.c:2748-2758 | going back to the last separator drops exactly the last component, and with the only one the whole run of leading slashes; without components it stays |
| Paths.Components | lib/ruby/file.c:2738-2825 | the pointer loop over the growing buffer leaves exactly the components of the fold behind the leading slashes: empty and `.` dropped, `..` removing its predecessor |
| Paths.TourWalk | lib/ruby/file.c:2738-2825 | how often the walk comes back to no components decides what becomes of the leading slashes |
| Paths.ExpandAbsolute | lib/ruby/file.c:2720-2825 | any number of leading slashes: they stay until the walk first comes back to no components, are one from then on, and nothing is left of the path if it ends there |
| Paths.NormalForm | lib/ruby/file.c:2720-2825 | a result that is not empty is normal: behind its leading slashes every slash has a component after it that is not empty, `.` or `..`; the leading slashes are those of the path, or one if the walk comes back to no components |
| Paths.NormalExactly | lib/ruby/file.c:2720-2825 | a path expands to itself exactly when it is normal |
| Paths.ExpandRelative | lib/ruby/file.c:2695-2825 | the same, starting from the expanded directory with its leading slashes and components, unless that is empty |
| Paths.RoomExactly | lib/ruby/file.c:2575-2584 | doubling the buffer ends exactly for a length that is not 0 |
| Paths.DirectoryGrows | lib/ruby/file.c:2575-2584 | what a directory expands to can be doubled into a buffer long enough exactly unless more than one slash leads it and its walk comes back to no components once and ends there |
| Paths.WalkRender | lib/ruby/file.c:2738-2825 | walking a rendered stack of components gives the stack back |
| Paths.ExpandTwice | lib/ruby/file.c:2720-2825 | the result is empty exactly when more than one slash leads and the walk comes back to no components once and ends there; any other result is absolute, and expanding it changes nothing |
| Paths.NothingLeft | lib/ruby/file.c:2748-2758 | a path whose expansion is empty |

## Left out

- OptimizePass.PassSame: results are proved kept if no call merges a jump that something leads to, not only if: where one does, the result can still be the same by coincidence of the values.
- TidyTrees.TidyPass: the condition on trees is sufficient, not necessary: a test decided by a literal can be harmless.
- Optimized.RewrittenMeaning: it takes the equality of results as given, which PassMeaning and TidyMeaning prove; an adjustment cuts the stack to the depth recorded for the unoptimised list there, and depths are recorded anew in Relinked.
- WordMachine.Build: links the list as compiled; the source optimises it first, which is Relinked.Build.
- SettledTrees.SettledRelinks: the condition on trees is sufficient, not necessary: an else part that starts with a jump does no harm where no break meets its depths.
- Relinked.CalmRelinks: sufficient, not necessary: an adjustment no run comes to may have something to pop. The exact condition is Relinked.RelinksExactly.
- Combination.CombiLen: an overflow is taken to wrap around in 32-bit two's complement, which C leaves undefined.
- BigParse.Strtoul: the C library's conversion is modelled as exact for the short literals it is used on.
- BigDivide.BigDivRem: the loop over zero top digits of the divisor is left out, as the divisor is normalised; so are thread interruption and stop flags.
- BigPrint.Big2Str0: the floating-point estimate of the length is a parameter, required to be long enough.
- BigPower.BigPow: negative, rational and float exponents, and the float result beyond the length limit.
- BigBits.BigBitwise: operands are never a negative zero, which arithmetic does not hand on.
- Paths.ExpandAbsolute: `~`, drive letters, NTFS streams and Cygwin; encodings and taint.
- Paths.ExpandRelative: the directory is taken to be absolute, and the current directory is one too.
- Fibers.Thread.Resume: transfer on its own, calls across threads and traps, and stack copying.
- Flatten.FlattenArray: elements converted by to_ary while flattening, and the re-entry check.
- Emission.Compiler.Each: the list is a sequence held by the anchor here; its pointer form is LinkList, whose additions have the same contracts. Leading a jump on and inverting a branch assign inside a cell.
- BigBits.ShiftByBig: no limit on the length of the result.
- Debug output, and the list primitives nothing here uses.
- Digits and C longs are 32 bits and Fixnums 31 bits wide; digits embedded in the object header are not told apart from allocated ones.
- Fixnum, float and coerced operands of the integer operations; conversion to and from floating point.
- Frozen, taint and trust checks, sizes next to ARY_MAX_SIZE, and garbage collection of arrays and fibers.
- FNM_CASEFOLD and multibyte characters in patterns; reading directories.
- In compile.c: method calls, blocks, case, rescue and ensure with their catch tables, next and redo in while, opt_n, trace instructions and line numbers, specialised and unified instructions, and tail calls. Without trace instructions every else part stands as one written with `?:` does.
- In the peephole step an adjustment is never taken for a jump or leave, which the source's cast does not guarantee in C.
- Splat, nested and attribute targets of parallel assignment, and parallel assignment for its value.
- Simple array iterators, sorting, and arrays changed by the block that iterates over them.
