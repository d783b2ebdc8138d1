# Multiply-to-shift pass, modelled in Dafny

This project models the compiler pass in `Lab2/TestPassModule.cpp`. The pass works on the
instructions of a function, one basic block at a time (`runOnBasicBlock`):

1. It walks the block in order with a range-for. For each `mul`, it checks operand 0 and
   then operand 1. An operand matches when it is an integer constant whose sign-extended
   value `Val` satisfies `Val > 0 && (Val & (Val - 1)) == 0`. On a match, the pass:
   - builds `shl other, Log2_64(Val)`, where `other` is operand `1 - i` and the shift
     amount is a constant of the matched constant's type;
   - inserts the `shl` right after the `mul`;
   - redirects every use of the `mul` to the `shl` (`replaceAllUsesWith`).

   The block grows during the walk, so the walk also visits the `shl`s it has just
   inserted. They are not `mul`s, so nothing happens to them.
2. After the walk, it builds `add op0, op0` from operand 0 of the block's first
   instruction. It inserts the `add` right after that instruction and redirects all of
   that instruction's uses to it. It then returns true.

`runOnFunction` runs this on every block in order. It returns true when any block
reported a change, which means exactly when the function has a block.

The project has three modules:

- `PowerOfTwo` (`power_of_two.dfy`): `Pow2`, the bitwise `BitAnd` of non-negative
  integers, `IsPow2` and the floor logarithm `Log2`, with the lemmas linking them.
- `IR` (`ir.dfy`): the program representation the pass touches.
  - Instructions have ids, an opcode (`Mul`, `Shl`, `Add` or `Other`) and operand slots.
  - An operand is one of three kinds: `Const(width, value)` is an integer constant holding
    its sign-extended value; `Def(id)` reads another instruction's result; `Arg` is any
    other value.
  - A `Body` holds the blocks of one function and the next free id.
  - `Redirect` models replace-all-uses-with over every operand slot of the function.
  - `Uses` is the set of slots reading a value.
  - The `Function` class is the mutable object the pass changes. Its methods are
    `CreateBinary`, `InsertAfter` and `ReplaceAllUsesWith`.
- `TestPassModule` (`test_pass.dfy`):
  - The pass is first defined as functions on a `Body`:
    - `OperandStep` is one iteration of the operand loop;
    - `OperandLoop` and `Visit` cover the loop over a `mul`'s operands;
    - `Walk` is the range-for over the growing block;
    - `AddFirst` is the `add` insertion;
    - `BlockPass` is `runOnBasicBlock`;
    - `FunctionPass` is `runOnFunction`.
  - Lemmas state what each step does to positions, order and use sets.
  - The methods `RewriteOperand`, `RewriteMul`, `RunOnBasicBlock` (with `AddAfterFirst`)
    and `RunOnFunction` perform the same loops on a `Function` object. Each is proved to end in the state
    the functions describe.

`replaceAllUsesWith` rewrites uses anywhere in the function, not only inside the current
block. The state is therefore the whole function, and redirection runs over all of its
blocks.

Two consequences of the code are worth stating:

- **Both operands qualify.** The operand loop does not stop after a match. A second
  `shl` (for operand 1) goes in directly after the `mul`, ahead of the first one. The
  `mul`'s uses have already moved to the first `shl`, so the second redirection finds
  nothing and the second `shl` gets no uses (`BothOperandsQualify`, `SecondShiftUnused`).
- **A multiplication by 8 becomes a shift by 3.** `Log2_64(8)` is 3 (`EightIsTwoCubed`,
  `MulByEight`).

## Model

| member | source | states |
|---|---|---|
| PowerOfTwo.BitAnd | Lab2/TestPassModule.cpp:48 | the bitwise AND of two non-negative integers is at most either operand; `BitAndSelf` and `PowerOfTwoTest` pin down its value where the pass uses it |
| PowerOfTwo.BitAndSelf | Lab2/TestPassModule.cpp:48 | `v & v == v` for every non-negative `v` |
| PowerOfTwo.PowerOfTwoTest | Lab2/TestPassModule.cpp:48 | for `Val >= 1`, `(Val & (Val - 1)) == 0` holds exactly when `Val` is a power of two |
| PowerOfTwo.Log2 | Lab2/TestPassModule.cpp:52 | `Log2_64` of a positive value is the floor logarithm: `2^k <= v < 2^(k+1)` |
| PowerOfTwo.Log2Exact | Lab2/TestPassModule.cpp:52 | `v` is a power of two exactly when `v >= 1` and `2^Log2(v) == v` |
| PowerOfTwo.Log2OfPow2 | Lab2/TestPassModule.cpp:52 | logarithm and power are inverse: `Log2(2^k) == k` |
| PowerOfTwo.IsPow2Iff | Lab2/TestPassModule.cpp:48 | the recursive power-of-two predicate holds exactly when `v == 2^k` for some `k` |
| TestPassModule.Qualifies | Lab2/TestPassModule.cpp:45-48 | the operand test: an integer constant whose sign-extended value `Val` has `Val > 0` and `(Val & (Val - 1)) == 0` |
| TestPassModule.Rewritable | Lab2/TestPassModule.cpp:38-48 | a `mul` with at least one operand passing the test: the instructions the walk rewrites |
| TestPassModule.Ready | Lab2/TestPassModule.cpp:30 | the block exists, has a second instruction (`Inst2nd`), and its first instruction has an operand 0 (read at lines 71-72): what the block pass dereferences unchecked |
| TestPassModule.QualifiesExactly | Lab2/TestPassModule.cpp:45-48 | an operand passes the test exactly when it is an integer constant equal to `2^k` for some `k`, so 0 and negative values never match |
| TestPassModule.OneShiftsByZero | Lab2/TestPassModule.cpp:48-52 | the constant 1 of every integer type of at least two bits exists, matches, and gives shift amount 0 |
| TestPassModule.TrueNeverMatches | Lab2/TestPassModule.cpp:46-48 | in `i1` the constant 1 is `true`, sign-extended to -1, so it never matches; no `i1` constant matches at all |
| TestPassModule.ShiftAmount | Lab2/TestPassModule.cpp:52-56 | for a matching constant, `2^k == Val` with `k = Log2(Val)`, and `k` fits as a constant of the matched constant's type |
| TestPassModule.RewritableBySkeleton | Lab2/TestPassModule.cpp:38-48 | whether a `mul` matches depends on its opcode and constants, not on which instructions its operands read |
| TestPassModule.ReplaceAfter | Lab2/TestPassModule.cpp:57-59 | inserting after an instruction and redirecting its uses keeps the function well formed, uses one fresh id, grows that block by one, and leaves the anchor in place with its id |
| TestPassModule.ReplaceAfterSkeletons | Lab2/TestPassModule.cpp:57 | the only change in shape is the new instruction right after the anchor; every other block keeps its shape |
| TestPassModule.ReplaceAfterFacts | Lab2/TestPassModule.cpp:57-59 | the new instruction sits right after the anchor; with it removed, the function is the old one with the anchor's uses redirected; the new instruction has exactly the anchor's former uses, and the anchor has none |
| TestPassModule.OperandStep | Lab2/TestPassModule.cpp:43-59 | one operand iteration keeps the function well formed, keeps the `mul` at its position with its id, and never shrinks the block |
| TestPassModule.OperandStepGrows | Lab2/TestPassModule.cpp:55-57 | an operand iteration only inserts `shl`s with fresh ids right after the `mul`; all other instructions keep their shape and order, and so do the other blocks |
| TestPassModule.OperandStepMatch | Lab2/TestPassModule.cpp:45-59 | on a match at operand `i`, right after the `mul` comes `shl` of operand `1 - i` by a constant `k` of the matched type with `2^k == Val`; the `mul` keeps its place; with the `shl` removed, the function is the old one with the `mul`'s uses redirected |
| TestPassModule.OperandStepMatchUses | Lab2/TestPassModule.cpp:59 | after a match, the slots reading the `shl` are exactly those that read the `mul` before, and the `mul` has no uses |
| TestPassModule.OperandStepNoMatch | Lab2/TestPassModule.cpp:45-48 | an operand that does not match changes nothing |
| TestPassModule.OperandStepKeepsUnused | Lab2/TestPassModule.cpp:54-59 | an operand iteration gives no uses to an instruction that had none |
| TestPassModule.OperandLoop | Lab2/TestPassModule.cpp:42-64 | the operand loop keeps the function well formed and the `mul` in place with its id |
| TestPassModule.OperandLoopGrows | Lab2/TestPassModule.cpp:42-64 | the operand loop only inserts fresh `shl`s right after the `mul` |
| TestPassModule.OperandLoopKeepsUnused | Lab2/TestPassModule.cpp:42-64 | the operand loop gives no uses to an instruction that had none |
| TestPassModule.Visit | Lab2/TestPassModule.cpp:38-65 | visiting an instruction keeps the function well formed and never shrinks the block |
| TestPassModule.VisitGrows | Lab2/TestPassModule.cpp:38-65 | a visit only inserts fresh `shl`s right after the visited instruction |
| TestPassModule.VisitMul | Lab2/TestPassModule.cpp:42 | visiting a `mul` runs the operand step for operand 0, then for operand 1 |
| TestPassModule.VisitKeepsUnused | Lab2/TestPassModule.cpp:38-65 | a visit gives no uses to an instruction that had none |
| TestPassModule.VisitClears | Lab2/TestPassModule.cpp:38-64 | after visiting a matching `mul`, the `mul` has no uses |
| TestPassModule.VisitNoMatch | Lab2/TestPassModule.cpp:38-48 | a non-`mul`, or a `mul` with no matching constant operand, causes no insertion and no redirection |
| TestPassModule.MatchOnUnusedMul | Lab2/TestPassModule.cpp:57-59 | a match on a `mul` without uses only inserts the `shl`, and the `shl` is left without uses |
| TestPassModule.BothOperandsSteps | Lab2/TestPassModule.cpp:42-64 | when both operands match, the second iteration only inserts its `shl` (of operand 0) directly after the `mul` |
| TestPassModule.BothOperandsQualify | Lab2/TestPassModule.cpp:42-64 | when both operands match, two `shl`s are inserted, the second one directly after the `mul`; with both removed, the function is the old one with the `mul`'s uses redirected to the first `shl` |
| TestPassModule.SecondShiftUnused | Lab2/TestPassModule.cpp:42-64 | when both operands match, the second `shl` has no uses |
| TestPassModule.VisitMeasure | Lab2/TestPassModule.cpp:34 | the walk over the growing block terminates: each visit lowers the number of `mul`s still ahead, or leaves the block's length unchanged |
| TestPassModule.Walk | Lab2/TestPassModule.cpp:34-66 | the range-for keeps the function well formed and never reuses ids |
| TestPassModule.WalkKeepsFront | Lab2/TestPassModule.cpp:34-66 | the walk from `pos` keeps every instruction up to `pos` in place by shape, never shrinks the block, and keeps the shape of the other blocks |
| TestPassModule.WalkKeepsOlder | Lab2/TestPassModule.cpp:34-66 | the walk keeps the instructions present before it in their relative order and shape |
| TestPassModule.WalkAddsShifts | Lab2/TestPassModule.cpp:34-66 | every instruction the walk adds is a `shl` |
| TestPassModule.WalkKeepsUnused | Lab2/TestPassModule.cpp:34-66 | the walk gives no uses to an instruction that had none |
| TestPassModule.WalkClears | Lab2/TestPassModule.cpp:34-66 | after the walk, every matching `mul` it passed has no uses |
| TestPassModule.WalkNoMatch | Lab2/TestPassModule.cpp:34-66 | a walk that meets no matching `mul` changes nothing |
| TestPassModule.WalkReady | Lab2/TestPassModule.cpp:30 | after the walk, the block's first instruction is the same and still has an operand 0 |
| TestPassModule.AddFirst | Lab2/TestPassModule.cpp:71-77 | the `add` insertion keeps the function well formed, uses one fresh id, and grows the block by one |
| TestPassModule.AddFirstSkeletons | Lab2/TestPassModule.cpp:71-74 | `add op0, op0` goes in at position 1 of the block; nothing else changes shape |
| TestPassModule.AddFirstFacts | Lab2/TestPassModule.cpp:71-77 | the first instruction stays first; the `add` right after it reads its operand 0 twice; the `add` takes exactly the first instruction's uses, and the first instruction has none |
| TestPassModule.AddFirstKeepsUnused | Lab2/TestPassModule.cpp:71-77 | the `add` insertion gives no uses to an instruction that had none |
| TestPassModule.BlockPass | Lab2/TestPassModule.cpp:27-80 | `runOnBasicBlock` keeps the function well formed and hands out at least one new id |
| TestPassModule.BlockPassLayout | Lab2/TestPassModule.cpp:27-80 | the block grows by at least one; the first instruction stays first and the `add` (the newest instruction) comes right after it; other blocks keep their shape |
| TestPassModule.BlockPassKeepsOlder | Lab2/TestPassModule.cpp:27-80 | the block's original instructions keep their shape and relative order |
| TestPassModule.BlockPassAddsShifts | Lab2/TestPassModule.cpp:27-80 | apart from the `add`, every instruction the block pass adds is a `shl` |
| TestPassModule.BlockPassKeepsUnused | Lab2/TestPassModule.cpp:27-80 | the block pass gives no uses to an instruction that had none |
| TestPassModule.BlockPassClears | Lab2/TestPassModule.cpp:27-80 | after the block pass, the first instruction and every matching `mul` of the block have no uses |
| TestPassModule.BlockPassNoMatch | Lab2/TestPassModule.cpp:27-80 | in a block with no matching `mul`, only the `add` is inserted |
| TestPassModule.BlockPassKeepsReady | Lab2/TestPassModule.cpp:85-89 | the block pass leaves every later block fit for its own pass |
| TestPassModule.FunctionPass | Lab2/TestPassModule.cpp:82-91 | `runOnFunction` keeps the function well formed and keeps its blocks |
| TestPassModule.FunctionPassKeepsUnused | Lab2/TestPassModule.cpp:82-91 | the function pass gives no uses to an instruction that had none |
| TestPassModule.FunctionPassKeepsOlder | Lab2/TestPassModule.cpp:82-91 | every block keeps its original instructions in shape and relative order |
| TestPassModule.FunctionPassLeavesEarlier | Lab2/TestPassModule.cpp:85-89 | blocks already passed keep their shape while later blocks are rewritten |
| TestPassModule.FunctionPassClears | Lab2/TestPassModule.cpp:82-91 | after the function pass, in every block the original first instruction and every matching `mul` have no uses |
| TestPassModule.EightIsTwoCubed | Lab2/TestPassModule.cpp:48-52 | the constant 8 matches, and the shift amount is 3 |
| TestPassModule.SixIsNoPowerOfTwo | Lab2/TestPassModule.cpp:48 | the constant 6 does not match (`6 & 5 == 4`) |
| TestPassModule.MulByEightMatch | Lab2/TestPassModule.cpp:45-59 | in `%0 = mul %a, 8; %1 = add %0, %0; ret %1`, operand 1 matches: `%3 = shl %a, 3` follows the `mul`, and the `add` reads `%3` |
| TestPassModule.MulByEightVisit | Lab2/TestPassModule.cpp:38-65 | the whole visit of that `mul` gives the same result (operand 0 is no constant) |
| TestPassModule.MulByEight | Lab2/TestPassModule.cpp:27-80 | `runOnBasicBlock` on that block gives `mul; %4 = add %a, %a; %3 = shl %a, 3; %1 = add %3, %3; ret %1` |
| TestPassModule.MulBySix | Lab2/TestPassModule.cpp:27-80 | on `%0 = mul %a, 6; ret %0`, only `%2 = add %a, %a` goes in, and the `ret` reads it |
| TestPassModule.RewriteOperand | Lab2/TestPassModule.cpp:43-59 | one operand iteration on the function object ends in the state `OperandStep` describes |
| TestPassModule.RewriteMul | Lab2/TestPassModule.cpp:42-64 | the operand loop on the function object ends in the state `Visit` describes |
| TestPassModule.RunOnBasicBlock | Lab2/TestPassModule.cpp:27-80 | `runOnBasicBlock` ends in the state `BlockPass` describes and returns true |
| TestPassModule.AddAfterFirst | Lab2/TestPassModule.cpp:71-77 | `add op0, op0` built from the first instruction goes in right after it and takes all of its uses: the method ends in exactly the state `AddFirst` gives |
| TestPassModule.RunOnFunction | Lab2/TestPassModule.cpp:82-91 | `runOnFunction` ends in the state `FunctionPass` describes and returns true exactly when the function has a block |
| IR.RedirectOperand | Lab2/TestPassModule.cpp:59 | one operand slot under replace-all-uses-with: a slot reading `from` reads `to`, any other slot is unchanged |
| IR.Redirect | Lab2/TestPassModule.cpp:59 | replace-all-uses-with over every operand slot of every block of the function |
| IR.InsertAt | Lab2/TestPassModule.cpp:57 | the sequence with `x` at index `k`: one longer, everything before `k` unchanged, everything from `k` on shifted by one |
| IR.RedirectUses | Lab2/TestPassModule.cpp:59 | after replace-all-uses-with, `from` has no uses, `to` has its own uses plus those of `from`, and every other value keeps exactly its uses |
| IR.RedirectUnused | Lab2/TestPassModule.cpp:59 | redirecting the uses of a value without uses changes nothing |
| IR.Function.CreateBinary | Lab2/TestPassModule.cpp:55-56 | a new binary instruction with the given operands and a fresh id, not yet in any block |
| IR.Function.InsertAfter | Lab2/TestPassModule.cpp:57 | a new instruction, whose id no instruction of the function has, goes right after the given one; every other instruction keeps its block and order |
| IR.Function.ReplaceAllUsesWith | Lab2/TestPassModule.cpp:59 | every operand slot in the function that read `from` reads `to` |

## Left out

- The read-only report pass in `Laboratori_Compilatori/TestPass.cpp` and the loop and
  dominator-tree printer in `Lab3/LoopInfo.cpp`. They only query and print.
- `TestPass::runOnModule`, which returns false without calling `runOnFunction`, and the
  plugin registration (`Lab2/TestPassModule.cpp:102-144`). These are glue;
  `runOnFunction` is modelled directly.
- All `outs()` printing (`Lab2/TestPassModule.cpp:35, 39, 49, 61`).
- `Inst2nd` is computed and never used. Forming it needs a second instruction, so
  `Ready` asks for one, along with an operand 0 in the first instruction. The source
  demands both of its callers without checking them.
- The host IR's types, dominance and SSA validity are not modelled. An integer constant
  carries only its bit width, of any size. Its value is in the type's signed range and,
  as `getSExtValue` requires, in the range of a signed 64-bit integer (`ConstFits`).
  A wider constant whose value does not fit in 64 bits is not modelled. Non-integer constants are `Arg` operands.
- Instruction identity is an id and a position. The linked list and its use lists are
  modelled as sequences and redirection over operand slots. Unique ids are not part of
  `WellFormed`. Every id the pass creates is fresh, which is what the proofs rely on.
- Machine-width arithmetic is not modelled. `Val` is an unbounded integer within its
  type's signed range. `Val - 1` cannot overflow once `Val > 0`, so this loses nothing.
- `Log2_64` is modelled only on the positive values the pass passes to it.
- PowerOfTwo.BitAnd: its own contract states only that the result is at most either
  operand. Its value on the pass's inputs is fixed by `BitAndSelf` and `PowerOfTwoTest`.
- TestPassModule.OperandStep, TestPassModule.OperandLoop, TestPassModule.Visit,
  TestPassModule.Walk, TestPassModule.AddFirst, TestPassModule.BlockPass and
  TestPassModule.FunctionPass: their own contracts state only well-formedness, ids and
  sizes. What each does is stated by the lemmas named after it.
