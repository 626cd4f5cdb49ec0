# A verified model of the Bitcoin Cash script machine and the code around it

The project models the parts of the Bitcoin Cash wallet library whose correctness is hard to see
from the code: the script interpreter, the escrow compiler that emits programs for it, Merkle trees
and partial Merkle proofs, the codecs with an algebra behind them, and the key algorithms. Every
module holds the definitions, then the lemmas in the order in which they build on each other, and
the main result last.

**Script machine.** `Machine` is the step function on values: two stacks, the condition stack, the
program counter, the last code separator and the op counter, for every opcode that the interpreter
runs by default. `Conditionals` gives scripts a second meaning, as nested blocks with alternating segments,
and proves that the flat run with its condition stack computes it. `Interpreter` is the object that
the library really has: its stacks hold views of byte arrays, DUP and PICK push the same view again,
SPLIT pushes two views of one array, true and false are two shared arrays, and AND, OR, XOR, NUM2BIN
and BIN2NUM write into the memory of their operand. `SharedMachine` is that machine as a function:
views, a heap, and what each step leaves of both. The object is proved to take its steps for every
script and every sharing (`Interpreter.Interpreter.EvaluateScript`), and `SharingLaws` and `SharingRuns`
say exactly when those steps are the ones of the value machine. `Overwriting` has what the in-place
opcodes leave behind, `StepShapes`, `BufferShapes` and `Naming` connect values, buffers and views.

What the opcodes mean is said apart from how they are computed. `NumberOpcodes` states what each arithmetic
opcode leaves, in terms of the integers its operands stand for; `StackOpcodes` has the stack pictures, the
opcodes that others can stand in for, and the laws of the byte-string, bitwise, hash and -VERIFY opcodes;
`SignatureOpcodes` the verdicts of the signature opcodes and the part of the script they sign; `Branches`
which branch of a conditional runs; `RunLimits` what limits hold over every evaluation, and that a push is
minimal exactly if it is the shortest.

**Script numbers.** `ScriptNum` is the signed-magnitude encoding and the checked 64-bit arithmetic,
`NumBuffers` the loops over buffers that implement it, `Widening` the laws of NUM2BIN and BIN2NUM.

**Multisignature.** `Multisig` has the greedy matching and the bitfield-directed Schnorr mode;
`Bitfield` proves the SWAR bit count.

**Escrow.** `Escrow` is the compiler: sorted keys, padded to a power of two, hashed up to a root, and
the redeem script that checks a path to it. `EscrowRun` runs its pieces, `EscrowTheorems` states
compiler correctness, `EscrowStack` extends it to every stack, `EscrowPaths` says who can spend,
`EscrowOrder` that the order of the keys is irrelevant and which order the leaves have, and `EscrowSpend`
carries the result over to the interpreter object.

**Merkle trees.** `MerkleTree` is the flat array built level by level, `PartialTree` the recursive
parser of a partial tree and its soundness, `PartialTreeBuilder` the bits and hashes prescribed by
BIP 37 ("Partial Merkle branch format") and completeness, `MerkleBlock` the object with its shared
counters and the results about whole proofs.

**Codecs.** `CashAddr` (the two-limb checksum, its linearity and what errors it detects),
`CashAddrPrefix` (the letters of the prefix, and a known address), `Der` (strict signatures), `Mnemonic`
(the regrouping of bits into words of BIP 39) and `MnemonicNumbers` (a phrase read as one number).

**Keys.** `Modular`, `Ecdsa`, `Schnorr`, `HdKeys` and `HdChildren` (BIP 32): signing, verifying and
recovering over a cyclic group of prime order, child derivation from private and public keys, and which
bytes are hashed for which child.

Hashes are functions without further properties. Soundness results suppose that no two of the
finitely many strings actually hashed collide, and nothing about other strings: a function with a
fixed output length that is injective everywhere does not exist. Signature checks, encoding rules and
the transaction's lock time are functions in `Script.Env`. An exception thrown inside a step makes
evaluation fail, as `evaluate` catches it.

Where the code departs from its comments or from what a reader expects, the model follows the code:

- `DecodeBitfield` runs in strict mode as a plain function, so its assignments to `this.errstr` throw;
  a bad bitfield therefore fails the whole evaluation instead of yielding false
  (interpreter.js:738-766).
- `checkSequence` names a constant that is not declared, so an enabled OP_CHECKSEQUENCEVERIFY passes
  only operands whose bit 31 is set (interpreter.js:681-700).
- `filterdTxsHash` returns an empty list whenever the proof has one hash, so it misses the only
  transaction of a block of one (`MerkleBlock.FilteredIsExactIff` says exactly when the list is right).
- Values and buffers part ways when an in-place opcode changes a byte that another live view covers
  (`SharingLaws.StepAgreesIff` says exactly when). After DUP the item below a masked, widened or
  re-encoded number changes (`MaskDuplicate`, `WidenDuplicate`, `EncodeDuplicate`), and a verdict that is
  masked to zero changes Interpreter.true for every later comparison (`EraseTrue`).
- `toPublicKey` reads the hash big-endian whatever `endian` says, while `sign` and `sigError` follow it. So
  `calci` fails on a signature of a little-endian hash, unless the two numbers agree or one of two
  accidents happens (`Ecdsa.RecoverableIff`, with an example in `Ecdsa.LittleEndianFails`).
- A second `sign` on the same object uses the nonce of the first one again, whatever the new hash, unless
  it gives a zero part (`Ecdsa.ECDSA.Sign`).
- A phrase of more than 768 words is never valid, because one hash has no more than 256 bits to compare
  (`Mnemonic.PhraseIffValid`).
- The public derivation of a child throws where the private one skips into the hardened range
  (`HdKeys.ChildCommutes` says exactly when, `HdKeys.SkipsIntoHardened` shows a case).
- A padding leaf of the escrow tree is the hash of the empty string, so the empty string passes as a
  key as far as the tree is concerned (`EscrowPaths.OnlyInputKeysCanSpend`).
- A partial Merkle proof is read up to one bit past its flag bytes (`MerkleBlock.OneBitPastTheEnd`).
- The lax DER parser checks the outer length only if it is less than what follows (`Der.LaxIff`).
- The 1000-item limit is checked once, after the loop of `evaluate`, and not at every step.

## Model

| member | source | states |
|---|---|---|
| ScriptNum.DecodeEncode | packages/ducatuscore-lib-cash/lib/crypto/bn.js:42-127 | Reading back the encoding of any integer gives that integer, and the encoding is minimal. |
| ScriptNum.MinimalIffCanonical | packages/ducatuscore-lib-cash/lib/crypto/bn.js:137-161 | A buffer passes the minimality check iff re-encoding its value gives exactly that buffer. |
| ScriptNum.EncodeInjective | packages/ducatuscore-lib-cash/lib/crypto/bn.js:97-127 | No two integers share an encoding. |
| ScriptNum.EncodedLength | packages/ducatuscore-lib-cash/lib/crypto/bn.js:97-127 | An encoding takes at most k bytes iff the magnitude is below 2^(8k-1). |
| ScriptNum.SizeIsEncodedLength | packages/ducatuscore-lib-cash/lib/crypto/bn.js:190-194 | The fractional size test getSize(n) <= k is the same as "the encoding takes at most k bytes", for every k >= 1. |
| ScriptNum.CheckedArithmeticExact | packages/ducatuscore-lib-cash/lib/crypto/bn.js:196-218 | On two operands of at most eight bytes the safe sum, difference and product are exact iff they lie within plus or minus 2^63-1, and overflow otherwise. |
| ScriptNum.TruncatedDivision | packages/ducatuscore-lib-cash/lib/script/interpreter.js:1521-1540 | a = q*b + r for the two operators, and the quotient is never larger than a in magnitude, so it needs no overflow check. |
| ScriptNum.TruncatedRemainder | packages/ducatuscore-lib-cash/lib/script/interpreter.js:1521-1540 | The remainder is smaller than the divisor and no larger than a in magnitude, and it is zero or has the sign of a; with a = q*b + r this is division truncated toward zero. |
| NumberOpcodes.SumDifferenceProduct | packages/ducatuscore-lib-cash/lib/script/interpreter.js:1486-1541 | ADD, SUB and MUL leave the minimal encoding of the sum, of the first operand minus the second, and of the product, iff that lies within plus or minus 2^63-1; otherwise they fail. |
| NumberOpcodes.QuotientRemainder | packages/ducatuscore-lib-cash/lib/script/interpreter.js:1521-1541 | DIV and MOD leave q and r with x = q*y + r, r smaller than y and with the sign of x; both fail on y = 0. |
| NumberOpcodes.Increments | packages/ducatuscore-lib-cash/lib/script/interpreter.js:1444-1464 | 1ADD and 1SUB leave the operand plus one and minus one, as long as that fits 64 bits. |
| NumberOpcodes.SignsAndZero | packages/ducatuscore-lib-cash/lib/script/interpreter.js:1465-1480 | NEGATE, ABS, NOT and 0NOTEQUAL leave the negated number, its magnitude, and whether it is zero or not. |
| NumberOpcodes.Comparisons | packages/ducatuscore-lib-cash/lib/script/interpreter.js:1551-1577 | Each comparison leaves 1 or 0 according to the order of the two numbers. |
| NumberOpcodes.ExtremesAndTruth | packages/ducatuscore-lib-cash/lib/script/interpreter.js:1543-1588 | MIN and MAX leave the smaller and the larger number, BOOLAND and BOOLOR whether both or one of them is not zero. |
| NumberOpcodes.WithinLeaves | packages/ducatuscore-lib-cash/lib/script/interpreter.js:1602-1623 | WITHIN leaves 1 iff the number lies in the interval, its lower end included and its upper end not. |
| NumberOpcodes.Constants | packages/ducatuscore-lib-cash/lib/script/interpreter.js:885-915 | The opcodes for -1 and 1 to 16 leave those numbers; DEPTH and SIZE leave the depth of the stack and the length of the top item. |
| NumberOpcodes.OnlyNumbers | packages/ducatuscore-lib-cash/lib/crypto/bn.js:137-161 | An arithmetic opcode fails on any operand that is too long, or not minimal where that is asked. |
| StackOpcodes.SmallPictures | packages/ducatuscore-lib-cash/lib/script/interpreter.js:1242-1353 | DROP, DUP, NIP, OVER, SWAP, TUCK, 2DROP and 2DUP on the one or two items they work on. |
| StackOpcodes.LargePictures | packages/ducatuscore-lib-cash/lib/script/interpreter.js:1163-1217 | ROT brings the deepest of three items to the top; likewise 3DUP, 2OVER, 2SWAP and 2ROT on three, four and six. |
| StackOpcodes.StandIns | packages/ducatuscore-lib-cash/lib/script/interpreter.js:1137-1353 | On every stack 2DROP is two DROPs, NIP is SWAP DROP, TUCK is SWAP OVER and 2DUP is OVER OVER, failure included. |
| StackOpcodes.FullTurns | packages/ducatuscore-lib-cash/lib/script/interpreter.js:1193-1341 | Three ROTs or 2ROTs, two SWAPs or 2SWAPs restore the stack. |
| StackOpcodes.PickAndRoll | packages/ducatuscore-lib-cash/lib/script/interpreter.js:1286-1309 | PICK copies and ROLL takes out the item that has as many items above it as the popped number says. |
| StackOpcodes.PickOutOfRange | packages/ducatuscore-lib-cash/lib/script/interpreter.js:1286-1309 | Both fail if the popped item is no count, or names no item. |
| StackOpcodes.SplitThenCat | packages/ducatuscore-lib-cash/lib/script/interpreter.js:2071-2097 | SPLIT cuts the item after n bytes, or fails iff n is no count or out of range; CAT puts it together again. |
| StackOpcodes.CatThenSplit | packages/ducatuscore-lib-cash/lib/script/interpreter.js:2053-2069 | CAT joins up to 520 bytes; SPLIT at the length of the first part gives both parts back. |
| StackOpcodes.NumToBinLeaves | packages/ducatuscore-lib-cash/lib/script/interpreter.js:2099-2150 | NUM2BIN leaves the number in exactly as many bytes as asked, iff it fits and that is at most 520; zero becomes zero bytes. |
| StackOpcodes.BinToNumLeaves | packages/ducatuscore-lib-cash/lib/script/interpreter.js:2155-2173 | BIN2NUM leaves the canonical encoding iff it has at most four bytes, or eight with 64-bit integers. |
| StackOpcodes.DoubleHashes | packages/ducatuscore-lib-cash/lib/script/interpreter.js:1625-1654 | If the double hashes are composed as their names say, HASH160 is SHA256 and then RIPEMD160, and HASH256 is SHA256 twice. |
| StackOpcodes.BitwiseBits | packages/ducatuscore-lib-cash/lib/script/interpreter.js:1370-1412 | Every bit of the result of AND, OR and XOR is the conjunction, disjunction or difference of the operands' bits; lengths must agree. |
| StackOpcodes.ReversedTwice | packages/ducatuscore-lib-cash/lib/script/interpreter.js:1792-1804 | REVERSEBYTES leaves the bytes in the other order, and a second one restores them. |
| StackOpcodes.VerifyForms | packages/ducatuscore-lib-cash/lib/script/interpreter.js:1414-1600 | Each -VERIFY opcode is its plain form followed by OP_VERIFY: the same state, and failure in the same cases. |
| StackOpcodes.TrueItems | packages/ducatuscore-lib-cash/lib/script/interpreter.js:1087-1104 | OP_VERIFY and OP_IFDUP act on an item iff it stands for a number other than zero. |
| StackOpcodes.AltStackRoundTrip | packages/ducatuscore-lib-cash/lib/script/interpreter.js:1117-1135 | An item moved to the alternative stack and back restores the state. |
| StackOpcodes.LockTimes | packages/ducatuscore-lib-cash/lib/script/interpreter.js:917-1014 | The lock-time opcodes leave the stack alone, and pass iff their operand is a non-negative number that the transaction has reached, or that has bit 31 set; disabled they are NOPs. |
| NumBuffers.ReverseBuf | packages/ducatuscore-lib-cash/lib/crypto/bn.js:7-13 | The loop builds a reversed copy in fresh memory. |
| NumBuffers.FromSM | packages/ducatuscore-lib-cash/lib/crypto/bn.js:46-64 | The value is the signed-magnitude value of the old bytes; little-endian input is left as it was, big-endian input loses its sign bit in the caller's memory. |
| NumBuffers.ToSM | packages/ducatuscore-lib-cash/lib/crypto/bn.js:97-127 | The in-place writing of the sign byte yields the canonical encoding, in either byte order. |
| NumBuffers.CastToBool | packages/ducatuscore-lib-cash/lib/script/interpreter.js:388-399 | The byte loop answers true iff the value of the buffer is not zero (negative zero included). |
| NumBuffers.MinimallyEncode | packages/ducatuscore-lib-cash/lib/script/interpreter.js:545-586 | For every length the result is the canonical encoding of the value. It is the argument itself, the start of it, or for a zero written at length a new empty buffer; the argument's own bytes become exactly those of Tidied, and nothing outside them changes. |
| NumBuffers.TidiedIff | packages/ducatuscore-lib-cash/lib/script/interpreter.js:545-586 | Those bytes stay as they were iff the argument is minimal, zero, or has a top byte of plain zero. |
| NumBuffers.SignGoesBack | packages/ducatuscore-lib-cash/lib/script/interpreter.js:545-586 | Taking the sign off the trimmed number restores the argument: only one byte was written, and it held the magnitude before. |
| Widening.NumToBinExact | packages/ducatuscore-lib-cash/lib/script/interpreter.js:2099-2150 | Succeeds iff the canonical encoding fits the requested size and the size is at most 520; then the result has exactly that many bytes and the same value. |
| Widening.BinToNumUndoesNumToBin | packages/ducatuscore-lib-cash/lib/script/interpreter.js:2155-2173 | After OP_NUM2BIN, OP_BIN2NUM gives back the canonical encoding iff that is within the integer size. |
| Widening.RoundTripIffMinimal | packages/ducatuscore-lib-cash/lib/script/interpreter.js:2099-2173 | The two opcodes restore the operand itself iff it was minimally encoded. |
| Bitfield.CountBitsIsPopCount | packages/ducatuscore-lib-cash/lib/script/interpreter.js:775-786 | The SWAR bit count of any 31-bit number is the number of its set bits. |
| Bitfield.SetBitsAre | packages/ducatuscore-lib-cash/lib/script/interpreter.js:1892-1906 | The list of set bits that the popcount counts is increasing and complete. |
| Multisig.MatchIffAssignment | packages/ducatuscore-lib-cash/lib/script/interpreter.js:1957-1990 | When no encoding check aborts, greedy matching succeeds iff some strictly increasing choice of keys verifies every signature. |
| Multisig.SchnorrModeIff | packages/ducatuscore-lib-cash/lib/script/interpreter.js:1872-1949 | Schnorr mode yields true iff the dummy has the right byte length, no bit at or above the key count, one set bit per signature, and the j-th signature checks under the key of the j-th set bit. |
| Multisig.CheckMultisigVerdict | packages/ducatuscore-lib-cash/lib/script/interpreter.js:1806-2043 | Exactly keys + signatures + 3 items leave the stack, and the verdict is the existence of an order-preserving assignment or the bitfield's selection. |
| SignatureOpcodes.MultisigVerdict | packages/ducatuscore-lib-cash/lib/script/interpreter.js:1806-2043 | On dummy, signatures, count, keys, count the opcode leaves whether some increasing choice of keys verifies every signature over the script from the last separator on, all signatures deleted; in Schnorr mode, whether the bits of the dummy choose such keys. |
| SignatureOpcodes.MultisigFailsIff | packages/ducatuscore-lib-cash/lib/script/interpreter.js:1957-2043 | With well-encoded operands the greedy mode fails iff a false verdict meets NULLFAIL and a signature that is not empty, or the dummy must be empty and is not. |
| SignatureOpcodes.TrueVerdictIsEncoded | packages/ducatuscore-lib-cash/lib/script/interpreter.js:1957-1990 | A true verdict means that no signature was ill encoded or had 65 bytes, and that the top key was well encoded. |
| SignatureOpcodes.MultisigNeedsCounts | packages/ducatuscore-lib-cash/lib/script/interpreter.js:1806-1870 | The opcode fails without a count of at most 20 keys, op counter included, a count of at most as many signatures, and the items counted. |
| SignatureOpcodes.CheckSigVerdict | packages/ducatuscore-lib-cash/lib/script/interpreter.js:1663-1727 | CHECKSIG fails on an ill-encoded operand, and else leaves whether the key signed the script from the last separator on, the signature deleted. |
| SignatureOpcodes.CheckDataSigVerdict | packages/ducatuscore-lib-cash/lib/script/interpreter.js:1729-1790 | CHECKDATASIG leaves whether the key signed the message between signature and key. |
| SignatureOpcodes.SignedFrom | packages/ducatuscore-lib-cash/lib/script/interpreter.js:1656-1661 | After a separator that was run, and until the next one, the signed part of the script starts right behind it. |
| SignatureOpcodes.SignedFromStart | packages/ducatuscore-lib-cash/lib/script/interpreter.js:1656-1661 | Before any separator the whole script is signed. |
| Conditionals.FlatIsStructured | packages/ducatuscore-lib-cash/lib/script/interpreter.js:841-882 | On any well-formed block program, from any state and in executing or skipped mode, the flat run with the condition stack ends exactly as the structured evaluator does, failure included. |
| Conditionals.ParseIff | packages/ducatuscore-lib-cash/lib/script/interpreter.js:1034-1085 | A chunk list parses as blocks IF/NOTIF ... ELSE* ... ENDIF iff it is the flattening of a well-formed block program, and then of that one. |
| Conditionals.FinishedRunIsBalanced | packages/ducatuscore-lib-cash/lib/script/interpreter.js:1034-1085 | If the run from any state reaches the end with no open condition, the rest of the script closes exactly the blocks that are open. |
| Conditionals.BalancedParses | packages/ducatuscore-lib-cash/lib/script/interpreter.js:1034-1085 | A balanced chunk list parses, and leaves a rest exactly when it closes more blocks than it opens. |
| Conditionals.EvaluateIsStructured | packages/ducatuscore-lib-cash/lib/script/interpreter.js:595-630 | evaluate succeeds only on scripts that parse, and its result is that of running the parsed structure, under the size and stack limits. |
| Conditionals.SkippedIsInert | packages/ducatuscore-lib-cash/lib/script/interpreter.js:841-882 | A skipped segment changes nothing but pc and the op count, and passes iff its chunks are admissible and the op limit is kept. |
| Branches.BranchTaken | packages/ducatuscore-lib-cash/lib/script/interpreter.js:1034-1085 | IF A ELSE B ENDIF runs A iff the top item is not zero, NOTIF iff it is; the other branch only moves the position and the op count. |
| Branches.EvaluateTakesBranch | packages/ducatuscore-lib-cash/lib/script/interpreter.js:1034-1085 | The same for a whole script: its result is that of the branch which the condition names, within the limits. |
| RunLimits.EvaluateHasLimits | packages/ducatuscore-lib-cash/lib/script/interpreter.js:841-863 | Whatever evaluates has no over-long, disabled or misplaced chunk anywhere, at most 201 counted opcodes, and a result of at most 1000 items. |
| RunLimits.NopsEvaluateIff | packages/ducatuscore-lib-cash/lib/script/interpreter.js:595-630 | n opcodes that do nothing evaluate exactly up to n = 201 and 1000 items on the stack. |
| RunLimits.FetchIff | packages/ducatuscore-lib-cash/lib/script/interpreter.js:841-863 | Reading a chunk fails exactly for an undefined or disabled opcode, more than 520 bytes, or the 202nd counted opcode. |
| RunLimits.NoSuchOpcode | packages/ducatuscore-lib-cash/lib/script/interpreter.js:2321-2324 | Numbers that name no opcode fail when run. |
| RunLimits.DoNothing | packages/ducatuscore-lib-cash/lib/script/interpreter.js:917-1032 | OP_NOP and the upgradable NOPs change nothing; the latter fail when they are discouraged. |
| RunLimits.MinimalPushIff | packages/ducatuscore-lib-cash/lib/script/script.js:1165-1191 | A push passes the minimal-data rule iff no opcode stands for its data and no other form of the push is shorter. |
| RunLimits.OnePushEvaluates | packages/ducatuscore-lib-cash/lib/script/interpreter.js:865-877 | A script of one push leaves the data iff it is whole and at most 520 bytes long; a push without data leaves an empty item. |
| Interpreter.Interpreter.ShuffleStack | packages/ducatuscore-lib-cash/lib/script/interpreter.js:1137-1353 | Each drop, copy, swap and splice on buffers is the stack picture of its opcode on the bytes they hold. |
| Interpreter.Interpreter.PickRoll | packages/ducatuscore-lib-cash/lib/script/interpreter.js:1286-1309 | OP_PICK copies and OP_ROLL moves the item at the popped depth; both fail exactly on an unreadable or out-of-range depth. |
| Interpreter.Interpreter.TwoNumbers | packages/ducatuscore-lib-cash/lib/script/interpreter.js:1486-1588 | Fails exactly when an operand or the result is refused, else replaces both operands by the encoding of the result. |
| Interpreter.Interpreter.OneNumber | packages/ducatuscore-lib-cash/lib/script/interpreter.js:1444-1484 | Fails exactly when the operand or the result is refused, else replaces the operand by the encoding of the result. |
| Interpreter.Interpreter.Within | packages/ducatuscore-lib-cash/lib/script/interpreter.js:1602-1623 | Reads three numbers and leaves whether the first lies in the half-open interval of the other two, failing in the same cases as the value semantics. |
| Interpreter.Interpreter.Equal | packages/ducatuscore-lib-cash/lib/script/interpreter.js:1414-1437 | Compares two items byte for byte; the VERIFY form consumes the verdict or fails. |
| Interpreter.Interpreter.Cat | packages/ducatuscore-lib-cash/lib/script/interpreter.js:2053-2069 | Replaces the two top items by their concatenation, in that order, iff it is at most 520 bytes long. |
| Interpreter.Interpreter.Hash | packages/ducatuscore-lib-cash/lib/script/interpreter.js:1625-1654 | Replaces the top item by the hash that the opcode names. |
| Interpreter.Interpreter.ReverseTop | packages/ducatuscore-lib-cash/lib/script/interpreter.js:1792-1803 | Replaces the top item by a reversed copy. |
| Interpreter.Interpreter.IfDup | packages/ducatuscore-lib-cash/lib/script/interpreter.js:1219-1232 | Copies the top item iff its value is not zero. |
| Interpreter.Interpreter.PushConstant | packages/ducatuscore-lib-cash/lib/script/interpreter.js:885-1366 | Small integers, OP_DEPTH and OP_SIZE push the canonical encoding of the number they stand for. |
| Interpreter.Interpreter.CheckSignature | packages/ducatuscore-lib-cash/lib/script/interpreter.js:1663-1727 | Refuses badly encoded operands, removes signature and key, and leaves or consumes the verdict; a failed check with a non-empty signature fails under NULLFAIL. |
| Interpreter.Interpreter.CheckDataSignature | packages/ducatuscore-lib-cash/lib/script/interpreter.js:1729-1790 | The same for a signature over a message on the stack. |
| Interpreter.Interpreter.ToAltStack | packages/ducatuscore-lib-cash/lib/script/interpreter.js:1117-1125 | Moves the top buffer to the alternative stack, the rest unchanged. |
| Interpreter.Interpreter.FromAltStack | packages/ducatuscore-lib-cash/lib/script/interpreter.js:1127-1135 | Moves the top buffer of the alternative stack back, the rest unchanged. |
| Interpreter.Interpreter.Split | packages/ducatuscore-lib-cash/lib/script/interpreter.js:2071-2093 | The operand is replaced by two views of one fresh copy, holding its two parts. |
| Views.OverwriteBits | packages/ducatuscore-lib-cash/lib/script/interpreter.js:1389-1407 | The in-place loop leaves in the first operand, for any overlap of the two operands, exactly the bytes of RunOver, and writes nothing outside it. |
| Overwriting.RunOverIsBitwise | packages/ducatuscore-lib-cash/lib/script/interpreter.js:1389-1407 | Unless the second operand starts below the first in the same memory and reaches into it, those bytes are the bitwise operation. |
| Views.Resize | packages/ducatuscore-lib-cash/lib/script/interpreter.js:2115-2149 | Exactly the canonical or widened operand, or none, in the operand's own memory or in new memory as the value decides; the operand's own bytes become exactly those of AfterResize, for minimal and other operands. |
| Overwriting.WideningKeepsIff | packages/ducatuscore-lib-cash/lib/script/interpreter.js:2115-2149 | Widening leaves its operand as it was iff that is not a canonical negative number; such a number is left as its absolute value. |
| Interpreter.Interpreter.BitwiseInPlace | packages/ducatuscore-lib-cash/lib/script/interpreter.js:1370-1412 | Pops one operand, leaves the other on top, and rewrites the memory of that one exactly as the loop does, overlapping operands included. |
| Interpreter.Interpreter.NumToBinInPlace | packages/ducatuscore-lib-cash/lib/script/interpreter.js:2099-2150 | Leaves the widened number on top, in the operand, the start of it, or new memory as its value decides, and rewrites the operand's own memory exactly. |
| Interpreter.Interpreter.BinToNumInPlace | packages/ducatuscore-lib-cash/lib/script/interpreter.js:2155-2173 | Leaves the canonical encoding on top, in the operand, the start of it, or new memory as its value decides, and rewrites the operand's own memory exactly. |
| Interpreter.Interpreter.RunInPlace | packages/ducatuscore-lib-cash/lib/script/interpreter.js:1370-1410 | The in-place opcodes fail exactly when the value semantics do, leave the buffers that the machine on shared memory leaves, and change memory exactly as it does, whoever else holds it. |
| Interpreter.Interpreter.MaskDuplicate | packages/ducatuscore-lib-cash/lib/script/interpreter.js:1389-1407 | After OP_DUP, a mask and OP_AND the duplicate has changed as well: the stack is what value semantics promises iff the mask clears no bit. |
| Interpreter.Interpreter.WidenDuplicate | packages/ducatuscore-lib-cash/lib/script/interpreter.js:2128-2133 | After OP_DUP and OP_NUM2BIN to more bytes the new item has the size and the value, and the item below is what AfterResize says: right iff it is not a canonical negative number, else without its sign. |
| Interpreter.Interpreter.EncodeDuplicate | packages/ducatuscore-lib-cash/lib/script/interpreter.js:2155-2173 | After OP_DUP and OP_BIN2NUM the new item is canonical, and the item below is right iff the encoding is found without writing. |
| Interpreter.Interpreter.EraseTrue | packages/ducatuscore-lib-cash/lib/script/interpreter.js:247-248 | OP_EQUAL on two equal items, a zero mask and OP_AND: the buffer written is Interpreter.true itself, which no longer holds 1 afterwards. |
| Interpreter.Interpreter.MatchSignatures | packages/ducatuscore-lib-cash/lib/script/interpreter.js:1951-1990 | The loop over remaining signatures and keys, reading the stack from the top, computes the greedy matching. |
| Interpreter.Interpreter.NextSetBit | packages/ducatuscore-lib-cash/lib/script/interpreter.js:1902-1910 | The inner loop over the bitfield stops at the next set bit, or at the key count. |
| Multisig.DecodeBits | packages/ducatuscore-lib-cash/lib/script/interpreter.js:738-766 | The loop of shifts and ORs over the bytes is the little-endian number, and the mask test is its range. |
| Interpreter.Interpreter.CheckPair | packages/ducatuscore-lib-cash/lib/script/interpreter.js:1912-1949 | The signature and key compared are those at the given places counted from the bottom; one past the last key is the key count itself, and further is an exception. |
| Interpreter.Interpreter.ReadCounts | packages/ducatuscore-lib-cash/lib/script/interpreter.js:1806-1870 | Reads the key and signature counts with all their limits, and adds the key count to the op counter. |
| Interpreter.Interpreter.MatchByBitfield | packages/ducatuscore-lib-cash/lib/script/interpreter.js:1872-1949 | The loops over set bits, with their sanity checks and the read past the last key, compute the bitfield-directed matching. |
| Interpreter.Interpreter.CleanUp | packages/ducatuscore-lib-cash/lib/script/interpreter.js:2005-2019 | Exactly keys + signatures + 2 items are popped, or the call fails because a failed check left a signature that is not empty. |
| Interpreter.Interpreter.CheckMultisignature | packages/ducatuscore-lib-cash/lib/script/interpreter.js:1806-2047 | The opcode as a whole does to the buffers what the value specification does to the stack, including the op counter. |
| Interpreter.Interpreter.ConditionalOp | packages/ducatuscore-lib-cash/lib/script/interpreter.js:1034-1085 | IF, NOTIF, ELSE and ENDIF change the two stacks and the condition stack as specified, and fail in the same cases. |
| Interpreter.Interpreter.FetchChunk | packages/ducatuscore-lib-cash/lib/script/interpreter.js:841-863 | Reads the chunk, advances pc and the op counter, and enforces the push-size, op-count and disabled-opcode limits in that order. |
| Interpreter.Interpreter.PushChunk | packages/ducatuscore-lib-cash/lib/script/interpreter.js:865-877 | Pushes the data of the chunk, or the shared empty buffer, under the minimal-push rule. |
| Interpreter.Interpreter.ExecuteOp | packages/ducatuscore-lib-cash/lib/script/interpreter.js:881-2173 | Any opcode other than a push or a conditional fails exactly when the value semantics do, and leaves exactly the buffers, the new memory and the rewritten memory that the machine on shared memory describes. |
| Interpreter.Interpreter.StepOnce | packages/ducatuscore-lib-cash/lib/script/interpreter.js:792-882 | One call of step is one step of the machine on shared memory, success and failure alike, whatever buffers share memory. |
| Interpreter.Interpreter.EvaluateScript | packages/ducatuscore-lib-cash/lib/script/interpreter.js:595-630 | A whole run is the run of the machine on shared memory, for every script and every sharing. If that run disturbs no live view, which the initial state decides, it is also the value machine's run. |
| SharingLaws.StepAgreesIff | packages/ducatuscore-lib-cash/lib/script/interpreter.js:1370-2173 | On shared memory a step agrees with the value machine, in both stacks, the script's data and Interpreter.true, iff it is harmless: no live view covers a byte that the opcode changes, and no overlapping operand has spoilt a bitwise result. |
| SharingRuns.RunAgreesIff | packages/ducatuscore-lib-cash/lib/script/interpreter.js:595-630 | A run agrees with the value machine after every one of its steps iff every in-place opcode that it executes is harmless. |
| SharingRuns.NoWritesNoHarm | packages/ducatuscore-lib-cash/lib/script/interpreter.js:595-630 | A script without in-place opcodes is harmless whatever is shared. |
| SharingRuns.StaysWellFormed | packages/ducatuscore-lib-cash/lib/script/interpreter.js:792-882 | Every step keeps all live views inside their memory, and makes at most the one block of memory named after it. |
| Escrow.CeilLog2Least | packages/ducatuscore-lib-cash/lib/script/escrow.js:34-36 | The number of levels is the least n with at most 2^n keys to hold. |
| Escrow.RedeemScriptStructure | packages/ducatuscore-lib-cash/lib/script/escrow.js:94-128 | The emitted operation list is exactly one IF/ELSE block whose ELSE branch is the spending program. |
| EscrowTheorems.EscrowScriptCorrect | packages/ducatuscore-lib-cash/lib/script/escrow.js:87-128 | For 1 to 2^16 keys and any spend whose top item does not hash to the reclaim key, evaluation leaves exactly true iff the path leads from the key to the generated root, the messages differ and both data signatures are valid. |
| EscrowStack.EscrowScriptOnAnyStack | packages/ducatuscore-lib-cash/lib/script/escrow.js:87-128 | For every stack whose top item does not hash to the reclaim key, of whatever height, evaluation leaves exactly true iff the stack holds the items of an accepted spend. |
| EscrowTheorems.ReclaimCorrect | packages/ducatuscore-lib-cash/lib/script/escrow.js:94-128 | With the reclaim key on top the script accepts iff the one transaction signature checks. |
| EscrowTheorems.RedeemScriptLength | packages/ducatuscore-lib-cash/lib/script/escrow.js:94-128 | The script never exceeds 2856 bytes, far below the size limit of evaluate. |
| EscrowTheorems.RedeemScriptNeverWrites | packages/ducatuscore-lib-cash/lib/script/escrow.js:94-128 | No opcode of the script writes an operand in place. |
| EscrowPaths.EveryInputKeyCanSpend | packages/ducatuscore-lib-cash/lib/script/escrow.js:38-85 | For every input key there are siblings and flags that make the script accept two distinct messages signed by it. |
| EscrowPaths.OnlyInputKeysCanSpend | packages/ducatuscore-lib-cash/lib/script/escrow.js:38-56 | Unless two of the strings hashed collide, an accepted key is an input key, or the empty string when the tree has padding leaves. |
| EscrowOrder.RootIgnoresOrder | packages/ducatuscore-lib-cash/lib/script/escrow.js:46-56 | Any reordering of the keys gives the same root. |
| EscrowOrder.ScriptIgnoresOrder | packages/ducatuscore-lib-cash/lib/script/escrow.js:94-128 | Any reordering of the keys gives the same redeem script. |
| EscrowOrder.LeavesAscend | packages/ducatuscore-lib-cash/lib/script/escrow.js:46-56 | The leaves are the keys in ascending order of the numbers they spell, and then empty strings. |
| EscrowSpend.RunSpend | packages/ducatuscore-lib-cash/lib/script/interpreter.js:595-630 | On the interpreter object itself, whatever the stack holds and whatever buffers its items share, the escrow script is accepted iff the stack is that of an accepted spend. |
| MerkleTree.GetMerkleTree | packages/ducatuscore-lib-cash/lib/block/block.js:203-227 | Level k of the flat array starts at the sum of the widths below it and holds the duplicate-last tree, nothing else is in it, and its last entry is the root; no transactions give one null hash. |
| MerkleTree.WidthAtHeight | packages/ducatuscore-lib-cash/lib/block/merkleblock.js:243-258 | The height is the first at which the width is one. |
| MerkleTree.RootOfPairs | packages/ducatuscore-lib-cash/lib/block/block.js:203-227 | The root of one hash is itself; the root of several is the root of their pairs, each hashed left before right and a last one with itself. |
| PartialTree.WidthsAgreeIff | packages/ducatuscore-lib-cash/lib/block/merkleblock.js:243-245 | The 32-bit width is the width of the tree at every height up to 30 iff there are at most 2^30 transactions. |
| PartialTree.Sound | packages/ducatuscore-lib-cash/lib/block/merkleblock.js:200-235 | A traversal that ends with the hash of the real node has consumed, at each place, the hash of the real node there, and its matches are leaves below that node in increasing position. |
| PartialTreeBuilder.Complete | packages/ducatuscore-lib-cash/lib/block/merkleblock.js:200-235 | Started on the bits and hashes that BIP 37 prescribes for a node, the traversal returns that node's hash, the matched leaves, and has used exactly those bits and hashes. |
| PartialTreeBuilder.PackedFlag | packages/ducatuscore-lib-cash/lib/block/merkleblock.js:215-217 | Flag bits packed eight to a byte read back one by one, and read as zero past the end. |
| PartialTree.FlagBitIs | packages/ducatuscore-lib-cash/lib/block/merkleblock.js:210-217 | Flag bit i is bit i of the flag bytes read as one little-endian number. |
| MerkleBlock.OneBitPastTheEnd | packages/ducatuscore-lib-cash/lib/block/merkleblock.js:200-217 | One bit past the flag bytes is still read, as zero; then the traversal stops. |
| MerkleBlock.MerkleBlock.CalcTreeHeight | packages/ducatuscore-lib-cash/lib/block/merkleblock.js:252-258 | The search ends, at height 31 at the latest for any transaction count, with the first height of width at most one. |
| MerkleBlock.MerkleBlock.TraverseMerkleTree | packages/ducatuscore-lib-cash/lib/block/merkleblock.js:200-235 | The recursion over shared counters returns and leaves behind exactly what the traversal function computes, exceptions included. |
| MerkleBlock.MerkleBlock.ValidMerkleTree | packages/ducatuscore-lib-cash/lib/block/merkleblock.js:131-152 | The answer, or the exception, is the one the traversal function determines. |
| MerkleBlock.ValidIff | packages/ducatuscore-lib-cash/lib/block/merkleblock.js:131-152 | Accepted exactly if there are no more hashes than transactions and than flag bits, the traversal uses all of them, and its hash is the given root. |
| MerkleBlock.MerkleBlock.FilterdTxsHash | packages/ducatuscore-lib-cash/lib/block/merkleblock.js:158-184 | The list, or the exception, is the one the traversal function determines. |
| MerkleBlock.MerkleBlock.HasTx | packages/ducatuscore-lib-cash/lib/block/merkleblock.js:265-280 | Membership in the matches of the same traversal; the root is not looked at. |
| MerkleBlock.ValidProofIsSound | packages/ducatuscore-lib-cash/lib/block/merkleblock.js:131-152 | A proof accepted against a block's root places every hash it carries correctly in that block's tree and matches only transactions of the block, in order, unless two strings hashed collide. |
| MerkleBlock.ProofForIsValid | packages/ducatuscore-lib-cash/lib/block/merkleblock.js:131-152 | For every block of up to 2^30 transactions and every set of matches the prescribed proof is accepted, and hasTransaction finds exactly the matched transactions. |
| MerkleBlock.FilteredIsExactIff | packages/ducatuscore-lib-cash/lib/block/merkleblock.js:158-184 | For every accepted proof filterdTxsHash returns exactly the matches of the traversal iff the tree is not a single leaf whose flag bit is set; below 2^31 transactions that is a block of one. |
| MerkleBlock.PrescribedListIff | packages/ducatuscore-lib-cash/lib/block/merkleblock.js:158-184 | On the prescribed proofs the list is the matched transactions, in order, iff it is not the case of a single transaction that matches. |
| MerkleBlock.FilteredOfValid | packages/ducatuscore-lib-cash/lib/block/merkleblock.js:158-184 | For an accepted proof with several hashes filterdTxsHash and hasTransaction agree. |
| MerkleBlock.FilteredUsesAll | packages/ducatuscore-lib-cash/lib/block/merkleblock.js:158-184 | A list is only given for a proof that keeps the size checks and whose hashes are all used, or for a single hash. |
| CashAddr.Polymod | packages/ducatuscore-lib-cash/lib/address.js:764-801 | On data of any length the two signed 32-bit limbs return the number of the single 40-bit register of the CashAddr specification. |
| CashAddr.ChecksumToArray | packages/ducatuscore-lib-cash/lib/address.js:749-756 | The eight symbols spell the checksum in base 32, most significant first. |
| CashAddr.CheckPayload | packages/ducatuscore-lib-cash/lib/address.js:298-309 | The check holds iff the register is zero for the prefix symbols, a zero and the payload. |
| CashAddr.AppendChecksum | packages/ducatuscore-lib-cash/lib/address.js:694-700 | The payload with its checksum appended is valid, and no other eight symbols would make it so. |
| CashAddr.RunLinear | packages/ducatuscore-lib-cash/lib/address.js:764-801 | The register is linear under exclusive or, over data of any length. |
| CashAddr.RunInjective | packages/ducatuscore-lib-cash/lib/address.js:764-801 | Only the zero state reaches zero over zero symbols, however many; with linearity, no two states are merged by any data. |
| CashAddr.WindowErrorsDetected | packages/ducatuscore-lib-cash/lib/address.js:298-309 | Two different payloads of the same length that differ only inside a window of eight symbols are never both valid. |
| CashAddrPrefix.PrefixSymbols | packages/ducatuscore-lib-cash/lib/address.js:298-309 | The symbols before the payload are the character codes modulo 32, and one zero. |
| CashAddrPrefix.CaseIsIrrelevant | packages/ducatuscore-lib-cash/lib/address.js:298-309 | A prefix in capitals and one in small letters make the same payloads valid. |
| CashAddrPrefix.PrefixErrorsDetected | packages/ducatuscore-lib-cash/lib/address.js:298-309 | Two prefixes whose letters differ, but only inside a window of eight, never make the same payload valid. |
| CashAddrPrefix.ExampleIsValid | packages/ducatuscore-lib-cash/lib/address.js:764-801 | A known address is valid under bitcoincash, which fixes the start of the register, its generators and the last exclusive or. |
| Der.ToDERIsDER | packages/ducatuscore-lib-cash/lib/crypto/signature.js:216-243 | What toDER writes, up to 72 bytes, passes isDER and parses back to the same pair, strictly or not. |
| Der.SmallEnough | packages/ducatuscore-lib-cash/lib/crypto/signature.js:216-243 | Pairs below 2^256 always stay within 72 bytes. |
| Der.IsDERIff | packages/ducatuscore-lib-cash/lib/crypto/signature.js:267-394 | A buffer passes isDER iff it is at most 72 bytes long, parses strictly, and toDER of the result is the same buffer byte for byte. |
| Der.CanonicalIff | packages/ducatuscore-lib-cash/lib/crypto/signature.js:320-347 | A string of bytes meets the sign and padding rules iff it is the content that toDER writes for its own value. |
| Der.ToDERLayout | packages/ducatuscore-lib-cash/lib/crypto/signature.js:216-243 | The bytes written are tag, length, and for each number a tag, a length and its shortest form with a clear sign bit. |
| Der.LaxIff | packages/ducatuscore-lib-cash/lib/crypto/signature.js:139-213 | On well-tagged fields the strict parser wants exact lengths and no rest; the lax one checks the outer length only if it is less than what follows, and then ignores a rest. |
| Mnemonic.EntropyToMnemonic | packages/ducatuscore-mnemonic/lib/mnemonic.js:247-269 | Throws exactly when the bits and their checksum do not fill whole words, which up to 1024 bytes means that the entropy is not a multiple of four bytes; else returns the words, in groups of eleven bits. |
| Mnemonic.EntropyChecksum | packages/ducatuscore-mnemonic/lib/mnemonic.js:278-293 | The padded binary string of the hash is its 256 bits, of which one is taken for every four bytes. |
| Mnemonic.IsValid | packages/ducatuscore-mnemonic/lib/mnemonic.js:110-135 | False on an unknown word, an exception when the number of known words is not a multiple of three, else whether the checksum of the regrouped bytes agrees. |
| Mnemonic.PhraseIffValid | packages/ducatuscore-mnemonic/lib/mnemonic.js:110-135 | A phrase of 3k words is valid iff k is at most 256 and it is the phrase of an entropy of 4k bytes, which then is the one read back from it. |
| Mnemonic.OwnPhraseValidIff | packages/ducatuscore-mnemonic/lib/mnemonic.js:110-135 | The phrase that an entropy is turned into is valid iff the entropy has at most 1024 bytes. |
| MnemonicNumbers.PhraseSpells | packages/ducatuscore-mnemonic/lib/mnemonic.js:247-293 | The 3k words of an entropy of 4k bytes spell, in base 2048, the entropy times 2^k plus the first k bits of its SHA-256 hash. |
| MnemonicNumbers.ValidIffSpelled | packages/ducatuscore-mnemonic/lib/mnemonic.js:110-135 | A phrase of 3k words, k at most 256, is valid iff its words are known and spell such a number for some entropy. |
| Ecdsa.ECDSA.FindSignature | packages/ducatuscore-lib-cash/lib/crypto/ecdsa.js:192-222 | The loop tries a preset nonce first and then the deterministic ones, returns the low-S form of the first attempt with both parts nonzero, and leaves the nonce that worked in the object. |
| Ecdsa.FirstUsableIs | packages/ducatuscore-lib-cash/lib/crypto/ecdsa.js:201-222 | The nonce used is the preset one if it works, and otherwise the first deterministic one that does. |
| Ecdsa.ECDSA.Sign | packages/ducatuscore-lib-cash/lib/crypto/ecdsa.js:224-242 | Throws unless the hash has 32 bytes. The signature passes verification with the same byte order and has s at most n/2, and an object that has a nonce which works uses it again. |
| Ecdsa.ECDSA.Verify | packages/ducatuscore-lib-cash/lib/crypto/ecdsa.js:160-190 | True iff the hash has 32 bytes and nothing is wrong with the signature for the number read in its byte order. |
| Ecdsa.VerifiesIff | packages/ducatuscore-lib-cash/lib/crypto/ecdsa.js:160-190 | A signature passes sigError iff its parts are in range and some nonce satisfies the signing equation with it. |
| Ecdsa.SignedVerifies | packages/ducatuscore-lib-cash/lib/crypto/ecdsa.js:160-222 | Every attempt with nonzero parts yields a signature with s at most n/2 that passes sigError. |
| Ecdsa.ECDSA.CalcI | packages/ducatuscore-lib-cash/lib/crypto/ecdsa.js:38-57 | Succeeds iff some index recovers the signer's key from the number that the hash is big-endian, and then sets the first of them. |
| Ecdsa.RecoversFromNonce | packages/ducatuscore-lib-cash/lib/crypto/ecdsa.js:115-158 | The index of the nonce's point recovers the signer's key iff the number signed and the number read by toPublicKey agree modulo n. |
| Ecdsa.RecoveryIndex | packages/ducatuscore-lib-cash/lib/crypto/ecdsa.js:115-158 | The index is the parity of the nonce's y plus two if its x was reduced: with it the signer's key is recovered. |
| Ecdsa.ReadingIs | packages/ducatuscore-lib-cash/lib/crypto/ecdsa.js:224-242 | The number signed is the hash read little-endian or big-endian, as the object says. |
| Ecdsa.RecoversIff | packages/ducatuscore-lib-cash/lib/crypto/ecdsa.js:115-158 | An index recovers the key d iff its candidate point exists and satisfies the signing equation of d for the number read. |
| Ecdsa.RecoverableIff | packages/ducatuscore-lib-cash/lib/crypto/ecdsa.js:38-57 | For a signature made with one number and read with another, some index recovers the signer's key iff the numbers agree, or cancel with twice the key's share, or a point with the other x fits. |
| Ecdsa.FreshSignatureRecovers | packages/ducatuscore-lib-cash/lib/crypto/ecdsa.js:38-57 | For every fresh signature on a big-endian hash calci succeeds; on a little-endian hash, which recovery reads the other way round, exactly under the condition of RecoverableIff. |
| Ecdsa.LittleEndianFails | packages/ducatuscore-lib-cash/lib/crypto/ecdsa.js:115-158 | Where it fails: key and nonce 1 and the hash 01 00 ... 00 in little-endian order give a signature that verifies and that no index recovers. |
| Schnorr.VerifiesIff | packages/ducatuscore-lib-cash/lib/crypto/schnorr.js:148-191 | A signature in range passes sigError iff some nonce whose point has a square y makes it. |
| Schnorr.SignedVerifies | packages/ducatuscore-lib-cash/lib/crypto/schnorr.js:113-191 | The signature passes its own verifier whether or not the nonce was flipped. |
| HdKeys.ChildCommutes | packages/ducatuscore-lib-cash/lib/hdpublickey.js:152-183 | Deriving child i from the public key gives the public half of the private child iff some index from i on, before the hardened range, gives a point other than infinity, which the public key alone decides; otherwise it throws. |
| HdKeys.PathCommutes | packages/ducatuscore-lib-cash/lib/hdpublickey.js:185-199 | For every path of non-hardened indexes the public derivation is exactly the public half of the private one, or throws iff at some step no such index is left. |
| HdKeys.NotBelow | packages/ducatuscore-lib-cash/lib/hdprivatekey.js:224-275 | Whatever child the private search returns has a valid key and an index from the given one on and below 2^32, and every index it skipped has none. |
| HdChildren.PrivateChildIs | packages/ducatuscore-lib-cash/lib/hdprivatekey.js:224-275 | The child at index j has as key the left half of the hash plus the parent's key modulo the order, as chain code the right half; the hash is over the compressed point, or a zero byte and the key, and then j in four bytes, big-endian. |
| HdChildren.OnlyZeroIsSkipped | packages/ducatuscore-lib-cash/lib/hdprivatekey.js:224-275 | From the index asked for on, the search passes over exactly the indexes whose hash cancels the parent's key. |
| HdChildren.PublicChildIs | packages/ducatuscore-lib-cash/lib/hdpublickey.js:152-183 | The same for a public key and indexes before the hardened range, with the left half times the generator added to the point. |
| HdChildren.PathsCompose | packages/ducatuscore-lib-cash/lib/hdprivatekey.js:278-289 | A path is followed from left to right: the end of p followed by q is the end of q from the end of p. |
| HdKeys.SkipsIntoHardened | packages/ducatuscore-lib-cash/lib/hdpublickey.js:152-183 | Where the two part ways: a key and hashes for which the last non-hardened index throws from the public key, while the private derivation returns the first hardened child. |

## Left out

- FindSignature: the deterministic nonces come from a function, and one of the attempts up to a limit is taken to be usable; RFC 6979 and the loop without an end are not modelled.
- Curve arithmetic: a point is the number that the generator is multiplied with, and coordinates obey the laws stated in `Lawful`, which contradict nothing (`Ecdsa.LawsAreConsistent`). The order of the group is a parameter of the curve; `Ecdsa.ConstantsFit` says that the constants of secp256k1 fit.
- Blocks of more than 2^30 transactions, where the 32-bit shifts overflow, only appear in `PartialTree.WidthsAgreeIff`; the results about whole proofs suppose at most 2^30.
- Transactions, signature hashes, and parsing or building scripts: scripts are sequences of chunks, and signature checks are functions of the signature, the key and the script from the last code separator.
- The rules for encoding signatures and keys under the various flags, the matrix of flags in `verify`, and the count of signature checks: predicates in `Script.Env`, or absent.
- The native introspection opcodes: their flag is off, so they are bad opcodes here.
- OP_CHECKLOCKTIMEVERIFY: the comparison with the transaction is one function, `lockTimeReached`.
- The serialized size of a script is a parameter of `evaluate`; RedeemScriptLength shows that the escrow script is far below the limit.
- The check in `buildEscrowOut` that refuses more than 65535 keys: the escrow results hold for up to 2^16.
- Rounding in `Math.log2`: the number of levels is the exact one.
- Merkle hashes travel as hexadecimal strings in the library; here they are bytes.
- The division by 32 in `checksumToArray` is the division of whole numbers; the library uses numbers below 2^40, for which floating point is exact.
- Above the level of five-bit symbols: `base32`, `convertBits`, the version byte, and the choice of a prefix by network.
- Which error a failing step reports: the model names one, but the results only say when a step fails.
- `fromDER` takes any 64-byte buffer for a Schnorr signature; the DER results are about `parseDER`, `toDER` and `isDER`.
- Splitting, joining and Unicode normalisation of phrases, the choice of a dictionary, and the seed.
- HD paths as strings (they are lists of indexes here), the serialization of extended keys, and the cache of the public key.
- Random numbers, RPC clients, storage, services and the peer-to-peer layer: no hard property of their own.
