# Encoding tables and operand constraints of a retargetable code generator

This project is a Dafny model of two parts of the code generator's ISA layer, with proofs
about them.

- **Encoding tables** (`enc_tables.dfy`, module `EncTables`). A two-level hash table maps a
  controlling type and an opcode to two things: the offset of an encoding list and a default
  legalization code. The level 1 table is keyed by type. Each of its rows gives a
  power-of-two window into the level 2 table, which is keyed by opcode. An encoding list is
  a packed sequence of 16-bit words of three kinds:
  - recipe words, each followed by encoding bits;
  - predicate checks, which can skip words;
  - legalization terminators.

  The `Encodings` iterator interprets such a list. Each call of `next` yields the next
  encoding whose predicates hold. Once no encoding is left, the legalization code says how
  the instruction must be rewritten instead.
- **Operand constraints** (`constraints.dfy`, module `Constraints`). These are the register
  constraints that each encoding recipe puts on its operands: any register of a class, a
  fixed register, tied to an operand on the other side, or a stack slot. Each recipe also
  carries three summary flags over its arrays. The module also models
  `BranchRange::contains`, which decides whether a branch displacement fits in a signed
  field of a given number of bits.
- `ints.dfy` (module `Ints`) holds the machine integer types, powers of two and 32-bit
  wrapping arithmetic. `wrappers.dfy` holds `Option`.

The iterator is modelled as a class `Encodings`. Its mutable fields are `offset` and
`legalize`, and its read-only tables are `const` fields. `Next` is a `while` loop over the
list. It is proved against pure specification functions:
- `StepAt` interprets one word;
- `Advance` is one call of `next`;
- `Drain` is everything the iterator still yields, and the state it ends in.

The lemmas about those functions give the meaning of each word kind, skipping and
termination. A word is decoded by `DecodeWord` into a tagged `Word`. `EncodeWord`, the
packing that this decoding implies, is proved to be its inverse on every word it can write.

The following are parameters of the model: the hashed `probe` over a table, the predicate
functions in the tables, and the ISA settings view. A probe is an arbitrary function of the
table's keys, and each call site requires what `probe` promises: a hit returns a row whose
key matches, and a miss returns an empty row.

## Model

| member | source | states |
|---|---|---|
| `Constraints.HasFixedReg` | lib/cretonne/src/isa/constraints.rs:71-75 | true exactly when some constraint in the array is `FixedReg` |
| `Constraints.HasTied` | lib/cretonne/src/isa/constraints.rs:77-78 | true exactly when some constraint in the array is `Tied` |
| `Constraints.FlagsMeaning` | lib/cretonne/src/isa/constraints.rs:71-78 | for well-formed constraints (ties stored on both sides as documented at lines 36-44, flags agreeing with the arrays): `fixed_ins`/`fixed_outs` hold iff the inputs/outputs contain a fixed register, and `tied_ops` holds iff a tied input exists, iff a tied output exists |
| `Constraints.TiedPairsBalanced` | lib/cretonne/src/isa/constraints.rs:36-44 | when every `Tied(peer)` on one side names an entry on the other side that is tied back to it and has the same register class, there are exactly as many tied inputs as tied outputs |
| `Constraints.Displacement` | lib/cretonne/src/isa/constraints.rs:108 | the `i32` displacement is congruent to `dest - (branch + origin)` modulo 2^32 (wrapping subtraction) |
| `Constraints.SignExtendRoundTrip` | lib/cretonne/src/isa/constraints.rs:109-110 | `(x << s) >> s == x` on `i32` with `s = 32 - bits` iff `-2^(bits-1) <= x < 2^(bits-1)` |
| `Constraints.Contains` | lib/cretonne/src/isa/constraints.rs:101-111 | the branch range contains the destination iff the wrapped displacement lies in `[-2^(bits-1), 2^(bits-1))` |
| `Constraints.ContainsOrigin` | lib/cretonne/src/isa/constraints.rs:92-94 | a destination at the origin (displacement 0) is always in range |
| `Constraints.ContainsTranslationInvariant` | lib/cretonne/src/isa/constraints.rs:106-110 | only the wrapped difference matters: moving branch and destination by the same amount modulo 2^32 leaves the answer unchanged |
| `Constraints.T1ContainsNearby` | lib/cretonne/src/isa/constraints.rs:120-125 | the ARM T1 range (origin 4, 9 bits) contains (0,0), (0,2), (2,0) and (1000,1000) |
| `Constraints.T1ForwardLimit` | lib/cretonne/src/isa/constraints.rs:127-129 | T1 from 1000 reaches 1258 but not 1260 |
| `Constraints.T1BackwardLimit` | lib/cretonne/src/isa/constraints.rs:131-133 | T1 from 1000 reaches 748 but not 746 |
| `EncTables.Level1Key` | cranelift/codegen/src/isa/enc_tables.rs:67-73 | a level 1 row has no key iff its `log2len` is all ones; otherwise its key is its type |
| `EncTables.Level1Keys` | cranelift/codegen/src/isa/enc_tables.rs:62-65 | the keys `probe` sees: one per row, row by row |
| `EncTables.Level2Key` | cranelift/codegen/src/isa/enc_tables.rs:97-99 | a level 2 row has no key iff it has no opcode; otherwise its key is its opcode |
| `EncTables.Level2Keys` | cranelift/codegen/src/isa/enc_tables.rs:92-95 | the keys `probe` sees: one per row, row by row |
| `EncTables.Level1Range` | cranelift/codegen/src/isa/enc_tables.rs:55-59 | the window starts at the row's offset and is `2^log2len` long |
| `EncTables.GetRange` | cranelift/codegen/src/isa/enc_tables.rs:133 | `get(range)` gives a sub-slice iff the range lies inside the slice, and then exactly that slice |
| `EncTables.LookupStart` | cranelift/codegen/src/isa/enc_tables.rs:124-147 | a found offset is that of a level 2 row for the opcode inside the in-bounds window of the level 1 row for the type, paired with that row's legalization code; with no offset, the code comes from the type's row or from an empty row; a type without a row always gives no offset and an empty row's code |
| `EncTables.LookupLevel1Miss` | cranelift/codegen/src/isa/enc_tables.rs:125-129 | a level 1 miss gives no offset and the code of the empty row `probe` stopped at, whatever the opcode |
| `EncTables.LookupWithoutLevel2` | cranelift/codegen/src/isa/enc_tables.rs:141-143 | a level 1 row with an out-of-bounds window gives no offset and that row's own code, the same for every opcode |
| `EncTables.LookupLevel1Hit` | cranelift/codegen/src/isa/enc_tables.rs:130-146 | with an in-bounds window, a level 2 miss gives no offset and a level 2 hit gives that row's offset; either way the code is the level 1 row's |
| `EncTables.LookupWithoutListYieldsNothing` | cranelift/codegen/src/isa/enc_tables.rs:149-150 | when the lookup finds no list, the iterator yields nothing and stops at `!0` with the lookup's code, so `legalize()` may be called |
| `EncTables.LookupEnclist` | cranelift/codegen/src/isa/enc_tables.rs:108-162 | returns a new iterator positioned at the lookup's offset with its legalization code, over the given tables and instruction |
| `EncTables.PredMaskIsLowBits` | cranelift/codegen/src/isa/enc_tables.rs:169-173 | `PRED_MASK + 1 == 1 << PRED_BITS == PRED_START` |
| `EncTables.DecodeWord` | cranelift/codegen/src/isa/enc_tables.rs:254-281 | a word is a recipe word iff `entry >> 1` indexes the recipe predicates; a legalization word lies between `2 * len` and `PRED_START`; a predicate word has a 12-bit predicate and a skip below 15 |
| `EncTables.DecodeEncode` | cranelift/codegen/src/isa/enc_tables.rs:256-281 | decoding inverts the packing of every encodable word (recipe index in range and below 2^15, legalization code below `PRED_START - 2 * len`, 12-bit predicate and skip below 15) |
| `EncTables.EncodeDecode` | cranelift/codegen/src/isa/enc_tables.rs:271-273 | for at most 2048 recipes (`2 * len <= PRED_START`), every decoded word can be packed again, and re-encoding it gives the word back, except for a legalization word whose code was truncated to `u8` |
| `EncTables.CheckRecipe` | cranelift/codegen/src/isa/enc_tables.rs:230-236 | an absent recipe predicate holds; a present one is applied to the ISA settings and the instruction |
| `EncTables.CheckPred` | cranelift/codegen/src/isa/enc_tables.rs:238-246 | predicate numbers below the number of instruction predicates select one of those; the rest select ISA predicate `pred - len` |
| `EncTables.StepAt` | cranelift/codegen/src/isa/enc_tables.rs:253-290 | one loop iteration moves the cursor strictly forward (or panics reading the bits word); a stop sets it to `!0`; only a stop changes the legalization code; a yield reads the word after the recipe word |
| `EncTables.Advance` | cranelift/codegen/src/isa/enc_tables.rs:252-293 | one `next` call: `None` leaves the cursor out of bounds; the cursor only moves forward; an out-of-bounds cursor returns `None` unchanged; a changed legalization code means `None` at `!0`; a yielded recipe indexes the recipe predicates |
| `EncTables.Drain` | cranelift/codegen/src/isa/enc_tables.rs:249-294 | the iteration ends out of bounds in a state where `next` returns `None`; a changed legalization code means it ended at `!0`; an exhausted iterator yields nothing |
| `EncTables.StoppedStaysStopped` | cranelift/codegen/src/isa/enc_tables.rs:253 | at `!0`, `next` returns `None` and nothing changes, forever |
| `EncTables.RecipeWordAdvance` | cranelift/codegen/src/isa/enc_tables.rs:257-268 | a recipe word moves the cursor past its bits word (or to `!0` if last) before the check; it yields `(entry >> 1, bits)` iff the recipe predicate holds, and otherwise `next` goes on from the new cursor |
| `EncTables.LastRecipeEndsList` | cranelift/codegen/src/isa/enc_tables.rs:260-266 | a recipe word with the last flag ends the list at `!0`, yielding that one encoding if its predicate holds and nothing otherwise |
| `EncTables.LegalizeWordStops` | cranelift/codegen/src/isa/enc_tables.rs:271-276 | a legalization word stops at `!0` with code `(entry - 2 * len) as u8`, and the subtraction cannot underflow |
| `EncTables.PredWordAdvance` | cranelift/codegen/src/isa/enc_tables.rs:278-290 | a predicate word continues at the next word if the predicate holds, stops at `!0` if it fails with skip 0, and continues `1 + skip` words on otherwise |
| `EncTables.FailedPredSkips` | cranelift/codegen/src/isa/enc_tables.rs:288-290 | a failed predicate with a nonzero skip leaves the rest of the iteration equal to the iteration from `offset + 1 + skip` |
| `EncTables.SkippedWordsUnread` | cranelift/codegen/src/isa/enc_tables.rs:283-290 | after a failed predicate with a nonzero skip, the iteration over a list that differs only in the skipped words equals the original iteration from `offset + 1 + skip` |
| `EncTables.SkipExaminesNothingBetween` | cranelift/codegen/src/isa/enc_tables.rs:279-290 | the skipped words are never read: changing them changes nothing the iterator yields or ends in |
| `EncTables.AdvanceReadsFromCursor` | cranelift/codegen/src/isa/enc_tables.rs:252-293 | `next` reads no word before the cursor |
| `EncTables.DrainReadsFromCursor` | cranelift/codegen/src/isa/enc_tables.rs:252-293 | the rest of the iteration reads no word before the cursor |
| `EncTables.FallingOffTheEnd` | cranelift/codegen/src/isa/enc_tables.rs:260-261 | example: a two-word list that ends by `+2` rather than by a stop ends the iteration with its cursor at 2, not `!0`, which `legalize()` rejects |
| `EncTables.FallingOffBySkip` | cranelift/codegen/src/isa/enc_tables.rs:285-290 | example: a failed predicate with skip 1 on the only word ends the iteration with nothing yielded and the cursor at 2, not `!0` |
| `EncTables.StepStaysNear` | cranelift/codegen/src/isa/enc_tables.rs:259-290 | a loop iteration that does not stop moves the cursor at most 15 words and keeps the legalization code |
| `EncTables.AdvanceFallsJustPastEnd` | cranelift/codegen/src/isa/enc_tables.rs:252-293 | a `next` call starting inside the list that ends off `!0` ends fewer than 15 words past the end, with the legalization code unchanged |
| `EncTables.DrainFallsJustPastEnd` | cranelift/codegen/src/isa/enc_tables.rs:252-293 | for every list and start inside it: an iteration that ends off `!0` (by `+2` or by a skip) ends just past the end of the list, fewer than 15 words beyond it, with the starting legalization code; only a stop reaches `!0`, where `legalize()` is allowed |
| `EncTables.Encodings.constructor` | cranelift/codegen/src/isa/enc_tables.rs:196-218 | the new iterator holds exactly the given state and tables |
| `EncTables.Encodings.Legalize` | cranelift/codegen/src/isa/enc_tables.rs:220-228 | only once stopped at `!0`: the legalization action indexed by the current code |
| `EncTables.Encodings.Next` | cranelift/codegen/src/isa/enc_tables.rs:249-294 | the result and the new state are those `Advance` gives for the old state; what the iterator still yields is the result followed by what it yields afterwards, or nothing once `None` is returned |

## Left out

- The `probe` function of the hash tables is not part of this model. It is a parameter, and
  each call requires what `probe` promises: a hit gives an in-bounds row holding the key,
  and a miss gives an in-bounds empty row.
- The generated tables, the predicate functions, `PredicateView::test` and
  `InstructionData::opcode()` are not part of this model. They appear as parameters: the
  predicates as Dafny functions, and the opcode as an argument of `LookupEnclist`.
- The offset types of the table entries are generic in the source (`u16` or `u32`); the
  model uses `u32` for both.
- `EncTables.Level1Range`: `1 << log2len` is modelled only for `log2len < 64`, where Rust
  defines it. A level 1 hit row must satisfy this, and empty rows, with `log2len == !0`, are
  never hit.
- Shifts and masks are written as division and remainder by powers of two. This matches
  unsigned words, and `PredMaskIsLowBits` ties `PRED_MASK` to `PRED_BITS`.
- `EncTables.Encodings.Next` requires that the call does not panic. Reading the
  encoding-bits word past the end of the list panics in Rust. The model's `Advance` reports
  this as `Panic`, and `Next` is specified only where it returns.
- `EncTables.Encodings.Legalize` requires the cursor to be `!0`. This models the
  development-time assertion; a release build would not check it. It also requires
  `legalize < |legalizeActions|`: out of range, the index into the action table panics in
  every build.
- `Constraints.Contains` requires `1 <= bits <= 32` and `branch + origin < 2^32`. Outside
  these ranges the Rust code's `u8` subtraction, shift or addition overflows, which panics
  in a debug build. As in the source, displacements beyond 32 bits (2 GB) are not detected:
  the model reasons only about the wrapped displacement.
- `Constraints.RegClass` is an opaque index. Its register bank, its subclass structure and
  the derivation of constraints by the ABI layer are not modelled.
- The x64 ABI, the x64 ISA setup and the WebAssembly trace checker are not part of this
  model: they are callers and context, not the core.
