/**
 * Support types for the generated encoding tables: the two-level hash table lookup that
 * maps a (controlling type, opcode) pair to the start of an encoding list, and the
 * iterator that interprets an encoding list as a sequence of candidate encodings.
 *
 * The generated tables themselves, the open-addressing `probe` over them and the
 * predicate functions they refer to are inputs: `probe` is a parameter constrained by
 * what it promises for the arguments it is given, and the predicates are Dafny functions.
 */
module EncTables {
  import opened Ints
  import opened Wrappers

  /** A value type, identified by its index; non-polymorphic instructions use `INVALID`. */
  datatype Type = Type(index: nat)

  /** An instruction opcode, identified by its discriminant (`opcode as usize`). */
  datatype Opcode = Opcode(code: nat)

  /** Index into the ISA's table of legalization actions. */
  type LegalizeCode = uint8

  /**
   * Level 1 hash table entry, keyed by controlling type. `offset` and `log2len` give a
   * power-of-two window into the level 2 table. `log2len == !0` marks an empty row; a row
   * whose window is out of bounds has only a legalization code.
   */
  datatype Level1Entry = Level1Entry(ty: Type, log2len: uint8, legalize: LegalizeCode, offset: uint32)

  /**
   * Level 2 hash table entry, keyed by opcode: the offset of the encoding list for that
   * opcode. An empty bucket has no opcode.
   */
  datatype Level2Entry = Level2Entry(opcode: Option<Opcode>, offset: uint32)

  // ---------------------------------------------------------------------------------------
  // The probe over a hash table.

  /** `Ok(i)`: row `i` holds the key. `Err(i)`: the key is absent and row `i` is a default row. */
  datatype ProbeResult = Ok(index: nat) | Err(index: nat)

  /**
   * The open-addressing lookup `probe(table, key, hash)`, seen through the table's keys
   * (`Table::key` for every row).
   */
  type Probe<!K> = (seq<Option<K>>, K, nat) -> ProbeResult

  /**
   * What `probe` guarantees of its result: an in-bounds row that holds the key on a hit,
   * and an in-bounds empty (default) row on a miss.
   */
  predicate ProbeResultValid<K(==)>(keys: seq<Option<K>>, key: K, r: ProbeResult)
  {
    match r
    case Ok(i) => i < |keys| && keys[i] == Some(key)
    case Err(i) => i < |keys| && keys[i] == None
  }

  // ---------------------------------------------------------------------------------------
  // Keys and windows of the two tables.

  /** `Table::key` on the level 1 table: an empty row has no key, any other row its type. */
  function Level1Key(table: seq<Level1Entry>, idx: nat): (k: Option<Type>)
    requires idx < |table|
    ensures k == None <==> table[idx].log2len == U8AllOnes
    ensures k != None ==> k == Some(table[idx].ty)
  {
    if table[idx].log2len != U8AllOnes then Some(table[idx].ty) else None
  }

  /** The keys of all rows of a level 1 table, as `probe` sees them. */
  function Level1Keys(table: seq<Level1Entry>): (ks: seq<Option<Type>>)
    ensures |ks| == |table|
    ensures forall i :: 0 <= i < |table| ==> ks[i] == Level1Key(table, i)
  {
    seq(|table|, i requires 0 <= i < |table| => Level1Key(table, i))
  }

  /** `Table::key` on a level 2 table: the row's opcode, which an empty bucket lacks. */
  function Level2Key(table: seq<Level2Entry>, idx: nat): (k: Option<Opcode>)
    requires idx < |table|
    ensures k == None <==> table[idx].opcode.None?
    ensures k != None ==> k == table[idx].opcode
  {
    table[idx].opcode
  }

  /** The keys of all rows of a level 2 table, as `probe` sees them. */
  function Level2Keys(table: seq<Level2Entry>): (ks: seq<Option<Opcode>>)
    ensures |ks| == |table|
    ensures forall i :: 0 <= i < |table| ==> ks[i] == Level2Key(table, i)
  {
    seq(|table|, i requires 0 <= i < |table| => Level2Key(table, i))
  }

  /** A half-open range of indices `start..end`. */
  datatype Range = Range(start: usize, end: usize)

  /**
   * `Level1Entry::range`: the window `offset .. offset + (1 << log2len)` of the level 2
   * table. The shift is defined only for `log2len < 64`; the end then fits a `usize`.
   */
  function Level1Range(e: Level1Entry): (r: Range)
    requires e.log2len < 64
    ensures r.start == e.offset
    ensures r.end - r.start == Pow2(e.log2len)
  {
    Pow2Mono(e.log2len, 63);
    Pow2Values();
    Range(e.offset, e.offset + Pow2(e.log2len))
  }

  /** `slice.get(range)`: the sub-slice when the range lies inside the slice. */
  function GetRange<T>(s: seq<T>, r: Range): (o: Option<seq<T>>)
    ensures o.Some? <==> r.start <= r.end <= |s|
    ensures o.Some? ==> o.value == s[r.start..r.end]
  {
    if r.start <= r.end <= |s| then Some(s[r.start..r.end]) else None
  }

  // ---------------------------------------------------------------------------------------
  // Two-level lookup.

  /** Where an encoding list starts, or `!0` for none, and the default legalization code. */
  datatype Start = Start(offset: usize, legalize: LegalizeCode)

  /** The sentinel offset for "no encoding list"; never a valid index into a Rust slice. */
  const NotFound: usize := UsizeAllOnes

  /**
   * The two probes the lookup makes return what `probe` promises, and a level 1 hit has a
   * window whose length `1 << log2len` can be computed.
   */
  predicate LookupProbesValid(level1: seq<Level1Entry>, level2: seq<Level2Entry>,
                              probe1: Probe<Type>, probe2: Probe<Opcode>, ty: Type, opcode: Opcode)
  {
    var keys1 := Level1Keys(level1);
    var r1 := probe1(keys1, ty, ty.index);
    && ProbeResultValid(keys1, ty, r1)
    && (r1.Ok? ==>
          && level1[r1.index].log2len < 64
          && var w := Level1Range(level1[r1.index]);
             w.end <= |level2| ==>
               var keys2 := Level2Keys(level2[w.start..w.end]);
               ProbeResultValid(keys2, opcode, probe2(keys2, opcode, opcode.code)))
  }

  /**
   * Row `i` of the level 1 table is keyed by `ty` and its in-bounds level 2 window holds,
   * at index `j` of the whole level 2 table, a row keyed by `opcode`.
   */
  ghost predicate FoundAt(level1: seq<Level1Entry>, level2: seq<Level2Entry>, ty: Type, opcode: Opcode,
                          i: nat, j: nat)
  {
    && i < |level1|
    && Level1Key(level1, i) == Some(ty)
    && level1[i].log2len < 64
    && var w := Level1Range(level1[i]);
       w.end <= |level2| && w.start <= j < w.end && level2[j].opcode == Some(opcode)
  }

  /**
   * The offset and legalization code that `lookup_enclist` seeds its iterator with.
   * A found offset is that of a level 2 row for `opcode` inside the window of the level 1
   * row for `ty`, and then the legalization code is that level 1 row's. Without an offset
   * the code comes from the level 1 row for `ty` or, if the type has no row, from an empty
   * (default) row.
   */
  function LookupStart(level1: seq<Level1Entry>, level2: seq<Level2Entry>,
                       probe1: Probe<Type>, probe2: Probe<Opcode>, ty: Type, opcode: Opcode): (r: Start)
    requires LookupProbesValid(level1, level2, probe1, probe2, ty, opcode)
    ensures r.offset != NotFound ==>
              r.offset < U32Limit &&
              exists i: nat, j: nat :: FoundAt(level1, level2, ty, opcode, i, j) &&
                r == Start(level2[j].offset, level1[i].legalize)
    ensures r.offset == NotFound ==>
              exists i: nat :: i < |level1| && r.legalize == level1[i].legalize &&
                Level1Key(level1, i) in {Some(ty), None}
    ensures (forall i :: 0 <= i < |level1| ==> Level1Key(level1, i) != Some(ty)) ==>
              r.offset == NotFound &&
              exists i: nat :: i < |level1| && r.legalize == level1[i].legalize && Level1Key(level1, i) == None
  {
    match probe1(Level1Keys(level1), ty, ty.index)
    case Err(l1idx) =>
      // No level 1 entry for the type: the miss row holds the default legalization code.
      Start(NotFound, level1[l1idx].legalize)
    case Ok(l1idx) =>
      var l1ent := level1[l1idx];
      var w := Level1Range(l1ent);
      var offset :=
        match GetRange(level2, w)
        case Some(l2tab) =>
          (match probe2(Level2Keys(l2tab), opcode, opcode.code)
           case Ok(l2idx) =>
             assert level2[w.start + l2idx] == l2tab[l2idx];
             assert FoundAt(level1, level2, ty, opcode, l1idx, w.start + l2idx);
             l2tab[l2idx].offset as usize
           case Err(_) => NotFound)
        // The window is out of bounds: the type has only a legalization code.
        case None => NotFound;
      Start(offset, l1ent.legalize)
  }

  /**
   * A type without a level 1 row: no encoding list, and the miss row's legalization code,
   * whatever the opcode.
   */
  lemma {:induction false} LookupLevel1Miss(level1: seq<Level1Entry>, level2: seq<Level2Entry>,
                                            probe1: Probe<Type>, probe2: Probe<Opcode>, ty: Type, opcode: Opcode)
    requires LookupProbesValid(level1, level2, probe1, probe2, ty, opcode)
    requires probe1(Level1Keys(level1), ty, ty.index).Err?
    ensures var i := probe1(Level1Keys(level1), ty, ty.index).index;
            i < |level1| && level1[i].log2len == U8AllOnes &&
            LookupStart(level1, level2, probe1, probe2, ty, opcode) == Start(NotFound, level1[i].legalize)
  {
  }

  /**
   * A level 1 row whose window is out of bounds has no level 2 table: no encoding list and
   * that row's own legalization code, for every opcode.
   */
  lemma {:induction false} LookupWithoutLevel2(level1: seq<Level1Entry>, level2: seq<Level2Entry>,
                                               probe1: Probe<Type>, probe2: Probe<Opcode>, ty: Type,
                                               op1: Opcode, op2: Opcode)
    requires LookupProbesValid(level1, level2, probe1, probe2, ty, op1)
    requires LookupProbesValid(level1, level2, probe1, probe2, ty, op2)
    requires var r1 := probe1(Level1Keys(level1), ty, ty.index);
             r1.Ok? && Level1Range(level1[r1.index]).end > |level2|
    ensures var i := probe1(Level1Keys(level1), ty, ty.index).index;
            LookupStart(level1, level2, probe1, probe2, ty, op1) == Start(NotFound, level1[i].legalize) &&
            LookupStart(level1, level2, probe1, probe2, ty, op2) == LookupStart(level1, level2, probe1, probe2, ty, op1)
  {
  }

  /**
   * A level 1 hit with an in-bounds window: a level 2 miss gives no encoding list and the
   * level 1 row's legalization code; a level 2 hit gives that row's offset.
   */
  lemma {:induction false} LookupLevel1Hit(level1: seq<Level1Entry>, level2: seq<Level2Entry>,
                                           probe1: Probe<Type>, probe2: Probe<Opcode>, ty: Type, opcode: Opcode)
    requires LookupProbesValid(level1, level2, probe1, probe2, ty, opcode)
    requires var r1 := probe1(Level1Keys(level1), ty, ty.index);
             r1.Ok? && Level1Range(level1[r1.index]).end <= |level2|
    ensures var l1 := level1[probe1(Level1Keys(level1), ty, ty.index).index];
            var w := Level1Range(l1);
            var keys2 := Level2Keys(level2[w.start..w.end]);
            var r := LookupStart(level1, level2, probe1, probe2, ty, opcode);
            && l1.ty == ty
            && r.legalize == l1.legalize
            && match probe2(keys2, opcode, opcode.code)
               case Err(_) => r.offset == NotFound
               case Ok(j) => w.start + j < |level2| && r.offset == level2[w.start + j].offset
  {
    var l1 := level1[probe1(Level1Keys(level1), ty, ty.index).index];
    var w := Level1Range(l1);
    var keys2 := Level2Keys(level2[w.start..w.end]);
    match probe2(keys2, opcode, opcode.code)
    case Err(_) =>
    case Ok(j) =>
      assert level2[w.start..w.end][j] == level2[w.start + j];
  }

  // ---------------------------------------------------------------------------------------
  // Encoding list words.

  /** Number of bits of a predicate number in a predicate-check word. */
  const PredBits: nat := 12
  /** Mask for the predicate number, `(1 << PredBits) - 1`. */
  const PredMask: nat := 0xFFF
  /** The first word value that is a predicate check. */
  const PredStart: nat := 0x1000

  /** `PredMask` is the low `PredBits` bits, so `>> PredBits` divides by `PredMask + 1`. */
  lemma PredMaskIsLowBits()
    ensures PredMask + 1 == Pow2(PredBits) == PredStart
  {
    Pow2Values();
  }

  /**
   * The meaning of one encoding list word, relative to the number of recipes:
   * - a recipe index with its "last encoding" flag (bit 0), followed by an encoding-bits word;
   * - a legalization code that ends the list;
   * - a predicate check with the number of words to skip when it fails (`0`: stop).
   */
  datatype Word =
    | RecipeWord(recipe: nat, last: bool)
    | LegalizeWord(code: LegalizeCode)
    | PredWord(pred: nat, skip: nat)

  /**
   * Classify a word as the iterator does: a recipe word when `entry >> 1` indexes the
   * recipe predicates; otherwise a legalization code below `PredStart`, stored as
   * `entry - 2 * numRecipes` and truncated to a `u8`; otherwise a predicate check with the
   * predicate in the low 12 bits and the skip distance above them.
   */
  function DecodeWord(entry: uint16, numRecipes: nat): (w: Word)
    ensures w.RecipeWord? <==> entry / 2 < numRecipes
    ensures w.RecipeWord? ==> w.recipe < numRecipes && w.recipe < 0x8000
    ensures w.LegalizeWord? ==> 2 * numRecipes <= entry < PredStart
    ensures w.PredWord? ==> PredStart <= entry && w.pred <= PredMask && w.skip < 15
  {
    if entry / 2 < numRecipes then
      RecipeWord(entry / 2, entry % 2 == 1)
    else if entry < PredStart then
      // `entry >> 1 >= numRecipes`, so the subtraction cannot underflow.
      LegalizeWord((entry - 2 * numRecipes) as nat % U8Limit)
    else
      PredWord((entry - PredStart) % (PredMask + 1), (entry - PredStart) / (PredMask + 1))
  }

  /** The words the packed format can represent for a given number of recipes. */
  predicate Encodable(w: Word, numRecipes: nat)
  {
    match w
    case RecipeWord(r, _) => r < numRecipes && 2 * r + 1 < U16Limit
    case LegalizeWord(code) => 2 * numRecipes + code < PredStart
    case PredWord(p, skip) => p <= PredMask && skip < 15 && 2 * numRecipes <= PredStart
  }

  /** The packing of a word that `DecodeWord` implies: its inverse. */
  function EncodeWord(w: Word, numRecipes: nat): (entry: uint16)
    requires Encodable(w, numRecipes)
  {
    match w
    case RecipeWord(r, last) => 2 * r + (if last then 1 else 0)
    case LegalizeWord(code) => 2 * numRecipes + code
    case PredWord(p, skip) => PredStart + skip * 0x1000 + p
  }

  /** Decoding recovers every word the packed format can represent. */
  lemma {:induction false} DecodeEncode(w: Word, numRecipes: nat)
    requires Encodable(w, numRecipes)
    ensures DecodeWord(EncodeWord(w, numRecipes), numRecipes) == w
  {
    var entry := EncodeWord(w, numRecipes);
    match w
    case RecipeWord(r, last) =>
      assert entry / 2 == r && entry % 2 == (if last then 1 else 0);
    case LegalizeWord(code) =>
      assert entry / 2 >= numRecipes;
    case PredWord(p, skip) =>
      assert entry - PredStart == skip * 0x1000 + p;
      assert (entry - PredStart) / 0x1000 == skip && (entry - PredStart) % 0x1000 == p;
  }

  /**
   * Encoding a decoded word gives the word back, except for a legalization word whose code
   * did not fit in a `u8` and was truncated.
   */
  lemma {:induction false} EncodeDecode(entry: uint16, numRecipes: nat)
    requires 2 * numRecipes <= PredStart
    ensures var w := DecodeWord(entry, numRecipes);
            Encodable(w, numRecipes) &&
            (EncodeWord(w, numRecipes) == entry <==> !(w.LegalizeWord? && entry - 2 * numRecipes >= U8Limit))
  {
  }

  // ---------------------------------------------------------------------------------------
  // Predicates.

  /** A set of ISA predicates, seen through `PredicateView::test`. */
  type PredicateView = nat -> bool

  /** A recipe predicate on the ISA settings and the instruction; `None` always holds. */
  type RecipePredicate<!I> = Option<(PredicateView, I) -> bool>

  /** An instruction predicate on the function and the instruction. */
  type InstPredicate<!I, !F> = (F, I) -> bool

  /**
   * What the iterator reads: the encoding list words and predicate tables, the ISA
   * settings, and the instruction `inst` of function `func` being encoded.
   */
  datatype Context<!I, !F> = Context(
    enclist: seq<uint16>,
    recipePreds: seq<RecipePredicate<I>>,
    instPreds: seq<InstPredicate<I, F>>,
    isaPreds: PredicateView,
    inst: I,
    func: F)

  /** `Encodings::check_recipe`: a recipe's predicate holds; an absent predicate always does. */
  function CheckRecipe<I, F>(ctx: Context<I, F>, rpred: RecipePredicate<I>): (b: bool)
    ensures rpred.None? ==> b
    ensures rpred.Some? ==> b == rpred.value(ctx.isaPreds, ctx.inst)
  {
    match rpred
    case Some(p) => p(ctx.isaPreds, ctx.inst)
    case None => true
  }

  /**
   * `Encodings::check_pred`: predicate numbers below the number of instruction predicates
   * select an instruction predicate; the rest select ISA predicate `pred - |instPreds|`.
   */
  function CheckPred<I, F>(ctx: Context<I, F>, pred: nat): (b: bool)
    ensures pred < |ctx.instPreds| ==> b == ctx.instPreds[pred](ctx.func, ctx.inst)
    ensures pred >= |ctx.instPreds| ==> b == ctx.isaPreds(pred - |ctx.instPreds|)
  {
    if pred < |ctx.instPreds| then ctx.instPreds[pred](ctx.func, ctx.inst)
    else ctx.isaPreds(pred - |ctx.instPreds|)
  }

  // ---------------------------------------------------------------------------------------
  // The iterator as a state machine.

  /** An encoding: a recipe index and the encoding bits the recipe is parameterised by. */
  datatype Encoding = Encoding(recipe: uint16, bits: uint16)

  /** The iterator's state: the cursor into the list (`!0` once stopped) and the legalization code. */
  datatype Cursor = Cursor(offset: usize, legalize: LegalizeCode)

  /**
   * One decoded word: yield an encoding, go on to another word, or stop. `BitsOutOfBounds`
   * is the panic of reading an encoding-bits word past the end of the list.
   */
  datatype Step = Yield(enc: Encoding, next: Cursor) | Continue(next: Cursor) | Stop(next: Cursor) | BitsOutOfBounds

  /**
   * One iteration of the loop in `next`, on the word at the cursor. Every outcome moves the
   * cursor strictly forward, a stop sets it to `!0`, and only a legalization word, which
   * stops, changes the legalization code.
   */
  function StepAt<I, F>(ctx: Context<I, F>, c: Cursor): (s: Step)
    requires |ctx.enclist| <= IsizeMax && c.offset < |ctx.enclist|
    ensures !s.BitsOutOfBounds? ==> s.next.offset > c.offset
    ensures s.Stop? ==> s.next.offset == NotFound
    ensures !s.BitsOutOfBounds? && s.next.legalize != c.legalize ==> s.Stop?
    ensures s.Yield? ==> c.offset + 1 < |ctx.enclist| && s.enc.bits == ctx.enclist[c.offset + 1]
    ensures s.Yield? ==> s.enc.recipe as int < |ctx.recipePreds|
  {
    var at := c.offset;
    match DecodeWord(ctx.enclist[at], |ctx.recipePreds|)
    case RecipeWord(recipe, last) =>
      // The cursor moves before the predicate is checked.
      var next := Cursor(if last then NotFound else at + 2, c.legalize);
      if CheckRecipe(ctx, ctx.recipePreds[recipe]) then
        if at + 1 < |ctx.enclist| then Yield(Encoding(recipe, ctx.enclist[at + 1]), next)
        else BitsOutOfBounds
      else Continue(next)
    case LegalizeWord(code) =>
      Stop(Cursor(NotFound, code))
    case PredWord(pred, skip) =>
      if CheckPred(ctx, pred) then Continue(Cursor(at + 1, c.legalize))
      else if skip == 0 then Stop(Cursor(NotFound, c.legalize))
      else Continue(Cursor(at + 1 + skip, c.legalize))
  }

  /** A result with the iterator's new state, or a panic. */
  datatype Outcome<T> = Done(value: T, cursor: Cursor) | Panic

  /**
   * One call of `Iterator::next`: step through words until an encoding is yielded or the
   * cursor leaves the list. A `None` result leaves the cursor out of bounds; the cursor
   * only moves forward; an exhausted iterator stays as it is; and the legalization code
   * changes only when a legalization word stops the list.
   */
  function Advance<I, F>(ctx: Context<I, F>, c: Cursor): (r: Outcome<Option<Encoding>>)
    requires |ctx.enclist| <= IsizeMax
    ensures r.Done? && r.value.None? ==> r.cursor.offset >= |ctx.enclist|
    ensures r.Done? && c.offset < |ctx.enclist| ==> r.cursor.offset > c.offset
    ensures c.offset >= |ctx.enclist| ==> r == Done(None, c)
    ensures r.Done? && r.cursor.legalize != c.legalize ==> r.value.None? && r.cursor.offset == NotFound
    ensures r.Done? && r.value.Some? ==> r.value.value.recipe as int < |ctx.recipePreds|
    decreases if c.offset < |ctx.enclist| then |ctx.enclist| - c.offset else 0
  {
    if c.offset >= |ctx.enclist| then Done(None, c)
    else
      match StepAt(ctx, c)
      case Yield(e, next) => Done(Some(e), next)
      case Continue(next) => Advance(ctx, next)
      case Stop(next) => Done(None, next)
      case BitsOutOfBounds => Panic
  }

  /**
   * Everything the iterator still yields, in order, and its state once `next` has
   * returned `None`. The final cursor is out of bounds, so further calls change nothing.
   */
  function Drain<I, F>(ctx: Context<I, F>, c: Cursor): (r: Outcome<seq<Encoding>>)
    requires |ctx.enclist| <= IsizeMax
    ensures r.Done? ==> r.cursor.offset >= |ctx.enclist| && Advance(ctx, r.cursor) == Done(None, r.cursor)
    ensures r.Done? && r.cursor.legalize != c.legalize ==> r.cursor.offset == NotFound
    ensures r.Done? && c.offset >= |ctx.enclist| ==> r == Done([], c)
    decreases if c.offset < |ctx.enclist| then |ctx.enclist| - c.offset else 0
  {
    match Advance(ctx, c)
    case Panic => Panic
    case Done(None, next) => Done([], next)
    case Done(Some(e), next) => Prepend(e, Drain(ctx, next))
  }

  /** `e` followed by what `rest` yields. */
  function Prepend(e: Encoding, rest: Outcome<seq<Encoding>>): (r: Outcome<seq<Encoding>>)
    ensures r.Done? <==> rest.Done?
    ensures r.Done? ==> r.value == [e] + rest.value && r.cursor == rest.cursor
  {
    match rest
    case Panic => Panic
    case Done(es, final) => Done([e] + es, final)
  }

  // ---------------------------------------------------------------------------------------
  // Properties of the iterator.

  /** Once stopped at `!0`, `next` returns `None` and nothing changes. */
  lemma {:induction false} StoppedStaysStopped<I, F>(ctx: Context<I, F>, legalize: LegalizeCode)
    requires |ctx.enclist| <= IsizeMax
    ensures Advance(ctx, Cursor(NotFound, legalize)) == Done(None, Cursor(NotFound, legalize))
    ensures Drain(ctx, Cursor(NotFound, legalize)) == Done([], Cursor(NotFound, legalize))
  {
  }

  /**
   * A recipe word moves the cursor past its encoding-bits word, or to `!0` when it is the
   * last one, before its predicate is checked; it yields `Encoding(entry >> 1, bits)`
   * exactly when the predicate holds, and otherwise the loop goes on from the new cursor.
   */
  lemma {:induction false} RecipeWordAdvance<I, F>(ctx: Context<I, F>, c: Cursor)
    requires |ctx.enclist| <= IsizeMax && c.offset < |ctx.enclist|
    requires ctx.enclist[c.offset] / 2 < |ctx.recipePreds|
    ensures var entry := ctx.enclist[c.offset];
            var recipe := entry / 2;
            var next := Cursor(if entry % 2 == 0 then c.offset + 2 else NotFound, c.legalize);
            if !CheckRecipe(ctx, ctx.recipePreds[recipe]) then
              Advance(ctx, c) == Advance(ctx, next)
            else if c.offset + 1 < |ctx.enclist| then
              Advance(ctx, c) == Done(Some(Encoding(recipe, ctx.enclist[c.offset + 1])), next)
            else
              Advance(ctx, c) == Panic
  {
  }

  /**
   * A recipe word with its last flag set ends the list: afterwards the cursor is `!0`, and
   * the iterator yields that one encoding if its predicate holds and nothing otherwise.
   */
  lemma {:induction false} LastRecipeEndsList<I, F>(ctx: Context<I, F>, c: Cursor)
    requires |ctx.enclist| <= IsizeMax && c.offset + 1 < |ctx.enclist|
    requires ctx.enclist[c.offset] / 2 < |ctx.recipePreds| && ctx.enclist[c.offset] % 2 == 1
    ensures var entry := ctx.enclist[c.offset];
            var final := Cursor(NotFound, c.legalize);
            Drain(ctx, c) ==
              if CheckRecipe(ctx, ctx.recipePreds[entry / 2])
              then Done([Encoding(entry / 2, ctx.enclist[c.offset + 1])], final)
              else Done([], final)
  {
    var entry := ctx.enclist[c.offset];
    var final := Cursor(NotFound, c.legalize);
    StoppedStaysStopped(ctx, c.legalize);
    RecipeWordAdvance(ctx, c);
    if CheckRecipe(ctx, ctx.recipePreds[entry / 2]) {
      var e := Encoding(entry / 2, ctx.enclist[c.offset + 1]);
      assert Advance(ctx, c) == Done(Some(e), final);
      assert Drain(ctx, c) == Prepend(e, Drain(ctx, final));
      assert [e] + [] == [e];
    } else {
      assert Advance(ctx, c) == Done(None, final);
    }
  }

  /**
   * A legalization word stops the list with its code `entry - 2 * |recipePreds|`, which
   * cannot underflow, truncated to a `u8`.
   */
  lemma {:induction false} LegalizeWordStops<I, F>(ctx: Context<I, F>, c: Cursor)
    requires |ctx.enclist| <= IsizeMax && c.offset < |ctx.enclist|
    requires ctx.enclist[c.offset] / 2 >= |ctx.recipePreds| && ctx.enclist[c.offset] < PredStart
    ensures var entry := ctx.enclist[c.offset];
            entry >= 2 * |ctx.recipePreds| &&
            Advance(ctx, c) == Done(None, Cursor(NotFound, (entry - 2 * |ctx.recipePreds|) % U8Limit))
  {
  }

  /**
   * A predicate-check word: predicate `(entry - PredStart) & PredMask`, skip distance
   * `(entry - PredStart) >> PredBits`. If the predicate holds the loop goes on at the next
   * word; if it fails with no skip the list stops; otherwise the loop goes on `1 + skip`
   * words further.
   */
  lemma {:induction false} PredWordAdvance<I, F>(ctx: Context<I, F>, c: Cursor, pred: nat, skip: nat)
    requires |ctx.enclist| <= IsizeMax && c.offset < |ctx.enclist|
    requires ctx.enclist[c.offset] / 2 >= |ctx.recipePreds| && ctx.enclist[c.offset] >= PredStart
    requires pred == (ctx.enclist[c.offset] - PredStart) % 0x1000
    requires skip == (ctx.enclist[c.offset] - PredStart) / 0x1000
    ensures CheckPred(ctx, pred) ==> Advance(ctx, c) == Advance(ctx, Cursor(c.offset + 1, c.legalize))
    ensures !CheckPred(ctx, pred) && skip == 0 ==> Advance(ctx, c) == Done(None, Cursor(NotFound, c.legalize))
    ensures !CheckPred(ctx, pred) && skip != 0 ==> Advance(ctx, c) == Advance(ctx, Cursor(c.offset + 1 + skip, c.legalize))
  {
    assert DecodeWord(ctx.enclist[c.offset], |ctx.recipePreds|) == PredWord(pred, skip);
    if CheckPred(ctx, pred) {
      assert StepAt(ctx, c) == Continue(Cursor(c.offset + 1, c.legalize));
    } else if skip == 0 {
      assert StepAt(ctx, c) == Stop(Cursor(NotFound, c.legalize));
    } else {
      var next := Cursor(c.offset + 1 + skip, c.legalize);
      assert StepAt(ctx, c) == Continue(next);
      assert Advance(ctx, c) == Advance(ctx, next);
    }
  }

  /** Two encoding lists of the same length that agree from index `from` on. */
  ghost predicate SameFrom(e: seq<uint16>, e': seq<uint16>, from: nat)
  {
    |e'| == |e| && forall i :: from <= i < |e| ==> e'[i] == e[i]
  }

  /** `next` reads no word before the cursor. */
  lemma {:induction false} AdvanceReadsFromCursor<I, F>(ctx: Context<I, F>, e': seq<uint16>, c: Cursor)
    requires |ctx.enclist| <= IsizeMax && SameFrom(ctx.enclist, e', c.offset)
    ensures Advance(ctx, c) == Advance(ctx.(enclist := e'), c)
    decreases if c.offset < |ctx.enclist| then |ctx.enclist| - c.offset else 0
  {
    var ctx' := ctx.(enclist := e');
    if c.offset < |ctx.enclist| {
      assert StepAt(ctx, c) == StepAt(ctx', c);
      match StepAt(ctx, c)
      case Continue(next) => AdvanceReadsFromCursor(ctx, e', next);
      case _ =>
    }
  }

  /** The rest of the iteration reads no word before the cursor. */
  lemma {:induction false} DrainReadsFromCursor<I, F>(ctx: Context<I, F>, e': seq<uint16>, c: Cursor)
    requires |ctx.enclist| <= IsizeMax && SameFrom(ctx.enclist, e', c.offset)
    ensures Drain(ctx, c) == Drain(ctx.(enclist := e'), c)
    decreases if c.offset < |ctx.enclist| then |ctx.enclist| - c.offset else 0
  {
    AdvanceReadsFromCursor(ctx, e', c);
    match Advance(ctx, c)
    case Done(Some(_), next) => DrainReadsFromCursor(ctx, e', next);
    case _ =>
  }

  /** A failed predicate check with a nonzero skip resumes the iteration past the skipped words. */
  lemma {:induction false} FailedPredSkips<I, F>(ctx: Context<I, F>, c: Cursor, pred: nat, skip: nat)
    requires |ctx.enclist| <= IsizeMax && c.offset < |ctx.enclist|
    requires ctx.enclist[c.offset] / 2 >= |ctx.recipePreds| && ctx.enclist[c.offset] >= PredStart
    requires pred == (ctx.enclist[c.offset] - PredStart) % 0x1000
    requires skip == (ctx.enclist[c.offset] - PredStart) / 0x1000
    requires !CheckPred(ctx, pred) && skip != 0
    ensures c.offset + 1 + skip < UsizeLimit
    ensures Drain(ctx, c) == Drain(ctx, Cursor(c.offset + 1 + skip, c.legalize))
  {
    PredWordAdvance(ctx, c, pred, skip);
    DrainSkipsTo(ctx, c, Cursor(c.offset + 1 + skip, c.legalize));
  }

  /** The iteration over `e'` skips the same words and then reads only what `e'` shares with the list. */
  lemma {:induction false} SkippedWordsUnread<I, F>(ctx: Context<I, F>, e': seq<uint16>, c: Cursor,
                                                    pred: nat, skip: nat)
    requires |ctx.enclist| <= IsizeMax && c.offset < |ctx.enclist|
    requires ctx.enclist[c.offset] / 2 >= |ctx.recipePreds| && ctx.enclist[c.offset] >= PredStart
    requires pred == (ctx.enclist[c.offset] - PredStart) % 0x1000
    requires skip == (ctx.enclist[c.offset] - PredStart) / 0x1000
    requires !CheckPred(ctx, pred) && skip != 0
    requires |e'| == |ctx.enclist| && e'[c.offset] == ctx.enclist[c.offset]
    requires SameFrom(ctx.enclist, e', c.offset + 1 + skip)
    ensures c.offset + 1 + skip < UsizeLimit
    ensures Drain(ctx.(enclist := e'), c) == Drain(ctx, Cursor(c.offset + 1 + skip, c.legalize))
  {
    var ctx' := ctx.(enclist := e');
    assert CheckPred(ctx', pred) == CheckPred(ctx, pred);
    FailedPredSkips(ctx', c, pred, skip);
    DrainReadsFromCursor(ctx, e', Cursor(c.offset + 1 + skip, c.legalize));
  }

  /**
   * A failed predicate check with skip distance `skip > 0` jumps straight to
   * `offset + 1 + skip`: the words strictly between the two are never examined, so
   * changing them changes nothing that the iterator yields or ends in.
   */
  lemma {:induction false} SkipExaminesNothingBetween<I, F>(ctx: Context<I, F>, e': seq<uint16>, c: Cursor)
    requires |ctx.enclist| <= IsizeMax && c.offset < |ctx.enclist|
    requires ctx.enclist[c.offset] / 2 >= |ctx.recipePreds| && ctx.enclist[c.offset] >= PredStart
    requires var predEntry := ctx.enclist[c.offset] - PredStart;
             !CheckPred(ctx, predEntry % 0x1000) && predEntry / 0x1000 > 0
    requires |e'| == |ctx.enclist| && e'[c.offset] == ctx.enclist[c.offset]
    requires SameFrom(ctx.enclist, e', c.offset + 1 + (ctx.enclist[c.offset] - PredStart) / 0x1000)
    ensures var skip := (ctx.enclist[c.offset] - PredStart) / 0x1000;
            Drain(ctx, c) == Drain(ctx, Cursor(c.offset + 1 + skip, c.legalize))
    ensures Drain(ctx, c) == Drain(ctx.(enclist := e'), c)
  {
    var predEntry := ctx.enclist[c.offset] - PredStart;
    var pred := predEntry % 0x1000;
    var skip := predEntry / 0x1000;
    FailedPredSkips(ctx, c, pred, skip);
    SkippedWordsUnread(ctx, e', c, pred, skip);
  }

  /** The rest of the iteration is what one `next` yields followed by the rest after it. */
  lemma {:induction false} DrainUnfold<I, F>(ctx: Context<I, F>, c: Cursor)
    requires |ctx.enclist| <= IsizeMax
    ensures match Advance(ctx, c)
            case Panic => Drain(ctx, c) == Panic
            case Done(None, next) => Drain(ctx, c) == Done([], next)
            case Done(Some(e), next) => Drain(ctx, c) == Prepend(e, Drain(ctx, next))
  {
  }

  /** When `next` from `c` behaves as from `next`, so does the rest of the iteration. */
  lemma {:induction false} DrainSkipsTo<I, F>(ctx: Context<I, F>, c: Cursor, next: Cursor)
    requires |ctx.enclist| <= IsizeMax
    requires Advance(ctx, c) == Advance(ctx, next)
    ensures Drain(ctx, c) == Drain(ctx, next)
  {
  }

  /** One call of `next` splits the rest of the iteration into its result and what follows. */
  lemma {:induction false} NextRemaining<I, F>(ctx: Context<I, F>, c: Cursor, r: Option<Encoding>, next: Cursor)
    requires |ctx.enclist| <= IsizeMax
    requires Advance(ctx, c) == Done(r, next)
    ensures r.Some? ==> Drain(ctx, c) == Prepend(r.value, Drain(ctx, next))
    ensures r.None? ==> Drain(ctx, c) == Done([], next)
  {
    DrainUnfold(ctx, c);
  }

  /**
   * Falling off the end by `+2` or a skip ends the iteration with a cursor that is not `!0`:
   * here `next` yields one encoding, then returns `None` with the cursor at 2, where
   * `legalize()` is not allowed.
   */
  lemma FallingOffTheEnd<I, F>(isaPreds: PredicateView, inst: I, func: F)
    ensures var ctx := Context([0x0000, 0x1234], [None], [], isaPreds, inst, func);
            Drain(ctx, Cursor(0, 0)) == Done([Encoding(0, 0x1234)], Cursor(2, 0))
  {
    var ctx := Context([0x0000, 0x1234], [None], [], isaPreds, inst, func);
    assert StepAt(ctx, Cursor(0, 0)) == Yield(Encoding(0, 0x1234), Cursor(2, 0));
    assert Advance(ctx, Cursor(0, 0)) == Done(Some(Encoding(0, 0x1234)), Cursor(2, 0));
    assert Drain(ctx, Cursor(2, 0)) == Done([], Cursor(2, 0));
    assert Drain(ctx, Cursor(0, 0)) == Prepend(Encoding(0, 0x1234), Drain(ctx, Cursor(2, 0)));
    assert [Encoding(0, 0x1234)] + [] == [Encoding(0, 0x1234)];
  }

  /**
   * A predicate check that fails with skip 1 on the last word jumps past the end: the
   * iteration yields nothing and ends with the cursor at 2, not `!0`.
   */
  lemma FallingOffBySkip<I, F>(isaPreds: PredicateView, inst: I, func: F)
    requires !isaPreds(0)
    ensures var ctx := Context([0x2000], [], [], isaPreds, inst, func);
            Drain(ctx, Cursor(0, 0)) == Done([], Cursor(2, 0))
  {
    var ctx := Context([0x2000], [], [], isaPreds, inst, func);
    assert DecodeWord(0x2000, 0) == PredWord(0, 1);
    assert StepAt(ctx, Cursor(0, 0)) == Continue(Cursor(2, 0));
    assert Advance(ctx, Cursor(0, 0)) == Done(None, Cursor(2, 0));
  }

  /**
   * A step that does not stop moves the cursor by at most 15 words (two past a recipe word,
   * or `1 + skip` with `skip < 15`) and keeps the legalization code.
   */
  lemma {:induction false} StepStaysNear<I, F>(ctx: Context<I, F>, c: Cursor)
    requires |ctx.enclist| <= IsizeMax && c.offset < |ctx.enclist|
    ensures var s := StepAt(ctx, c);
            !s.BitsOutOfBounds? && s.next.offset != NotFound ==>
              s.next.offset <= c.offset + 15 && s.next.legalize == c.legalize
  {
    match DecodeWord(ctx.enclist[c.offset], |ctx.recipePreds|)
    case RecipeWord(_, _) =>
    case LegalizeWord(_) =>
    case PredWord(_, skip) =>
      assert skip < 15;
  }

  /**
   * A `next` call that starts inside the list and ends off `!0` ends less than 15 words
   * past the end of the list, with the legalization code unchanged.
   */
  lemma {:induction false} AdvanceFallsJustPastEnd<I, F>(ctx: Context<I, F>, c: Cursor)
    requires |ctx.enclist| <= IsizeMax && c.offset < |ctx.enclist|
    ensures var r := Advance(ctx, c);
            r.Done? && r.cursor.offset != NotFound ==>
              r.cursor.offset < |ctx.enclist| + 15 && r.cursor.legalize == c.legalize
    decreases |ctx.enclist| - c.offset
  {
    StepStaysNear(ctx, c);
    match StepAt(ctx, c)
    case Continue(next) =>
      if next.offset < |ctx.enclist| {
        AdvanceFallsJustPastEnd(ctx, next);
      }
    case _ =>
  }

  /**
   * Falling off the end, by `+2` after a recipe word or by a skip, ends the iteration with a
   * cursor that is not `!0`: just past the end of the list, with the legalization code the
   * iteration started with. Only a stop sets the cursor to `!0`, where `legalize()` is
   * allowed.
   */
  lemma {:induction false} DrainFallsJustPastEnd<I, F>(ctx: Context<I, F>, c: Cursor)
    requires |ctx.enclist| <= IsizeMax && c.offset < |ctx.enclist|
    ensures var r := Drain(ctx, c);
            r.Done? && r.cursor.offset != NotFound ==>
              |ctx.enclist| <= r.cursor.offset < |ctx.enclist| + 15 && r.cursor.legalize == c.legalize
    decreases |ctx.enclist| - c.offset
  {
    AdvanceFallsJustPastEnd(ctx, c);
    match Advance(ctx, c)
    case Done(Some(_), next) =>
      if next.offset < |ctx.enclist| {
        DrainFallsJustPastEnd(ctx, next);
      }
    case _ =>
  }

  // ---------------------------------------------------------------------------------------
  // The iterator object.

  /** An iterator over the legal encodings of an instruction. */
  class Encodings<I, F, A> {
    /** Current offset into `enclist`, or out of bounds once the end is reached. */
    var offset: usize
    /** Legalization code to use if no encoding is found. */
    var legalize: LegalizeCode
    const inst: I
    const func: F
    const enclist: seq<uint16>
    const legalizeActions: seq<A>
    const recipePreds: seq<RecipePredicate<I>>
    const instPreds: seq<InstPredicate<I, F>>
    const isaPreds: PredicateView

    /** The tables and instruction the iterator reads. */
    function Ctx(): Context<I, F>
    {
      Context(enclist, recipePreds, instPreds, isaPreds, inst, func)
    }

    /** The iterator's current state. */
    function Position(): Cursor
      reads this
    {
      Cursor(offset, legalize)
    }

    ghost predicate Valid()
    {
      |enclist| <= IsizeMax
    }

    /** `Encodings::new`. */
    constructor (offset: usize, legalize: LegalizeCode, inst: I, func: F, enclist: seq<uint16>,
                 legalizeActions: seq<A>, recipePreds: seq<RecipePredicate<I>>,
                 instPreds: seq<InstPredicate<I, F>>, isaPreds: PredicateView)
      requires |enclist| <= IsizeMax
      ensures Valid()
      ensures this.offset == offset && this.legalize == legalize
      ensures this.inst == inst && this.func == func && this.enclist == enclist
      ensures this.legalizeActions == legalizeActions && this.recipePreds == recipePreds
      ensures this.instPreds == instPreds && this.isaPreds == isaPreds
    {
      this.offset := offset;
      this.legalize := legalize;
      this.inst := inst;
      this.func := func;
      this.enclist := enclist;
      this.legalizeActions := legalizeActions;
      this.recipePreds := recipePreds;
      this.instPreds := instPreds;
      this.isaPreds := isaPreds;
    }

    /**
     * The legalization action that stopped the enumeration: the default for the type, or
     * the instruction's own code. Only allowed once the cursor is `!0`.
     */
    function Legalize(): (a: A)
      reads this
      requires offset == NotFound
      requires legalize < |legalizeActions|
      ensures a == legalizeActions[legalize]
    {
      legalizeActions[legalize]
    }

    /** `Iterator::next`: the next legal encoding, or `None`. */
    method Next() returns (r: Option<Encoding>)
      requires Valid()
      requires Advance(Ctx(), Position()).Done?
      modifies this
      ensures Valid()
      ensures Advance(Ctx(), old(Position())) == Done(r, Position())
      ensures r.Some? ==> Drain(Ctx(), old(Position())) == Prepend(r.value, Drain(Ctx(), Position()))
      ensures r.None? ==> Drain(Ctx(), old(Position())) == Done([], Position())
    {
      ghost var start := Position();
      ghost var ctx := Ctx();
      while offset < |enclist|
        invariant Advance(ctx, Cursor(offset, legalize)) == Advance(ctx, start)
        decreases |enclist| - offset
      {
        var entry := enclist[offset];
        match DecodeWord(entry, |recipePreds|)
        case RecipeWord(recipe, last) =>
          // A recipe word and the encoding bits after it.
          var rpred := recipePreds[recipe];
          var bits := offset + 1;
          if !last {
            offset := offset + 2;
          } else {
            offset := NotFound;
          }
          if CheckRecipe(Ctx(), rpred) {
            r := Some(Encoding(recipe, enclist[bits]));
            NextRemaining(ctx, start, r, Position());
            return;
          }
        case LegalizeWord(code) =>
          // The end of the list, with the legalization code to use.
          legalize := code;
          offset := NotFound;
          NextRemaining(ctx, start, None, Position());
          return None;
        case PredWord(pred, skip) =>
          // A predicate check, skipping `skip` words when it fails.
          if CheckPred(Ctx(), pred) {
            offset := offset + 1;
          } else if skip == 0 {
            offset := NotFound;
            NextRemaining(ctx, start, None, Position());
            return None;
          } else {
            offset := offset + 1 + skip;
          }
      }
      NextRemaining(ctx, start, None, Position());
      return None;
    }
  }

  /**
   * `lookup_enclist`: find the encoding list for `inst` (whose opcode is `opcode`) under
   * controlling type `ctrlTypevar`, and return an iterator positioned at its start with
   * the default legalization code.
   */
  method LookupEnclist<I, F, A>(ctrlTypevar: Type, opcode: Opcode, inst: I, func: F,
                                level1: seq<Level1Entry>, level2: seq<Level2Entry>,
                                probe1: Probe<Type>, probe2: Probe<Opcode>,
                                enclist: seq<uint16>, legalizeActions: seq<A>,
                                recipePreds: seq<RecipePredicate<I>>, instPreds: seq<InstPredicate<I, F>>,
                                isaPreds: PredicateView)
    returns (e: Encodings<I, F, A>)
    requires |enclist| <= IsizeMax
    requires LookupProbesValid(level1, level2, probe1, probe2, ctrlTypevar, opcode)
    ensures fresh(e) && e.Valid()
    ensures var s := LookupStart(level1, level2, probe1, probe2, ctrlTypevar, opcode);
            e.Position() == Cursor(s.offset, s.legalize)
    ensures e.Ctx() == Context(enclist, recipePreds, instPreds, isaPreds, inst, func)
    ensures e.legalizeActions == legalizeActions
  {
    var start := LookupStart(level1, level2, probe1, probe2, ctrlTypevar, opcode);
    e := new Encodings(start.offset, start.legalize, inst, func, enclist, legalizeActions,
                       recipePreds, instPreds, isaPreds);
  }

  /**
   * When the lookup finds no encoding list (a level 1 miss, a type without a level 2
   * table, or a level 2 miss), the iterator it returns yields nothing and stops at `!0`
   * with the lookup's legalization code, so `legalize()` may then be called.
   */
  lemma {:induction false} LookupWithoutListYieldsNothing<I, F>(
    level1: seq<Level1Entry>, level2: seq<Level2Entry>, probe1: Probe<Type>, probe2: Probe<Opcode>,
    ty: Type, opcode: Opcode, ctx: Context<I, F>)
    requires |ctx.enclist| <= IsizeMax
    requires LookupProbesValid(level1, level2, probe1, probe2, ty, opcode)
    requires LookupStart(level1, level2, probe1, probe2, ty, opcode).offset == NotFound
    ensures var s := LookupStart(level1, level2, probe1, probe2, ty, opcode);
            Drain(ctx, Cursor(s.offset, s.legalize)) == Done([], Cursor(NotFound, s.legalize))
  {
    var s := LookupStart(level1, level2, probe1, probe2, ty, opcode);
    StoppedStaysStopped(ctx, s.legalize);
  }
}
