/**
 * Register constraints for instruction operands, and the displacement range of a
 * relative branch.
 *
 * An encoding recipe only works if the operands and results of the instruction satisfy
 * certain register constraints. These are plain data: each recipe carries a fixed-arity
 * array of constraints for its inputs and one for its outputs, plus three flags that
 * summarise the arrays for quick filtering by the register allocator.
 */
module Constraints {
  import opened Ints

  /** A register unit number (`RegUnit`, a `u16`). */
  type RegUnit = uint16

  /** A register class, identified by its index in the ISA's table of classes. */
  datatype RegClass = RegClass(index: nat)

  /** How an operand or result may be placed: which register, or a stack slot. */
  datatype ConstraintKind =
    | Reg                    // any register of the constraint's class
    | FixedReg(unit: RegUnit) // this one register; the class is its top-level class
    | Tied(peer: uint8)      // the same register as operand `peer` on the other side
    | Stack                  // a stack slot of the constraint's class

  /** The placement rule for one operand or result, with its register class. */
  datatype OperandConstraint = OperandConstraint(kind: ConstraintKind, regclass: RegClass)

  /** What a recipe demands of its fixed operands and results, with summary flags. */
  datatype RecipeConstraints = RecipeConstraints(
    ins: seq<OperandConstraint>,
    outs: seq<OperandConstraint>,
    fixedIns: bool,
    fixedOuts: bool,
    tiedOps: bool)

  /** Are any of the constraints in `cs` a `FixedReg`? */
  function HasFixedReg(cs: seq<OperandConstraint>): (b: bool)
    ensures b <==> exists k :: 0 <= k < |cs| && cs[k].kind.FixedReg?
  {
    if cs == [] then false
    else cs[0].kind.FixedReg? || (assert forall k :: 0 < k < |cs| ==> cs[k] == cs[1..][k - 1];
                                  HasFixedReg(cs[1..]))
  }

  /** Are any of the constraints in `cs` `Tied`? */
  function HasTied(cs: seq<OperandConstraint>): (b: bool)
    ensures b <==> exists k :: 0 <= k < |cs| && cs[k].kind.Tied?
  {
    if cs == [] then false
    else cs[0].kind.Tied? || (assert forall k :: 0 < k < |cs| ==> cs[k] == cs[1..][k - 1];
                              HasTied(cs[1..]))
  }

  /**
   * Every `Tied(peer)` in `from` names an entry of `to` that is tied back to it and shares
   * its register class.
   */
  ghost predicate TiedBack(from: seq<OperandConstraint>, to: seq<OperandConstraint>)
  {
    forall i :: 0 <= i < |from| && from[i].kind.Tied? ==>
      var p := from[i].kind.peer as int;
      p < |to| && to[p].kind.Tied? && to[p].kind.peer as int == i && to[p].regclass == from[i].regclass
  }

  /** Tied pairs are stored symmetrically, once in `ins` and once in `outs`. */
  ghost predicate TiedSymmetric(rc: RecipeConstraints)
  {
    TiedBack(rc.ins, rc.outs) && TiedBack(rc.outs, rc.ins)
  }

  /** The three precomputed flags agree with the arrays they summarise. */
  ghost predicate FlagsAgree(rc: RecipeConstraints)
  {
    && rc.fixedIns == HasFixedReg(rc.ins)
    && rc.fixedOuts == HasFixedReg(rc.outs)
    && rc.tiedOps == (HasTied(rc.ins) || HasTied(rc.outs))
  }

  /** A well-formed set of recipe constraints: ties stored on both sides and flags that agree. */
  ghost predicate WellFormed(rc: RecipeConstraints)
  {
    TiedSymmetric(rc) && FlagsAgree(rc)
  }

  /** The indices of the tied entries of `cs`. */
  ghost function TiedIndices(cs: seq<OperandConstraint>): (s: set<nat>)
    ensures forall i: nat :: i in s <==> i < |cs| && cs[i].kind.Tied?
  {
    set i: nat | i < |cs| && cs[i].kind.Tied?
  }

  /**
   * In well-formed constraints each flag is true exactly when the arrays hold an entry of
   * that kind, and a tied input exists exactly when a tied output does, so `tied_ops` can
   * be read off either side.
   */
  lemma {:induction false} FlagsMeaning(rc: RecipeConstraints)
    requires WellFormed(rc)
    ensures rc.fixedIns <==> exists k :: 0 <= k < |rc.ins| && rc.ins[k].kind.FixedReg?
    ensures rc.fixedOuts <==> exists k :: 0 <= k < |rc.outs| && rc.outs[k].kind.FixedReg?
    ensures rc.tiedOps <==> exists k :: 0 <= k < |rc.ins| && rc.ins[k].kind.Tied?
    ensures rc.tiedOps <==> exists k :: 0 <= k < |rc.outs| && rc.outs[k].kind.Tied?
  {
    if k :| 0 <= k < |rc.ins| && rc.ins[k].kind.Tied? {
      var p := rc.ins[k].kind.peer as int;
      assert rc.outs[p].kind.Tied?;
    }
    if k :| 0 <= k < |rc.outs| && rc.outs[k].kind.Tied? {
      var p := rc.outs[k].kind.peer as int;
      assert rc.ins[p].kind.Tied?;
    }
  }

  /**
   * Tied constraints pair up inputs and outputs one to one: there are exactly as many tied
   * inputs as tied outputs.
   */
  lemma {:induction false} TiedPairsBalanced(rc: RecipeConstraints)
    requires TiedSymmetric(rc)
    ensures |TiedIndices(rc.ins)| == |TiedIndices(rc.outs)|
  {
    var a := TiedIndices(rc.ins);
    var b := TiedIndices(rc.outs);
    forall i | i in a ensures rc.ins[i].kind.peer as nat in b {
    }
    forall j | j in b ensures rc.outs[j].kind.peer as nat in a {
    }
    PairedSetsSameSize(rc.ins, rc.outs, a, b);
  }

  /**
   * Two sets of tied indices whose peers map each one into the other, with the tie stored
   * back, have the same size. By induction on `a`, removing one pair at a time.
   */
  lemma {:induction false} PairedSetsSameSize(ins: seq<OperandConstraint>, outs: seq<OperandConstraint>,
                                               a: set<nat>, b: set<nat>)
    requires TiedBack(ins, outs) && TiedBack(outs, ins)
    requires forall i :: i in a ==> i < |ins| && ins[i].kind.Tied? && ins[i].kind.peer as nat in b
    requires forall j :: j in b ==> j < |outs| && outs[j].kind.Tied? && outs[j].kind.peer as nat in a
    ensures |a| == |b|
    decreases a
  {
    if a != {} {
      var i :| i in a;
      var j := ins[i].kind.peer as nat;
      assert outs[j].kind.peer as nat == i;
      var a' := a - {i};
      var b' := b - {j};
      forall i' | i' in a' ensures ins[i'].kind.peer as nat in b' {
        var j' := ins[i'].kind.peer as nat;
        assert outs[j'].kind.peer as nat == i';
      }
      forall j' | j' in b' ensures outs[j'].kind.peer as nat in a' {
        var i' := outs[j'].kind.peer as nat;
        assert ins[i'].kind.peer as nat == j';
      }
      PairedSetsSameSize(ins, outs, a', b');
    }
  }

  /**
   * Constraints on the range of a branch instruction: the destination is encoded as a
   * signed `bits`-bit byte displacement from `origin` bytes past the branch.
   */
  datatype BranchRange = BranchRange(origin: uint8, bits: uint8)

  /**
   * The displacement `dest - (branch + origin)` computed with 32-bit wrapping subtraction
   * and read as an `i32`.
   */
  function Displacement(br: BranchRange, branch: uint32, dest: uint32): (d: int32)
    requires branch + br.origin < U32Limit
    ensures d % U32Limit == (dest - (branch + br.origin)) % U32Limit
  {
    AsInt32(WrappingSub32(dest, branch + br.origin))
  }

  /** `x << s` on `i32`: the bits shifted out of the top are lost. */
  function Shl32(x: int32, s: nat): int32
    requires s < 32
  {
    AsInt32((x * Pow2(s)) % U32Limit)
  }

  /** `x >> s` on `i32`: an arithmetic shift, rounding towards minus infinity. */
  function Sar32(x: int32, s: nat): (r: int32)
    requires s < 32
  {
    SarBounds(x, s);
    x / Pow2(s)
  }

  lemma SarBounds(x: int32, s: nat)
    requires s < 32
    ensures -0x8000_0000 <= x / Pow2(s) < 0x8000_0000
  {
    var p := Pow2(s);
    var q := x / p;
    assert x == p * q + x % p;
    if q >= 0 {
      MulMono(1, p, q);
    } else {
      MulMono(1, p, -(q + 1));
    }
  }

  /**
   * Can this branch range represent the range from the branch at `branch` to the
   * destination at `dest`? True exactly when the wrapped displacement survives
   * sign-extension from its low `bits` bits, that is, when it lies in
   * `[-2^(bits-1), 2^(bits-1))`. Displacements over 32 bits are not detected.
   */
  function Contains(br: BranchRange, branch: uint32, dest: uint32): (b: bool)
    requires 1 <= br.bits <= 32
    requires branch + br.origin < U32Limit
    ensures var half := Pow2(br.bits - 1) as int;
            b <==> -half <= Displacement(br, branch, dest) < half
  {
    var d := Displacement(br, branch, dest);
    var s := 32 - br.bits;
    SignExtendRoundTrip(d, br.bits);
    d == Sar32(Shl32(d, s), s)
  }

  /** `(x << s) >> s == x` exactly when `x` fits in `32 - s` signed bits. */
  lemma SignExtendRoundTrip(x: int32, bits: nat)
    requires 1 <= bits <= 32
    ensures var s := 32 - bits; var half := Pow2(bits - 1) as int;
            x == Sar32(Shl32(x, s), s) <==> -half <= x < half
  {
    var s := 32 - bits;
    var p := Pow2(s);
    var q := Pow2(bits - 1);
    Pow2Add(s, bits - 1);
    Pow2Values();
    var y := Shl32(x, s);
    SarInRange(y, p, q);
    if -q <= x < q {
      ShlExact(x, p, q);
      DivMulCancel(x, p);
    }
  }

  /** Shifting left loses nothing when the result still fits in an `i32`. */
  lemma ShlExact(x: int, p: nat, q: int)
    requires p > 0 && p * q == 0x8000_0000
    requires -q <= x < q
    ensures -0x8000_0000 <= x * p < 0x8000_0000
    ensures AsInt32((x * p) % U32Limit) == x * p
  {
    MulStrictMono(x, q, p);
    MulMono(-q, x, p);
  }

  /** Shifting an `i32` right by `s` leaves a value of `32 - s` signed bits. */
  lemma SarInRange(y: int, p: nat, q: int)
    requires p > 0 && p * q == 0x8000_0000
    requires -0x8000_0000 <= y < 0x8000_0000
    ensures -q <= y / p < q
  {
    var z := y / p;
    assert y == p * z + y % p;
    MulLtCancel(z, q, p);
    MulLtCancel(-q - 1, z, p);
  }

  lemma MulLtCancel(a: int, b: int, p: nat)
    requires p > 0 && a * p < b * p
    ensures a < b
  {
    assert (b - a) * p > 0;
  }

  lemma MulStrictMono(a: int, b: int, p: nat)
    requires a < b && p > 0
    ensures a * p < b * p
  {
    assert b * p - a * p == (b - a) * p;
  }

  lemma MulMono(a: int, b: int, p: nat)
    requires a <= b
    ensures a * p <= b * p
  {
    assert b * p - a * p == (b - a) * p;
  }

  lemma DivMulCancel(x: int, p: nat)
    requires p > 0
    ensures (x * p) / p == x
  {
    var q := (x * p) / p;
    var r := (x * p) % p;
    assert x * p == p * q + r;
    assert p * (x - q) == r;
    if x - q >= 1 {
      MulMono(1, x - q, p);
    }
    if x - q <= -1 {
      MulMono(x - q, -1, p);
    }
  }

  /** A branch to its own origin is always in range. */
  lemma {:induction false} ContainsOrigin(br: BranchRange, branch: uint32)
    requires 1 <= br.bits <= 32
    requires branch + br.origin < U32Limit
    ensures Contains(br, branch, branch + br.origin)
  {
    assert Displacement(br, branch, branch + br.origin) == 0;
  }

  /**
   * Only the wrapped difference matters: moving both ends by `k` modulo 2^32 does not
   * change the answer, as long as the origin can still be added without overflow.
   */
  lemma {:induction false} ContainsTranslationInvariant(br: BranchRange, branch: uint32, dest: uint32, k: nat)
    requires 1 <= br.bits <= 32
    requires branch + br.origin < U32Limit
    requires (branch + k) % U32Limit + br.origin < U32Limit
    ensures Contains(br, branch, dest) == Contains(br, (branch + k) % U32Limit, (dest + k) % U32Limit)
  {
    var b2 := (branch + k) % U32Limit;
    var d2 := (dest + k) % U32Limit;
    var m := (branch + k) / U32Limit;
    var n := (dest + k) / U32Limit;
    assert branch + k == U32Limit * m + b2;
    assert dest + k == U32Limit * n + d2;
    assert d2 - (b2 + br.origin) == (dest - (branch + br.origin)) + U32Limit * (m - n);
    ModShift(dest - (branch + br.origin), m - n);
    assert WrappingSub32(d2, b2 + br.origin) == WrappingSub32(dest, branch + br.origin);
  }

  lemma ModShift(x: int, j: int)
    ensures (x + U32Limit * j) % U32Limit == x % U32Limit
  {
    var q := x / U32Limit;
    var r := x % U32Limit;
    assert x + U32Limit * j == U32Limit * (q + j) + r;
  }

  /** The ARM T1 branch: origin 4, 9 displacement bits. */
  const T1: BranchRange := BranchRange(4, 9)

  /** Short hops around the origin are in range. */
  lemma T1ContainsNearby()
    ensures Contains(T1, 0, 0) && Contains(T1, 0, 2) && Contains(T1, 2, 0) && Contains(T1, 1000, 1000)
  {
    Pow2Values();
  }

  /** The forward limit is `+254`: 1258 reaches, 1260 does not. */
  lemma T1ForwardLimit()
    ensures Contains(T1, 1000, 1258) && !Contains(T1, 1000, 1260)
  {
    Pow2Values();
  }

  /** The backward limit is `-256`: 748 reaches, 746 does not. */
  lemma T1BackwardLimit()
    ensures Contains(T1, 1000, 748) && !Contains(T1, 1000, 746)
  {
    Pow2Values();
  }
}
