/** The sequential simulator the out-of-order machine is compared with. */
module RegisterSim {
  import opened Words

  datatype Op = Add | Mul | Sub | Shf | Bgt | Blt | Beq | Bne | Other

  /** One decoded instruction; `group` is the issue group that can execute it. */
  datatype Instr = Instr(op: Op, immOk: bool, imm: nat, src1: nat, src2: nat, dest: nat, group: nat)

  type Alu = (Op, nat, nat) -> nat

  /** What one instruction does to the register file when nothing overlaps. */
  function Exec(alu: Alu, regs: seq<nat>, i: Instr): (r: seq<nat>)
    requires i.src1 < |regs| && i.src2 < |regs| && i.dest < |regs|
    ensures |r| == |regs|
  {
    regs[i.dest := alu(i.op, regs[i.src1], if i.immOk then i.imm else regs[i.src2])]
  }

  predicate Fits(n: nat, i: Instr) {
    i.src1 < n && i.src2 < n && i.dest < n
  }

  /** The first k instructions of a program, one after the other. */
  function Run(alu: Alu, regs: seq<nat>, prog: seq<Instr>, k: nat): (r: seq<nat>)
    requires k <= |prog| && forall j :: 0 <= j < k ==> Fits(|regs|, prog[j])
    ensures |r| == |regs|
  {
    if k == 0 then regs
    else
      assert Fits(|regs|, prog[k - 1]);
      Exec(alu, Run(alu, regs, prog, k - 1), prog[k - 1])
  }

  /** Adding instructions at the end does not change a prefix run. */
  lemma {:induction false} RunPrefix(alu: Alu, regs: seq<nat>, p: seq<Instr>, q: seq<Instr>, k: nat)
    requires k <= |p| <= |q| && p == q[..|p|]
    requires forall j :: 0 <= j < k ==> Fits(|regs|, p[j])
    ensures forall j :: 0 <= j < k ==> Fits(|regs|, q[j])
    ensures Run(alu, regs, p, k) == Run(alu, regs, q, k)
  {
    if k > 0 {
      RunPrefix(alu, regs, p, q, k - 1);
      assert p[k - 1] == q[k - 1];
    }
  }

  /** A register no instruction between positions a and b writes keeps its value. */
  lemma {:induction false} RunUntouched(alu: Alu, regs: seq<nat>, prog: seq<Instr>, a: nat, b: nat, r: nat)
    requires a <= b <= |prog| && forall j :: 0 <= j < b ==> Fits(|regs|, prog[j])
    requires r < |regs| && forall j :: a <= j < b ==> prog[j].dest != r
    ensures Run(alu, regs, prog, b)[r] == Run(alu, regs, prog, a)[r]
  {
    if a < b {
      RunUntouched(alu, regs, prog, a, b - 1, r);
    }
  }

  /** The arithmetic of RegSim on operands already masked to the register width. */
  function Compute(width: nat, op: Op, a: nat, b: nat): (r: nat)
    ensures r < Pow2(width)
  {
    var m := Pow2(width);
    match op
    case Add => (a + b) % m
    case Mul => (a * b) % m
    case Sub => (a - b) % m
    case Shf => (a / Pow2(b % m)) % m
    case Bgt => (if a > b then 1 else 0) % m
    case Blt => (if a < b then 1 else 0) % m
    case Beq => (if a == b then 1 else 0) % m
    case Bne => (if a != b then 1 else 0) % m
    case Other => 0
  }

  /** x and y differ by a multiple of m. */
  ghost predicate SameModulo(m: nat, x: int, y: int) { exists k: int :: x == y + k * m }

  /** What an operation of that width is to give, as a relation between its operands and its result. */
  ghost predicate Gives(width: nat, op: Op, a: nat, b: nat, r: nat) {
    var m := Pow2(width);
    r < m && match op
             case Add => SameModulo(m, r, a + b)
             case Mul => SameModulo(m, r, a * b)
             case Sub => SameModulo(m, r, a - b)
             case Shf => var p := Pow2(b % m); r * p <= a < (r + 1) * p
             case Bgt => r <= 1 && (r == 1 <==> width > 0 && a > b)
             case Blt => r <= 1 && (r == 1 <==> width > 0 && a < b)
             case Beq => r <= 1 && (r == 1 <==> width > 0 && a == b)
             case Bne => r <= 1 && (r == 1 <==> width > 0 && a != b)
             case Other => r == 0
  }

  /** One in that width. */
  function One(width: nat): nat { if width > 0 then 1 else 0 }

  lemma Truth(width: nat)
    ensures 1 % Pow2(width) == One(width) && 0 % Pow2(width) == 0
  {
    if width > 0 {
      MaskFits(1, Pow2(width));
    }
    MaskFits(0, Pow2(width));
  }

  lemma {:induction false} ComputeGives(width: nat, op: Op, a: nat, b: nat)
    requires a < Pow2(width)
    ensures Gives(width, op, a, b, Compute(width, op, a, b))
  {
    var m := Pow2(width);
    hide Pow2, SameModulo;
    match op {
      case Add => Remainder(m, a + b);
      case Mul => Remainder(m, a * b);
      case Sub => Remainder(m, a - b);
      case Shf => Quotient(a, Pow2(b % m), m);
      case _ => Truth(width);
    }
  }

  lemma Remainder(m: nat, x: int)
    requires m > 0
    ensures 0 <= x % m < m && SameModulo(m, x % m, x)
  {
    var q := x / m;
    assert x == m * q + x % m;
    assert (-q) * m == -(m * q);
    assert x % m == x + (-q) * m;
  }

  lemma Quotient(a: nat, p: nat, m: nat)
    requires p > 0 && a < m
    ensures var r := (a / p) % m; r * p <= a < (r + 1) * p
  {
    var q, t := a / p, a % p;
    assert a == p * q + t;
    NotAbove(a, p, q, t);
    MaskFits(q, m);
    assert q * p == p * q && (q + 1) * p == p * q + p;
  }

  lemma NotAbove(a: nat, p: nat, q: nat, t: nat)
    requires p > 0 && a == p * q + t
    ensures q <= a
  {
    Product(p - 1, q);
    assert p * q == (p - 1) * q + q;
  }

  /** Two residues of one class. */
  lemma {:induction false} OneResidue(m: nat, r: nat, s: nat, x: int)
    requires r < m && s < m && SameModulo(m, r, x) && SameModulo(m, s, x)
    ensures r == s
  {
    var k: int :| r == x + k * m;
    var l: int :| s == x + l * m;
    Multiple(m, k - l);
    assert m * (k - l) == k * m - l * m;
  }

  lemma Shown(m: nat, x: int, y: int, k: int)
    requires x == y + k * m
    ensures SameModulo(m, x, y)
  {
  }

  /** Adding nothing leaves the operand, and adding one more goes on by one, round the end. */
  lemma {:induction false} AddSteps(width: nat, a: nat, b: nat, r: nat, s: nat, t: nat)
    requires a < Pow2(width) && Gives(width, Add, a, 0, t) && Gives(width, Add, a, b, r)
    requires Gives(width, Add, a, b + 1, s)
    ensures t == a && s == if r + 1 == Pow2(width) then 0 else r + 1
  {
    var m := Pow2(width);
    hide Pow2;
    Shown(m, a, a + 0, 0);
    OneResidue(m, t, a, a + 0);
    var k: int :| r == a + b + k * m;
    hide SameModulo;
    assert (k - 1) * m == k * m - m;
    var next := if r + 1 == m then 0 else r + 1;
    Shown(m, next, a + (b + 1), if r + 1 == m then k - 1 else k);
    OneResidue(m, s, next, a + (b + 1));
  }

  /** Subtraction undoes addition. */
  lemma {:induction false} SubUndoesAdd(width: nat, a: nat, b: nat, r: nat, s: nat)
    requires a < Pow2(width) && Gives(width, Add, a, b, r) && Gives(width, Sub, r, b, s)
    ensures s == a
  {
    var m := Pow2(width);
    hide Pow2;
    var k: int :| r == a + b + k * m;
    hide SameModulo;
    assert (-k) * m == -(k * m);
    Shown(m, a, r - b, -k);
    OneResidue(m, s, a, r - b);
  }

  /** A product with nothing is nothing, and with one more it is one operand more. */
  lemma {:induction false} MulSteps(width: nat, a: nat, b: nat, r: nat, s: nat, t: nat, u: nat)
    requires Gives(width, Mul, a, 0, t) && Gives(width, Mul, a, b, r) && Gives(width, Mul, a, b + 1, s)
    requires Gives(width, Add, r, a, u)
    ensures t == 0 && s == u
  {
    var m := Pow2(width);
    hide Pow2;
    Shown(m, 0, a * 0, 0);
    OneResidue(m, t, 0, a * 0);
    var k: int :| r == a * b + k * m;
    var l: int :| u == r + a + l * m;
    hide SameModulo;
    assert a * (b + 1) == a * b + a && (k + l) * m == k * m + l * m;
    Shown(m, u, a * (b + 1), k + l);
    OneResidue(m, s, u, a * (b + 1));
  }

  /** A shift by nothing leaves the operand, and by one more halves it. */
  lemma {:induction false} ShfHalves(width: nat, a: nat, b: nat, r: nat, s: nat, t: nat)
    requires b + 1 < Pow2(width) && Gives(width, Shf, a, 0, t) && Gives(width, Shf, a, b, r)
    requires Gives(width, Shf, a, b + 1, s)
    ensures t == a && s == r / 2
  {
    var m := Pow2(width);
    MaskFits(0, m);
    MaskFits(b, m);
    MaskFits(b + 1, m);
    var p := Pow2(b);
    assert Pow2(0) == 1 && Pow2(b + 1) == 2 * p;
    hide Pow2;
    Doubled(r, s, p, a);
  }

  lemma Doubled(r: nat, s: nat, p: nat, a: nat)
    requires r * p <= a < (r + 1) * p && s * (2 * p) <= a < (s + 1) * (2 * p)
    ensures s == r / 2
  {
    assert (2 * s) * p == s * (2 * p) && (2 * s + 2) * p == (s + 1) * (2 * p);
    Below(2 * s, r + 1, p, a);
    Below(r, 2 * s + 2, p, a);
  }

  lemma Below(x: nat, y: nat, p: nat, a: nat)
    requires x * p <= a < y * p
    ensures x < y
  {
    Multiple(p, y - x);
    assert p * (y - x) == y * p - x * p;
    assert p == 0 ==> y * p == 0;
  }

  /** The comparisons: exactly one of three, each the mirror or the complement of another, and the larger is greater. */
  lemma {:induction false} Compares(width: nat, a: nat, b: nat, gt: nat, lt: nat, eq: nat, ne: nat, tg: nat)
    requires width > 0 && Gives(width, Bgt, a, b, gt) && Gives(width, Blt, a, b, lt) && Gives(width, Beq, a, b, eq)
    requires Gives(width, Bne, a, b, ne) && Gives(width, Blt, b, a, tg)
    ensures gt + lt + eq == 1 && eq + ne == 1 && gt == tg
    ensures (eq == 1 <==> a == b) && (gt == 1 <==> a > b) && (lt == 1 <==> a < b)
  {
    hide Pow2;
  }

  function SimAlu(width: nat): Alu {
    (op: Op, a: nat, b: nat) => Compute(width, op, a, b)
  }

  lemma MaskFits(v: nat, m: nat)
    requires v < m
    ensures v % m == v
  {
  }

  /** One instruction of a program run by the simulator gives what its operation is to give. */
  lemma {:induction false} ExecGives(width: nat, regs: seq<nat>, i: Instr)
    requires Fits(|regs|, i) && regs[i.src1] < Pow2(width)
    ensures Gives(width, i.op, regs[i.src1], if i.immOk then i.imm else regs[i.src2],
                  Exec(SimAlu(width), regs, i)[i.dest])
  {
    ComputeGives(width, i.op, regs[i.src1], if i.immOk then i.imm else regs[i.src2]);
    hide Gives, Compute;
  }

  /** Every register fits the width; `Do` keeps this. */
  predicate AllFit(width: nat, regs: seq<nat>) {
    forall i :: 0 <= i < |regs| ==> regs[i] < Pow2(width)
  }

  class RegSim {
    const rwidth: nat
    var regs: seq<nat>

    constructor (rwidth: nat, nregs: nat)
      ensures this.rwidth == rwidth && |regs| == nregs && forall i :: 0 <= i < nregs ==> regs[i] == 0
      ensures AllFit(rwidth, regs)
    {
      this.rwidth := rwidth;
      regs := seq(nregs, _ => 0);
    }

    method SetVal(dest: nat, val: nat)
      requires dest < |regs|
      modifies this
      ensures regs == old(regs)[dest := val]
    {
      regs := regs[dest := val];
    }

    /** One instruction: an operation the simulator does not know leaves the registers alone. */
    method Do(i: Instr) returns (val: nat)
      requires Fits(|regs|, i) && AllFit(rwidth, regs)
      modifies this
      ensures AllFit(rwidth, regs)
      ensures i.op == Other ==> val == 0 && regs == old(regs)
      ensures i.op != Other ==> regs == old(regs)[i.dest := val] && regs == Exec(SimAlu(rwidth), old(regs), i)
      ensures var b := if i.immOk then i.imm else old(regs)[i.src2]; Gives(rwidth, i.op, old(regs)[i.src1], b, val)
    {
      var m := Pow2(rwidth);
      var a := regs[i.src1] % m;
      MaskFits(regs[i.src1], m);
      MaskFits(regs[i.src2], m);
      var b := if i.immOk then i.imm else regs[i.src2] % m;
      if i.op == Other { return 0; }
      ComputeGives(rwidth, i.op, a, b);
      val := Compute(rwidth, i.op, a, b);
      SetVal(i.dest, val);
    }

    /** A whole program, one instruction after the other. */
    method Play(prog: seq<Instr>)
      requires AllFit(rwidth, regs)
      requires forall j :: 0 <= j < |prog| ==> Fits(|regs|, prog[j]) && prog[j].op != Other
      modifies this
      ensures AllFit(rwidth, regs) && |regs| == |old(regs)|
      ensures regs == Run(SimAlu(rwidth), old(regs), prog, |prog|)
    {
      for k := 0 to |prog|
        invariant |regs| == |old(regs)| && AllFit(rwidth, regs)
        invariant regs == Run(SimAlu(rwidth), old(regs), prog, k)
      {
        var _ := Do(prog[k]);
      }
    }
  }
}
