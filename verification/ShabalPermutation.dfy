/**
 * The permutation as the program writes it out by hand, proved equal to the indexed
 * definition, and an inverse of the permutation and of the message round.
 */
module ShabalPermutation {
  import opened Words
  import opened Shabal

  // ---- the unrolled code refines the indexed definition -------------------------

  /**
   * PERM_ELT on named registers. The ghost arguments say which element step of the
   * definition this call stands for; the preconditions check the register names.
   */
  method PermElt(r0: Regs, xa0: nat, xa1: nat, xb0: nat, xb1: nat, xb2: nat, xb3: nat, xc: nat, xm: nat,
                 ghost k: nat, ghost start: Regs, c: BRow, m: BRow)
    returns (r: Regs)
    requires xa0 == k % 12 && xa1 == (k + 11) % 12
    requires xb0 == k % 16 && xb1 == (k + 13) % 16 && xb2 == (k + 9) % 16 && xb3 == (k + 6) % 16
    requires xc == (8 - k) % 16 && xm == k % 16
    requires r0 == Steps(k, start, c, m)
    ensures r == Steps(k + 1, start, c, m)
  {
    hide Xor, Times, Rotl15, Rotl1, AndNot, Not;
    var a, b := r0.a, r0.b;
    a := a[xa0 := Xor(Xor(Xor(Times(Xor(Xor(a[xa0], Times(Rotl15(a[xa1]), 5)), c[xc]), 3), b[xb1]),
                          AndNot(b[xb2], b[xb3])), m[xm])];
    b := b[xb0 := Not(Xor(Rotl1(b[xb0]), a[xa0]))];
    r := Regs(a, b);
  }

  /** PERM_STEP_0, written out: the sixteen element steps of pass 0. */
  method PermStep0(r0: Regs, c: BRow, m: BRow, ghost base: nat, ghost start: Regs) returns (r: Regs)
    requires base == 0 && r0 == Steps(base, start, c, m)
    ensures r == Steps(base + 16, start, c, m)
  {
    hide *;
    r := r0;
    r := PermElt(r, 0, 11, 0, 13, 9, 6, 8, 0, 0, start, c, m);
    r := PermElt(r, 1, 0, 1, 14, 10, 7, 7, 1, 1, start, c, m);
    r := PermElt(r, 2, 1, 2, 15, 11, 8, 6, 2, 2, start, c, m);
    r := PermElt(r, 3, 2, 3, 0, 12, 9, 5, 3, 3, start, c, m);
    r := PermElt(r, 4, 3, 4, 1, 13, 10, 4, 4, 4, start, c, m);
    r := PermElt(r, 5, 4, 5, 2, 14, 11, 3, 5, 5, start, c, m);
    r := PermElt(r, 6, 5, 6, 3, 15, 12, 2, 6, 6, start, c, m);
    r := PermElt(r, 7, 6, 7, 4, 0, 13, 1, 7, 7, start, c, m);
    r := PermElt(r, 8, 7, 8, 5, 1, 14, 0, 8, 8, start, c, m);
    r := PermElt(r, 9, 8, 9, 6, 2, 15, 15, 9, 9, start, c, m);
    r := PermElt(r, 10, 9, 10, 7, 3, 0, 14, 10, 10, start, c, m);
    r := PermElt(r, 11, 10, 11, 8, 4, 1, 13, 11, 11, start, c, m);
    r := PermElt(r, 0, 11, 12, 9, 5, 2, 12, 12, 12, start, c, m);
    r := PermElt(r, 1, 0, 13, 10, 6, 3, 11, 13, 13, start, c, m);
    r := PermElt(r, 2, 1, 14, 11, 7, 4, 10, 14, 14, start, c, m);
    r := PermElt(r, 3, 2, 15, 12, 8, 5, 9, 15, 15, start, c, m);
  }

  /** PERM_STEP_1, written out: the sixteen element steps of pass 1. */
  method PermStep1(r0: Regs, c: BRow, m: BRow, ghost base: nat, ghost start: Regs) returns (r: Regs)
    requires base == 16 && r0 == Steps(base, start, c, m)
    ensures r == Steps(base + 16, start, c, m)
  {
    hide *;
    r := r0;
    r := PermElt(r, 4, 3, 0, 13, 9, 6, 8, 0, 16, start, c, m);
    r := PermElt(r, 5, 4, 1, 14, 10, 7, 7, 1, 17, start, c, m);
    r := PermElt(r, 6, 5, 2, 15, 11, 8, 6, 2, 18, start, c, m);
    r := PermElt(r, 7, 6, 3, 0, 12, 9, 5, 3, 19, start, c, m);
    r := PermElt(r, 8, 7, 4, 1, 13, 10, 4, 4, 20, start, c, m);
    r := PermElt(r, 9, 8, 5, 2, 14, 11, 3, 5, 21, start, c, m);
    r := PermElt(r, 10, 9, 6, 3, 15, 12, 2, 6, 22, start, c, m);
    r := PermElt(r, 11, 10, 7, 4, 0, 13, 1, 7, 23, start, c, m);
    r := PermElt(r, 0, 11, 8, 5, 1, 14, 0, 8, 24, start, c, m);
    r := PermElt(r, 1, 0, 9, 6, 2, 15, 15, 9, 25, start, c, m);
    r := PermElt(r, 2, 1, 10, 7, 3, 0, 14, 10, 26, start, c, m);
    r := PermElt(r, 3, 2, 11, 8, 4, 1, 13, 11, 27, start, c, m);
    r := PermElt(r, 4, 3, 12, 9, 5, 2, 12, 12, 28, start, c, m);
    r := PermElt(r, 5, 4, 13, 10, 6, 3, 11, 13, 29, start, c, m);
    r := PermElt(r, 6, 5, 14, 11, 7, 4, 10, 14, 30, start, c, m);
    r := PermElt(r, 7, 6, 15, 12, 8, 5, 9, 15, 31, start, c, m);
  }

  /** PERM_STEP_2, written out: the sixteen element steps of pass 2. */
  method PermStep2(r0: Regs, c: BRow, m: BRow, ghost base: nat, ghost start: Regs) returns (r: Regs)
    requires base == 32 && r0 == Steps(base, start, c, m)
    ensures r == Steps(base + 16, start, c, m)
  {
    hide *;
    r := r0;
    r := PermElt(r, 8, 7, 0, 13, 9, 6, 8, 0, 32, start, c, m);
    r := PermElt(r, 9, 8, 1, 14, 10, 7, 7, 1, 33, start, c, m);
    r := PermElt(r, 10, 9, 2, 15, 11, 8, 6, 2, 34, start, c, m);
    r := PermElt(r, 11, 10, 3, 0, 12, 9, 5, 3, 35, start, c, m);
    r := PermElt(r, 0, 11, 4, 1, 13, 10, 4, 4, 36, start, c, m);
    r := PermElt(r, 1, 0, 5, 2, 14, 11, 3, 5, 37, start, c, m);
    r := PermElt(r, 2, 1, 6, 3, 15, 12, 2, 6, 38, start, c, m);
    r := PermElt(r, 3, 2, 7, 4, 0, 13, 1, 7, 39, start, c, m);
    r := PermElt(r, 4, 3, 8, 5, 1, 14, 0, 8, 40, start, c, m);
    r := PermElt(r, 5, 4, 9, 6, 2, 15, 15, 9, 41, start, c, m);
    r := PermElt(r, 6, 5, 10, 7, 3, 0, 14, 10, 42, start, c, m);
    r := PermElt(r, 7, 6, 11, 8, 4, 1, 13, 11, 43, start, c, m);
    r := PermElt(r, 8, 7, 12, 9, 5, 2, 12, 12, 44, start, c, m);
    r := PermElt(r, 9, 8, 13, 10, 6, 3, 11, 13, 45, start, c, m);
    r := PermElt(r, 10, 9, 14, 11, 7, 4, 10, 14, 46, start, c, m);
    r := PermElt(r, 11, 10, 15, 12, 8, 5, 9, 15, 47, start, c, m);
  }

  /** The additions n - 1, ..., 0 of C into A, in the descending order of the code. */
  function AddsDown(n: nat, a: ARow, c: BRow): ARow {
    if n == 0 then a else AddsDown(n - 1, AddC(n - 1, a, c), c)
  }

  lemma AddsCommute(i: nat, j: nat, a: ARow, c: BRow)
    ensures AddC(i, AddC(j, a, c), c) == AddC(j, AddC(i, a, c), c)
  {
    hide Plus;
    if i % 12 == j % 12 {
      PlusCommutes(a[i % 12], c[(i + 3) % 16], c[(j + 3) % 16]);
    }
  }

  lemma PlusCommutes(x: word, y: word, z: word)
    ensures Plus(Plus(x, y), z) == Plus(Plus(x, z), y)
  {
  }

  lemma {:induction false} AddsSlide(n: nat, k: nat, a: ARow, c: BRow)
    ensures AddsC(n, AddC(k, a, c), c) == AddC(k, AddsC(n, a, c), c)
  {
    hide AddC;
    if n != 0 {
      AddsSlide(n - 1, k, a, c);
      AddsCommute(n - 1, k, AddsC(n - 1, a, c), c);
    }
  }

  /** The descending additions of the code are the ascending ones of the definition. */
  lemma {:induction false} AddsDownIsAddsC(n: nat, a: ARow, c: BRow)
    ensures AddsDown(n, a, c) == AddsC(n, a, c)
  {
    hide AddC;
    if n != 0 {
      AddsDownIsAddsC(n - 1, AddC(n - 1, a, c), c);
      AddsSlide(n - 1, n - 1, a, c);
    }
  }

  lemma AddsDownZero(a: ARow, c: BRow)
    ensures AddsDown(0, a, c) == a
  {
  }

  /** One of the closing additions, by register name. */
  method AddOne(a0: ARow, xa: nat, xc: nat, ghost k: nat, ghost start: ARow, c: BRow) returns (a: ARow)
    requires xa == k % 12 && xc == (k + 3) % 16
    requires AddsDown(k + 1, a0, c) == start
    ensures AddsDown(k, a, c) == start
  {
    hide Plus;
    a := a0[xa := Plus(a0[xa], c[xc])];
    assert a == AddC(k, a0, c);
  }

  /** The 36 additions of C into A, written out in the order of the code. */
  method AddAll(a0: ARow, c: BRow, ghost base: nat) returns (a: ARow)
    requires base == 0
    ensures a == AddsC(base + 36, a0, c)
  {
    hide *;
    ghost var start := AddsDown(base + 36, a0, c);
    a := AddUpperHalf(a0, c, base, start);
    a := AddLowerHalf(a, c, base, start);
    AddsDownIsAddsC(base + 36, a0, c);
  }

  method AddUpperHalf(a0: ARow, c: BRow, ghost base: nat, ghost start: ARow) returns (a: ARow)
    requires base == 0 && AddsDown(base + 36, a0, c) == start
    ensures AddsDown(base + 18, a, c) == start
  {
    hide *;
    a := a0;
    a := AddOne(a, 11, 6, 35, start, c);
    a := AddOne(a, 10, 5, 34, start, c);
    a := AddOne(a, 9, 4, 33, start, c);
    a := AddOne(a, 8, 3, 32, start, c);
    a := AddOne(a, 7, 2, 31, start, c);
    a := AddOne(a, 6, 1, 30, start, c);
    a := AddOne(a, 5, 0, 29, start, c);
    a := AddOne(a, 4, 15, 28, start, c);
    a := AddOne(a, 3, 14, 27, start, c);
    a := AddOne(a, 2, 13, 26, start, c);
    a := AddOne(a, 1, 12, 25, start, c);
    a := AddOne(a, 0, 11, 24, start, c);
    a := AddOne(a, 11, 10, 23, start, c);
    a := AddOne(a, 10, 9, 22, start, c);
    a := AddOne(a, 9, 8, 21, start, c);
    a := AddOne(a, 8, 7, 20, start, c);
    a := AddOne(a, 7, 6, 19, start, c);
    a := AddOne(a, 6, 5, 18, start, c);
  }

  method AddLowerHalf(a0: ARow, c: BRow, ghost base: nat, ghost start: ARow) returns (a: ARow)
    requires base == 0 && AddsDown(base + 18, a0, c) == start
    ensures a == start
  {
    hide *;
    a := a0;
    a := AddOne(a, 5, 4, 17, start, c);
    a := AddOne(a, 4, 3, 16, start, c);
    a := AddOne(a, 3, 2, 15, start, c);
    a := AddOne(a, 2, 1, 14, start, c);
    a := AddOne(a, 1, 0, 13, start, c);
    a := AddOne(a, 0, 15, 12, start, c);
    a := AddOne(a, 11, 14, 11, start, c);
    a := AddOne(a, 10, 13, 10, start, c);
    a := AddOne(a, 9, 12, 9, start, c);
    a := AddOne(a, 8, 11, 8, start, c);
    a := AddOne(a, 7, 10, 7, start, c);
    a := AddOne(a, 6, 9, 6, start, c);
    a := AddOne(a, 5, 8, 5, start, c);
    a := AddOne(a, 4, 7, 4, start, c);
    a := AddOne(a, 3, 6, 3, start, c);
    a := AddOne(a, 2, 5, 2, start, c);
    a := AddOne(a, 1, 4, 1, start, c);
    a := AddOne(a, 0, 3, 0, start, c);
    AddsDownZero(a, c);
  }

  /** The rotations at the start of APPLY_P, register by register. */
  method RotateAll(b0: BRow) returns (b: BRow)
    ensures b == RotateB(b0)
  {
    hide Rotl17;
    b := b0;
    for i := 0 to 16
      invariant forall j | 0 <= j < 16 :: b[j] == if j < i then Rotl17(b0[j]) else b0[j]
    {
      b := b[i := Rotl17(b[i])];
    }
  }

  /** APPLY_P as the program spells it out is the keyed permutation of the definition. */
  method ApplyPUnrolled(r0: Regs, c: BRow, m: BRow, ghost zero: nat) returns (r: Regs)
    requires zero == 0
    ensures r == ApplyP(r0, c, m)
  {
    hide RotateB;
    ghost var start := Regs(r0.a, RotateB(r0.b));
    var b := RotateAll(r0.b);
    r := Regs(r0.a, b);
    r := PermStep0(r, c, m, zero, start);
    r := PermStep1(r, c, m, zero + 16, start);
    r := PermStep2(r, c, m, zero + 32, start);
    var a := AddAll(r.a, c, zero);
    r := Regs(a, r.b);
  }

  // ---- the permutation can be undone ----------------------------------------------

  /** Undoes MixA: 0xAAAAAAAB is the inverse of 3 modulo 2 to the 32. */
  function UnmixA(x: word, u: word, xc: word, xb1: word, q: word, xm: word): word {
    Xor(Xor(Times(Xor(Xor(Xor(x, xm), q), xb1), 0xAAAAAAAB), xc), u)
  }

  lemma XorUndone(x: word, y: word)
    ensures Xor(Xor(x, y), y) == x
  {
    XorUndoesXor(x, y);
  }

  lemma ThirdUndone(x: word)
    ensures Times(Times(x, 3), 0xAAAAAAAB) == x
    ensures Times(Times(x, 0xAAAAAAAB), 3) == x
  {
    var q := x * 3 / 0x1_0000_0000;
    WrapsBy(x, 2 * x - q * 0xAAAAAAAB);
    assert Times(x, 3) * 0xAAAAAAAB == x + (2 * x - q * 0xAAAAAAAB) * 0x1_0000_0000;
    var p := x * 0xAAAAAAAB / 0x1_0000_0000;
    WrapsBy(x, 2 * x - 3 * p);
    assert Times(x, 0xAAAAAAAB) * 3 == x + (2 * x - 3 * p) * 0x1_0000_0000;
  }

  lemma WrapsBy(x: word, t: int)
    ensures (x + t * 0x1_0000_0000) % 0x1_0000_0000 == x
  {
  }

  lemma UnmixAMixA(x: word, u: word, xc: word, xb1: word, q: word, xm: word)
    ensures UnmixA(MixA(x, u, xc, xb1, q, xm), u, xc, xb1, q, xm) == x
    ensures MixA(UnmixA(x, u, xc, xb1, q, xm), u, xc, xb1, q, xm) == x
  {
    hide Xor, Times;
    var v := Xor(Xor(x, u), xc);
    var y := Xor(Xor(Times(v, 3), xb1), q);
    XorUndone(y, xm);
    XorUndone(Xor(Times(v, 3), xb1), q);
    XorUndone(Times(v, 3), xb1);
    ThirdUndone(v);
    XorUndone(Xor(x, u), xc);
    XorUndone(x, u);
    var w := Xor(Xor(Xor(x, xm), q), xb1);
    var z := Times(w, 0xAAAAAAAB);
    XorUndone(Xor(z, xc), u);
    XorUndone(z, xc);
    ThirdUndone(w);
    XorUndone(Xor(Xor(x, xm), q), xb1);
    XorUndone(Xor(x, xm), q);
    XorUndone(x, xm);
  }

  function OldA(xa0: word, xa1: word, xb1: word, xb2: word, xb3: word, xc: word, xm: word): word {
    UnmixA(xa0, Times(Rotl15(xa1), 5), xc, xb1, AndNot(xb2, xb3), xm)
  }

  lemma OldANewA(xa0: word, xa1: word, xb1: word, xb2: word, xb3: word, xc: word, xm: word)
    ensures OldA(NewA(xa0, xa1, xb1, xb2, xb3, xc, xm), xa1, xb1, xb2, xb3, xc, xm) == xa0
    ensures NewA(OldA(xa0, xa1, xb1, xb2, xb3, xc, xm), xa1, xb1, xb2, xb3, xc, xm) == xa0
  {
    hide MixA, UnmixA, Times, Rotl15, AndNot;
    UnmixAMixA(xa0, Times(Rotl15(xa1), 5), xc, xb1, AndNot(xb2, xb3), xm);
  }

  function Rotr1(x: word): word {
    x / 2 + (x % 2) * 0x8000_0000
  }

  lemma Rotr1Rotl1(x: word)
    ensures Rotr1(Rotl1(x)) == x && Rotl1(Rotr1(x)) == x
  {
    LowBit(x % 0x8000_0000, x / 0x8000_0000);
    HighBit(x / 2, x % 2);
  }

  lemma LowBit(a: nat, b: nat)
    requires b < 2
    ensures (a * 2 + b) / 2 == a && (a * 2 + b) % 2 == b
  {
  }

  lemma HighBit(a: nat, b: nat)
    requires a < 0x8000_0000
    ensures (a + b * 0x8000_0000) / 0x8000_0000 == b && (a + b * 0x8000_0000) % 0x8000_0000 == a
  {
  }

  function OldB(xb0: word, xa0: word): word {
    Rotr1(Xor(Not(xb0), xa0))
  }

  lemma OldBNewB(xb0: word, xa0: word)
    ensures OldB(NewB(xb0, xa0), xa0) == xb0
    ensures NewB(OldB(xb0, xa0), xa0) == xb0
  {
    hide Xor, Rotl1, Rotr1;
    XorUndone(Rotl1(xb0), xa0);
    Rotr1Rotl1(xb0);
    Rotr1Rotl1(Xor(Not(xb0), xa0));
    XorUndone(Not(xb0), xa0);
  }

  /** Undoes element step k. */
  function UnStep(k: nat, r: Regs, c: BRow, m: BRow): Regs {
    var b := r.b[k % 16 := OldB(r.b[k % 16], r.a[k % 12])];
    Regs(r.a[k % 12 := OldA(r.a[k % 12], r.a[(k + 11) % 12], b[(k + 13) % 16], b[(k + 9) % 16],
                            b[(k + 6) % 16], c[(8 - k) % 16], m[k % 16])], b)
  }

  function UnSteps(n: nat, r: Regs, c: BRow, m: BRow): Regs {
    if n == 0 then r else UnSteps(n - 1, UnStep(n - 1, r, c, m), c, m)
  }

  lemma IndicesDiffer(k: nat)
    ensures k % 12 != (k + 11) % 12
    ensures k % 16 != (k + 13) % 16 && k % 16 != (k + 9) % 16 && k % 16 != (k + 6) % 16
  {
  }

  lemma UnStepStep(k: nat, r: Regs, c: BRow, m: BRow)
    ensures UnStep(k, Step(k, r, c, m), c, m) == r
    ensures Step(k, UnStep(k, r, c, m), c, m) == r
  {
    hide NewA, NewB, OldA, OldB;
    IndicesDiffer(k);
    var s := Step(k, r, c, m);
    OldBNewB(r.b[k % 16], s.a[k % 12]);
    OldANewA(r.a[k % 12], r.a[(k + 11) % 12], r.b[(k + 13) % 16], r.b[(k + 9) % 16],
             r.b[(k + 6) % 16], c[(8 - k) % 16], m[k % 16]);
    OldBNewB(r.b[k % 16], r.a[k % 12]);
    assert UnStep(k, s, c, m).a == r.a;
    assert UnStep(k, s, c, m).b == r.b;
    var u := UnStep(k, r, c, m);
    assert Step(k, u, c, m).a == r.a;
    assert Step(k, u, c, m).b == r.b;
  }

  lemma {:induction false} UnStepsSteps(n: nat, r: Regs, c: BRow, m: BRow)
    ensures UnSteps(n, Steps(n, r, c, m), c, m) == r
    ensures Steps(n, UnSteps(n, r, c, m), c, m) == r
  {
    hide Step, UnStep;
    if n != 0 {
      UnStepsSteps(n - 1, r, c, m);
      UnStepStep(n - 1, Steps(n - 1, r, c, m), c, m);
      UnStepsSteps(n - 1, UnStep(n - 1, r, c, m), c, m);
      UnStepStep(n - 1, r, c, m);
    }
  }

  function SubC(k: nat, a: ARow, c: BRow): ARow {
    a[k % 12 := Minus(a[k % 12], c[(k + 3) % 16])]
  }

  function SubsC(n: nat, a: ARow, c: BRow): ARow {
    if n == 0 then a else SubsC(n - 1, SubC(n - 1, a, c), c)
  }

  lemma SubCAddC(k: nat, a: ARow, c: BRow)
    ensures SubC(k, AddC(k, a, c), c) == a
    ensures AddC(k, SubC(k, a, c), c) == a
  {
  }

  lemma {:induction false} SubsCAddsC(n: nat, a: ARow, c: BRow)
    ensures SubsC(n, AddsC(n, a, c), c) == a
    ensures AddsC(n, SubsC(n, a, c), c) == a
  {
    hide AddC, SubC;
    if n != 0 {
      SubsCAddsC(n - 1, a, c);
      SubCAddC(n - 1, AddsC(n - 1, a, c), c);
      SubsCAddsC(n - 1, SubC(n - 1, a, c), c);
      SubCAddC(n - 1, a, c);
    }
  }

  function Rotr17(x: word): word {
    x / 0x2_0000 + (x % 0x2_0000) * 0x8000
  }

  function UnRotateB(b: BRow): BRow {
    seq(16, i requires 0 <= i < 16 => Rotr17(b[i]))
  }

  lemma Rotr17Rotl17(x: word)
    ensures Rotr17(Rotl17(x)) == x && Rotl17(Rotr17(x)) == x
  {
    hide Rotl17, Rotr17;
    Rotl17Parts(x / 0x8000, x % 0x8000);
    Rotr17Parts(x / 0x8000, x % 0x8000);
    Rotr17Parts(x % 0x2_0000, x / 0x2_0000);
    Rotl17Parts(x % 0x2_0000, x / 0x2_0000);
  }

  lemma Rotl17Parts(h: nat, l: nat)
    requires h < 0x2_0000 && l < 0x8000
    ensures Rotl17(h * 0x8000 + l) == l * 0x2_0000 + h
  {
  }

  lemma Rotr17Parts(h: nat, l: nat)
    requires h < 0x2_0000 && l < 0x8000
    ensures Rotr17(l * 0x2_0000 + h) == h * 0x8000 + l
  {
  }

  lemma UnRotateBRotateB(b: BRow)
    ensures UnRotateB(RotateB(b)) == b && RotateB(UnRotateB(b)) == b
  {
    hide Rotr17, Rotl17;
    forall i | 0 <= i < 16
      ensures UnRotateB(RotateB(b))[i] == b[i] && RotateB(UnRotateB(b))[i] == b[i]
    {
      Rotr17Rotl17(b[i]);
    }
  }

  /** The inverse of the keyed permutation under the same key and message. */
  function UnapplyP(r: Regs, c: BRow, m: BRow): Regs {
    var s := UnSteps(3 * |m|, Regs(SubsC(3 * |r.a|, r.a, c), r.b), c, m);
    Regs(s.a, UnRotateB(s.b))
  }

  /** For a fixed key C and message M the keyed permutation is a bijection on (A, B). */
  lemma PermutationIsBijective(r: Regs, c: BRow, m: BRow)
    ensures UnapplyP(ApplyP(r, c, m), c, m) == r
    ensures ApplyP(UnapplyP(r, c, m), c, m) == r
  {
    hide Steps, UnSteps, AddsC, SubsC, RotateB, UnRotateB;
    var s := Steps(3 * |m|, Regs(r.a, RotateB(r.b)), c, m);
    SubsCAddsC(3 * |s.a|, s.a, c);
    UnStepsSteps(3 * |m|, Regs(r.a, RotateB(r.b)), c, m);
    UnRotateBRotateB(r.b);
    var t := Regs(SubsC(3 * |r.a|, r.a, c), r.b);
    SubsCAddsC(3 * |r.a|, r.a, c);
    UnStepsSteps(3 * |m|, t, c, m);
    UnRotateBRotateB(UnSteps(3 * |m|, t, c, m).b);
  }

  /** Undoes the message round. */
  function Decompress(s: State, m: BRow): State {
    var c := AddRow(s.b, m);
    var low := Minus(s.wlow, 1);
    var high := if s.wlow == 0 then Minus(s.whigh, 1) else s.whigh;
    var r := UnapplyP(Regs(s.a, s.c), c, m);
    State(XorW(r.a, low, high), SubRow(r.b, m), c, low, high)
  }

  lemma RowsUndo(x: BRow, y: BRow)
    ensures SubRow(AddRow(x, y), y) == x && AddRow(SubRow(x, y), y) == x
  {
  }

  lemma XorWUndo(a: ARow, low: word, high: word)
    ensures XorW(XorW(a, low, high), low, high) == a
  {
    hide Xor;
    XorUndone(a[0], low);
    XorUndone(a[1], high);
  }

  /** For each message block the round is a bijection on the whole state (A, B, C, W). */
  lemma RoundIsBijective(s: State, m: BRow)
    ensures Decompress(Compress(s, m), m) == s
    ensures Compress(Decompress(s, m), m) == s
  {
    RoundUndone(s, m);
    RoundRedone(s, m);
  }

  lemma RoundUndone(s: State, m: BRow)
    ensures Decompress(Compress(s, m), m) == s
  {
    hide ApplyP, UnapplyP, AddRow, SubRow, XorW;
    PermutationIsBijective(Regs(XorW(s.a, s.wlow, s.whigh), AddRow(s.b, m)), s.c, m);
    RowsUndo(s.b, m);
    RowsUndo(s.c, m);
    XorWUndo(s.a, s.wlow, s.whigh);
  }

  lemma RoundRedone(s: State, m: BRow)
    ensures Compress(Decompress(s, m), m) == s
  {
    hide ApplyP, UnapplyP, AddRow, SubRow, XorW;
    var c := AddRow(s.b, m);
    var r := UnapplyP(Regs(s.a, s.c), c, m);
    var t := Decompress(s, m);
    PermutationIsBijective(Regs(s.a, s.c), c, m);
    RowsUndo(r.b, m);
    RowsUndo(s.b, m);
    XorWUndo(r.a, t.wlow, t.whigh);
  }
}
