/** The statement macros of the program, on the working copy of the chaining state. */
module ShabalRounds {
  import opened Words
  import opened Shabal
  import opened ShabalPermutation

  /** INPUT_BLOCK_ADD, register by register. */
  method InputBlockAdd(b0: BRow, m: BRow) returns (b: BRow)
    ensures b == AddRow(b0, m)
  {
    hide Plus;
    b := b0;
    for i := 0 to 16
      invariant forall j | 0 <= j < 16 :: b[j] == if j < i then Plus(b0[j], m[j]) else b0[j]
    {
      b := b[i := Plus(b[i], m[i])];
    }
  }

  /** INPUT_BLOCK_SUB, register by register. */
  method InputBlockSub(c0: BRow, m: BRow) returns (c: BRow)
    ensures c == SubRow(c0, m)
  {
    hide Minus;
    c := c0;
    for i := 0 to 16
      invariant forall j | 0 <= j < 16 :: c[j] == if j < i then Minus(c0[j], m[j]) else c0[j]
    {
      c := c[i := Minus(c[i], m[i])];
    }
  }

  /** XOR_W */
  method XorCounter(a0: ARow, wlow: word, whigh: word) returns (a: ARow)
    ensures a == XorW(a0, wlow, whigh)
  {
    hide Xor;
    a := a0;
    a := a[0 := Xor(a[0], wlow)];
    a := a[1 := Xor(a[1], whigh)];
  }

  /** INPUT_BLOCK_ADD; XOR_W; APPLY_P */
  method InputBlock(s0: State, m: BRow) returns (s: State)
    ensures s == Inject(s0, m)
  {
    hide AddRow, XorW, ApplyP;
    var b := InputBlockAdd(s0.b, m);
    var a := XorCounter(s0.a, s0.wlow, s0.whigh);
    var r := ApplyPUnrolled(Regs(a, b), s0.c, m, 0);
    s := s0.(a := r.a, b := r.b);
  }

  /** INPUT_BLOCK_ADD; XOR_W; APPLY_P; INPUT_BLOCK_SUB; SWAP_BC; INCR_W */
  method MessageRound(s0: State, m: BRow) returns (s: State)
    ensures s == Compress(s0, m)
  {
    hide Inject, SubRow;
    s := InputBlock(s0, m);
    var c := InputBlockSub(s.c, m);
    s := s.(c := c);
    s := s.(b := s.c, c := s.b);
    s := s.(wlow := Plus(s.wlow, 1));
    if s.wlow == 0 {
      s := s.(whigh := Plus(s.whigh, 1));
    }
    InjectKeeps(s0, m);
  }

  lemma InjectKeeps(s: State, m: BRow)
    ensures Inject(s, m).c == s.c && Inject(s, m).wlow == s.wlow && Inject(s, m).whigh == s.whigh
  {
  }

  /** SWAP_BC; XOR_W; APPLY_P */
  method BlankRound(s0: State, m: BRow) returns (s: State)
    ensures s == Blank(s0, m)
  {
    hide XorW, ApplyP;
    s := s0.(b := s0.c, c := s0.b);
    var a := XorCounter(s.a, s.wlow, s.whigh);
    s := s.(a := a);
    var r := ApplyPUnrolled(Regs(s.a, s.b), s.c, m, 0);
    s := s.(a := r.a, b := r.b);
  }

  /** The padded block and the closing rounds; the output is left in the upper half of B. */
  method ClosingRounds(s0: State, m: BRow) returns (s: State)
    ensures s.b[8..] == Finish(s0, m)
  {
    hide Inject, Blank;
    s := InputBlock(s0, m);
    ghost var t := s;
    for i := 0 to 3
      invariant s == Blanks(i, t, m)
    {
      s := BlankRound(s, m);
    }
  }
}
