/**
  The code generator: translates a syntax tree into a flat byte-code program
  by appending instructions to a growing buffer while a program counter
  tracks the next free address. Alternation is compiled with forward
  references: a `Split` and a `Jump` are emitted with placeholder targets and
  patched in place once the addresses they point to are known.
 */
module CodeGen {
  import opened Common
  import opened Helper
  import opened Engine
  import opened Parser

  datatype CodeGenError = PCOverFlow | FailStar | FailOr | FailQuestion

  /**
    The nodes the generator translates: characters, concatenations and
    alternations. A quantifier node reaches `unimplemented!()`.
   */
  predicate Supported(ast: AST): (r: bool)
    ensures r ==> !ast.Plus? && !ast.Star? && !ast.Question?
  {
    match ast
    case Char(_) => true
    case Or(a, b) => Supported(a) && Supported(b)
    case Seq(v) => forall i | 0 <= i < |v| :: Supported(v[i])
    case _ => false
  }

  /** The number of instructions the translation of `ast` occupies. */
  function Size(ast: AST): nat
    requires Supported(ast)
  {
    match ast
    case Char(_) => 1
    case Seq(v) => SizeSeq(v)
    case Or(a, b) => Size(a) + Size(b) + 2
  }

  /** The sizes of the elements of a concatenation, summed. */
  function SizeSeq(v: seq<AST>): nat
    requires forall i | 0 <= i < |v| :: Supported(v[i])
  {
    if v == [] then 0 else SizeSeq(v[..|v| - 1]) + Size(v[|v| - 1])
  }

  /**
    The code for `ast` when its first instruction sits at address `start`.
    An alternation `Or(a, b)` is laid out as
        start:  Split(start + 1, j + 1)
                <code of a>
        j:      Jump(e)
        j + 1:  <code of b>
        e:
   */
  function Code(ast: AST, start: nat): (r: seq<Instruction>)
    requires Supported(ast)
    ensures |r| == Size(ast)
  {
    match ast
    case Char(c) => [Instruction.Char(c)]
    case Seq(v) => CodeSeq(v, start)
    case Or(a, b) => OrCode(start, Code(a, start + 1), Code(b, start + Size(a) + 2))
  }

  /** The code of each element of a concatenation, in order, each placed right after the previous one. */
  function CodeSeq(v: seq<AST>, start: nat): (r: seq<Instruction>)
    requires forall i | 0 <= i < |v| :: Supported(v[i])
    ensures |r| == SizeSeq(v)
  {
    if v == [] then []
    else
      var init := v[..|v| - 1];
      CodeSeq(init, start) + Code(v[|v| - 1], start + SizeSeq(init))
  }

  /** The whole program for `ast`: its code from address 0, then `Match`. */
  function Program(ast: AST): (p: seq<Instruction>)
    requires Supported(ast)
    ensures |p| == Size(ast) + 1 && p[|p| - 1] == Match
  {
    Code(ast, 0) + [Match]
  }

  /**
    The layout of an alternation at `start` around the code `ca` of its left
    branch and the code `cb` of its right branch.
   */
  function OrCode(start: nat, ca: seq<Instruction>, cb: seq<Instruction>): (r: seq<Instruction>)
    ensures |r| == |ca| + |cb| + 2
  {
    var j := start + 1 + |ca|;
    [Split(start + 1, j + 1)] + ca + [Jump(j + 1 + |cb|)] + cb
  }

  /** `Vec::get`: the element at `i`, if there is one. */
  function Get(insts: seq<Instruction>, i: nat): (r: Option<Instruction>)
    ensures r.Some? <==> i < |insts|
    ensures r.Some? ==> r.value == insts[i]
  {
    if i < |insts| then Some(insts[i]) else None
  }

  // ---------------------------------------------------------------------
  // Properties of the layout

  /**
    Every control transfer of `code` (whose first instruction is at address
    `start`) goes strictly forward and no further than `hi`.
   */
  ghost predicate Forward(code: seq<Instruction>, start: nat, hi: nat)
  {
    forall i | 0 <= i < |code| :: TargetsBetween(code[i], start + i + 1, hi)
  }

  lemma ForwardConcat(c1: seq<Instruction>, c2: seq<Instruction>, start: nat, hi: nat)
    requires Forward(c1, start, hi) && Forward(c2, start + |c1|, hi)
    ensures Forward(c1 + c2, start, hi)
  {
    forall i | 0 <= i < |c1 + c2|
      ensures TargetsBetween((c1 + c2)[i], start + i + 1, hi)
    {
      if i >= |c1| {
        assert (c1 + c2)[i] == c2[i - |c1|];
      }
    }
  }

  lemma ForwardWeaken(code: seq<Instruction>, start: nat, hi: nat, hi': nat)
    requires Forward(code, start, hi) && hi <= hi'
    ensures Forward(code, start, hi')
  {
  }

  /**
    The code of a supported tree only jumps forward, and never beyond the
    address right after its own last instruction.
   */
  lemma {:induction false} CodeForward(ast: AST, start: nat)
    requires Supported(ast)
    ensures Forward(Code(ast, start), start, start + Size(ast))
    decreases ast, 1
  {
    match ast
    case Char(_) =>
    case Seq(v) =>
      CodeSeqForward(v, start);
    case Or(a, b) =>
      CodeForward(a, start + 1);
      CodeForward(b, start + Size(a) + 2);
      OrCodeForward(start, Code(a, start + 1), Code(b, start + Size(a) + 2));
  }

  /** An alternation's own `Split` and `Jump` point forward, within its code or just past it. */
  lemma {:induction false} OrCodeForward(start: nat, ca: seq<Instruction>, cb: seq<Instruction>)
    requires Forward(ca, start + 1, start + 1 + |ca|)
    requires Forward(cb, start + |ca| + 2, start + |ca| + 2 + |cb|)
    ensures Forward(OrCode(start, ca, cb), start, start + |ca| + |cb| + 2)
  {
    var j := start + 1 + |ca|;
    var e := j + 1 + |cb|;
    ForwardWeaken(ca, start + 1, j, e);
    ForwardConcat([Split(start + 1, j + 1)], ca, start, e);
    ForwardConcat([Split(start + 1, j + 1)] + ca, [Jump(e)], start, e);
    ForwardConcat([Split(start + 1, j + 1)] + ca + [Jump(e)], cb, start, e);
  }

  lemma {:induction false} CodeSeqForward(v: seq<AST>, start: nat)
    requires forall i | 0 <= i < |v| :: Supported(v[i])
    ensures Forward(CodeSeq(v, start), start, start + SizeSeq(v))
    decreases v
  {
    if v != [] {
      var init := v[..|v| - 1];
      var hi := start + SizeSeq(v);
      CodeSeqForward(init, start);
      ForwardWeaken(CodeSeq(init, start), start, start + SizeSeq(init), hi);
      CodeForward(v[|v| - 1], start + SizeSeq(init));
      ForwardConcat(CodeSeq(init, start), Code(v[|v| - 1], start + SizeSeq(init)), start, hi);
    }
  }

  /**
    The program for a supported tree ends in `Match` and every `Jump` and
    `Split` target in it is an address of the program.
   */
  lemma ProgramWellFormed(ast: AST)
    requires Supported(ast)
    ensures WellFormed(Program(ast))
  {
    var p := Program(ast);
    CodeForward(ast, 0);
    ForwardConcat(Code(ast, 0), [Match], 0, Size(ast));
    assert Forward(p, 0, |p| - 1);
  }

  /** The layout of an alternation starting at `start`, instruction by instruction. */
  lemma {:induction false} OrCodeLayout(start: nat, ca: seq<Instruction>, cb: seq<Instruction>)
    ensures var c, j := OrCode(start, ca, cb), 1 + |ca|;
      && |c| == |ca| + |cb| + 2
      && c[0] == Split(start + 1, start + j + 1)
      && c[1..j] == ca
      && c[j] == Jump(start + |c|)
      && c[j + 1..] == cb
  {
    var c, j := OrCode(start, ca, cb), 1 + |ca|;
    assert c[1..j] == ca;
    assert c[j + 1..] == cb;
  }

  /** The characters of a tree's leaves, left to right. */
  function Leaves(ast: AST): seq<char>
    requires Supported(ast)
  {
    match ast
    case Char(c) => [c]
    case Seq(v) => LeavesSeq(v)
    case Or(a, b) => Leaves(a) + Leaves(b)
  }

  function LeavesSeq(v: seq<AST>): seq<char>
    requires forall i | 0 <= i < |v| :: Supported(v[i])
  {
    if v == [] then [] else LeavesSeq(v[..|v| - 1]) + Leaves(v[|v| - 1])
  }

  /** The characters of the `Char` instructions of `code`, in address order. */
  function CharsOf(code: seq<Instruction>): seq<char>
  {
    if code == [] then []
    else CharsOf(code[..|code| - 1]) + (if code[|code| - 1].Char? then [code[|code| - 1].c] else [])
  }

  lemma ControlHasNoChars(inst: Instruction)
    requires !inst.Char?
    ensures CharsOf([inst]) == []
  {
    assert [inst][..0] == [];
  }

  lemma {:induction false} CharsOfConcat(x: seq<Instruction>, y: seq<Instruction>)
    ensures CharsOf(x + y) == CharsOf(x) + CharsOf(y)
    decreases |y|
  {
    if y != [] {
      var y' := y[..|y| - 1];
      assert (x + y)[..|x + y| - 1] == x + y';
      CharsOfConcat(x, y');
    } else {
      assert x + y == x;
    }
  }

  /**
    The generated code holds one `Char` instruction per leaf of the tree,
    in the leaves' left-to-right order: concatenation and alternation emit
    their parts in order and add only control instructions.
   */
  lemma {:induction false} CodeKeepsCharOrder(ast: AST, start: nat)
    requires Supported(ast)
    ensures CharsOf(Code(ast, start)) == Leaves(ast)
    decreases ast, 1
  {
    match ast
    case Char(c) =>
      assert CharsOf([Instruction.Char(c)]) == CharsOf([]) + [c];
    case Seq(v) =>
      CodeSeqKeepsCharOrder(v, start);
    case Or(a, b) =>
      CodeKeepsCharOrder(a, start + 1);
      CodeKeepsCharOrder(b, start + Size(a) + 2);
      OrCodeChars(start, Code(a, start + 1), Code(b, start + Size(a) + 2));
  }

  /** An alternation's own `Split` and `Jump` contribute no characters. */
  lemma {:induction false} OrCodeChars(start: nat, ca: seq<Instruction>, cb: seq<Instruction>)
    ensures CharsOf(OrCode(start, ca, cb)) == CharsOf(ca) + CharsOf(cb)
  {
    var j := start + 1 + |ca|;
    var sp: seq<Instruction>, jp: seq<Instruction> := [Split(start + 1, j + 1)], [Jump(j + 1 + |cb|)];
    ControlHasNoChars(Split(start + 1, j + 1));
    ControlHasNoChars(Jump(j + 1 + |cb|));
    CharsOfConcat(sp, ca);
    CharsOfConcat(sp + ca, jp);
    CharsOfConcat(sp + ca + jp, cb);
  }

  lemma {:induction false} CodeSeqKeepsCharOrder(v: seq<AST>, start: nat)
    requires forall i | 0 <= i < |v| :: Supported(v[i])
    ensures CharsOf(CodeSeq(v, start)) == LeavesSeq(v)
    decreases v
  {
    if v != [] {
      var init := v[..|v| - 1];
      CodeSeqKeepsCharOrder(init, start);
      CodeKeepsCharOrder(v[|v| - 1], start + SizeSeq(init));
      CharsOfConcat(CodeSeq(init, start), Code(v[|v| - 1], start + SizeSeq(init)));
    }
  }

  /** Summing over a prefix of a concatenation never gives more than the whole. */
  lemma {:induction false} SizeSeqPrefix(v: seq<AST>, k: nat)
    requires forall i | 0 <= i < |v| :: Supported(v[i])
    requires k <= |v|
    ensures SizeSeq(v[..k]) <= SizeSeq(v)
    decreases |v|
  {
    if k < |v| {
      var init := v[..|v| - 1];
      assert init[..k] == v[..k];
      SizeSeqPrefix(init, k);
    } else {
      assert v[..k] == v;
    }
  }

  /** Patching the `Split` that opens an alternation once its `Jump` is emitted. */
  lemma PatchSplitLayout(before: seq<Instruction>, ca: seq<Instruction>)
    ensures
      var s, j := |before|, |before| + 1 + |ca|;
      var x := before + [Split(s + 1, 0)] + ca + [Jump(0)];
      && x[s] == Split(s + 1, 0)
      && x[s := Split(s + 1, j + 1)] == before + [Split(s + 1, j + 1)] + ca + [Jump(0)]
  {
    var s, j := |before|, |before| + 1 + |ca|;
    var x := before + [Split(s + 1, 0)] + ca + [Jump(0)];
    assert x[s := Split(s + 1, j + 1)] == before + [Split(s + 1, j + 1)] + ca + [Jump(0)];
  }

  /**
    Patching the `Jump` at `j`, which closes an alternation, once the right
    branch's code `cb` follows it.
   */
  lemma PatchJumpLayout(before: seq<Instruction>, ca: seq<Instruction>, cb: seq<Instruction>, j: nat)
    requires j == |before| + 1 + |ca|
    ensures (before + [Split(|before| + 1, j + 1)] + ca + [Jump(0)])[j := Jump(j + 1 + |cb|)] + cb
      == before + OrCode(|before|, ca, cb)
  {
    var x := before + [Split(|before| + 1, j + 1)] + ca + [Jump(0)];
    assert x[j := Jump(j + 1 + |cb|)] == before + [Split(|before| + 1, j + 1)] + ca + [Jump(j + 1 + |cb|)];
  }

  // ---------------------------------------------------------------------
  // The generator

  class Generator {
    /** The address of the next instruction. */
    var pc: Usize
    /** The instructions emitted so far. */
    var insts: seq<Instruction>

    /** Between steps, pc is the number of instructions emitted. */
    ghost predicate Valid()
      reads this
    {
      pc == |insts|
    }

    /** `Generator::default()`: an empty program, pc at 0. */
    constructor ()
      ensures Valid() && pc == 0 && insts == []
    {
      pc := 0;
      insts := [];
    }

    /** Advances pc by one through the checked addition; at the largest `usize` it reports `PCOverFlow`. */
    method IncPc() returns (r: Result<(), CodeGenError>)
      modifies this`pc
      ensures r.Ok? <==> old(pc) < USIZE_MAX
      ensures r.Err? ==> r.error == PCOverFlow
      ensures pc == if r.Ok? then old(pc) + 1 else old(pc)
    {
      match SafeAdd(pc, 1)
      case Some(next) =>
        pc := next;
        r := Ok(());
      case None =>
        r := Err(PCOverFlow);
    }

    /**
      Translates one supported node. It succeeds exactly when all of its
      code fits below the largest `usize`; then it has appended that code
      and nothing else. It never reports `FailOr`: every patch finds the
      instruction it expects. Whatever happens, the instructions emitted
      before the call are left as they were.
     */
    method GenExpr(ast: AST) returns (r: Result<(), CodeGenError>)
      requires Valid() && Supported(ast)
      modifies this
      ensures r.Ok? <==> old(pc) + Size(ast) <= USIZE_MAX
      ensures r.Err? ==> r.error == PCOverFlow
      ensures r.Ok? ==> Valid() && insts == old(insts) + Code(ast, old(pc))
      ensures old(insts) <= insts
      decreases ast, 2
    {
      match ast
      case Char(c) =>
        r := GenChar(c);
      case Or(e1, e2) =>
        r := GenOr(e1, e2);
      case Seq(v) =>
        r := GenSeq(v);
    }

    /** Translates the elements of a concatenation one after the other, adding nothing of its own. */
    method GenSeq(exprs: seq<AST>) returns (r: Result<(), CodeGenError>)
      requires Valid() && forall i | 0 <= i < |exprs| :: Supported(exprs[i])
      modifies this
      ensures r.Ok? <==> old(pc) + SizeSeq(exprs) <= USIZE_MAX
      ensures r.Err? ==> r.error == PCOverFlow
      ensures r.Ok? ==> Valid() && insts == old(insts) + CodeSeq(exprs, old(pc))
      ensures old(insts) <= insts
      decreases AST.Seq(exprs), 1
    {
      for i := 0 to |exprs|
        invariant Valid()
        invariant old(pc) + SizeSeq(exprs[..i]) <= USIZE_MAX
        invariant insts == old(insts) + CodeSeq(exprs[..i], old(pc))
      {
        assert exprs[..i + 1][..i] == exprs[..i];
        r := GenExpr(exprs[i]);
        if r.Err? {
          SizeSeqPrefix(exprs, i + 1);
          return;
        }
      }
      assert exprs[..|exprs|] == exprs;
      r := Ok(());
    }

    /** Emits `Char(c)` and advances pc. */
    method GenChar(c: char) returns (r: Result<(), CodeGenError>)
      requires Valid()
      modifies this
      ensures insts == old(insts) + [Instruction.Char(c)]
      ensures r.Ok? <==> old(pc) < USIZE_MAX
      ensures r.Err? ==> r.error == PCOverFlow
      ensures r.Ok? ==> Valid()
    {
      insts := insts + [Instruction.Char(c)];
      r := IncPc();
    }

    /**
      Translates `Or(e1, e2)`: a `Split` whose second target is patched once
      the code of `e1` and the `Jump` after it are emitted, then the code of
      `e2`, after which the `Jump`'s target is patched to the address
      following it.
     */
    method GenOr(e1: AST, e2: AST) returns (r: Result<(), CodeGenError>)
      requires Valid() && Supported(e1) && Supported(e2)
      modifies this
      ensures r.Ok? <==> old(pc) + Size(e1) + Size(e2) + 2 <= USIZE_MAX
      ensures r.Err? ==> r.error == PCOverFlow
      ensures r.Ok? ==> Valid() && insts == old(insts) + OrCode(old(pc), Code(e1, old(pc) + 1), Code(e2, old(pc) + Size(e1) + 2))
      ensures old(insts) <= insts
      decreases AST.Or(e1, e2), 1
    {
      ghost var before := insts;
      var jmpAddr;
      r, jmpAddr := GenOrLeft(e1);
      if r.Err? {
        return;
      }
      ghost var ca := Code(e1, old(pc) + 1);
      r := GenOrRight(e2, jmpAddr);
      PatchJumpLayout(before, ca, Code(e2, jmpAddr + 1), jmpAddr);
    }

    /**
      The first half of `GenOr`: the `Split`, the code of the left branch
      and the `Jump` after it, with the `Split`'s second target patched to
      the address following the `Jump`. The `Jump`'s address is returned
      for the second half to patch.
     */
    method GenOrLeft(e1: AST) returns (r: Result<(), CodeGenError>, jmpAddr: nat)
      requires Valid() && Supported(e1)
      modifies this
      ensures r.Ok? <==> old(pc) + Size(e1) + 2 <= USIZE_MAX
      ensures r.Err? ==> r.error == PCOverFlow
      ensures r.Ok? ==> Valid() && jmpAddr == old(pc) + 1 + Size(e1)
      ensures r.Ok? ==> insts == old(insts) + [Split(old(pc) + 1, jmpAddr + 1)] + Code(e1, old(pc) + 1) + [Jump(0)]
      ensures old(insts) <= insts
      decreases e1, 4
    {
      ghost var before := insts;
      var splitAddr := pc;
      jmpAddr := 0;
      r := GenSplitThen(e1);
      if r.Err? {
        return;
      }
      ghost var ca := Code(e1, splitAddr + 1);
      jmpAddr := pc;
      insts := insts + [Jump(0)];
      r := IncPc();
      if r.Err? {
        return;
      }
      PatchSplitLayout(before, ca);
      assert insts == before + [Split(splitAddr + 1, 0)] + ca + [Jump(0)];
      r := PatchSplit(splitAddr);
    }

    /**
      The opening of an alternation: advances pc past the `Split`, emits it
      with its first target at the following address and a placeholder
      second target, then emits the code of the left branch.
     */
    method GenSplitThen(e1: AST) returns (r: Result<(), CodeGenError>)
      requires Valid() && Supported(e1)
      modifies this
      ensures r.Ok? <==> old(pc) + Size(e1) + 1 <= USIZE_MAX
      ensures r.Err? ==> r.error == PCOverFlow
      ensures r.Ok? ==> Valid() && insts == old(insts) + [Split(old(pc) + 1, 0)] + Code(e1, old(pc) + 1)
      ensures old(insts) <= insts
      decreases e1, 3
    {
      r := IncPc();
      if r.Err? {
        return;
      }
      insts := insts + [Split(pc, 0)];
      r := GenExpr(e1);
    }

    /**
      The second half of `GenOr`: the code of the right branch, then the
      `Jump` at `jmpAddr`, which sits right before it, patched to the
      address following that code.
     */
    method GenOrRight(e2: AST, jmpAddr: nat) returns (r: Result<(), CodeGenError>)
      requires Valid() && Supported(e2)
      requires jmpAddr + 1 == |insts| && insts[jmpAddr] == Jump(0)
      modifies this
      ensures r.Ok? <==> old(pc) + Size(e2) <= USIZE_MAX
      ensures r.Err? ==> r.error == PCOverFlow
      ensures r.Ok? ==> Valid() && insts == old(insts)[jmpAddr := Jump(jmpAddr + 1 + Size(e2))] + Code(e2, jmpAddr + 1)
      ensures old(insts)[..jmpAddr] <= insts
      decreases e2, 3
    {
      r := GenExpr(e2);
      if r.Err? {
        return;
      }
      ghost var cb := Code(e2, jmpAddr + 1);
      assert insts == old(insts) + cb && insts[jmpAddr] == Jump(0);
      r := PatchJump(jmpAddr);
      assert insts == old(insts)[jmpAddr := Jump(jmpAddr + 1 + Size(e2))] + cb;
    }

    /**
      `if let Some(Split(_, l2)) = insts.get_mut(addr)`: sets the second
      target of the `Split` at `addr` to pc; reports `FailOr` when there is
      no `Split` there.
     */
    method PatchSplit(addr: nat) returns (r: Result<(), CodeGenError>)
      modifies this`insts
      ensures r.Ok? <==> addr < |old(insts)| && old(insts)[addr].Split?
      ensures r.Err? ==> r.error == FailOr && insts == old(insts)
      ensures r.Ok? ==> insts == old(insts)[addr := Split(old(insts)[addr].addr1, pc)]
    {
      match Get(insts, addr) {
        case Some(Split(l1, _)) =>
          insts := insts[addr := Split(l1, pc)];
          r := Ok(());
        case _ =>
          r := Err(FailOr);
      }
    }

    /**
      `if let Some(Jump(l3)) = insts.get_mut(addr)`: sets the target of the
      `Jump` at `addr` to pc; reports `FailOr` when there is no `Jump` there.
     */
    method PatchJump(addr: nat) returns (r: Result<(), CodeGenError>)
      modifies this`insts
      ensures r.Ok? <==> addr < |old(insts)| && old(insts)[addr].Jump?
      ensures r.Err? ==> r.error == FailOr && insts == old(insts)
      ensures r.Ok? ==> insts == old(insts)[addr := Jump(pc)]
    {
      match Get(insts, addr) {
        case Some(Jump(_)) =>
          insts := insts[addr := Jump(pc)];
          r := Ok(());
        case _ =>
          r := Err(FailOr);
      }
    }

    /** Translates the whole tree and appends the final `Match`. */
    method GenCode(ast: AST) returns (r: Result<(), CodeGenError>)
      requires Valid() && Supported(ast)
      modifies this
      ensures r.Ok? <==> old(pc) + Size(ast) + 1 <= USIZE_MAX
      ensures r.Err? ==> r.error == PCOverFlow
      ensures r.Ok? ==> Valid() && insts == old(insts) + Code(ast, old(pc)) + [Match]
    {
      r := GenExpr(ast);
      if r.Err? {
        return;
      }
      r := IncPc();
      if r.Err? {
        return;
      }
      insts := insts + [Match];
    }
  }

  /**
    `get_code`: compiles a supported tree with a fresh generator. It fails,
    with `PCOverFlow` and nothing else, exactly when the program would not
    fit in the `usize` address space; otherwise the program is `Program(ast)`:
    it ends in `Match` and every jump target is one of its addresses.
   */
  method GetCode(ast: AST) returns (r: Result<seq<Instruction>, CodeGenError>)
    requires Supported(ast)
    ensures r.Ok? <==> Size(ast) + 1 <= USIZE_MAX
    ensures r.Err? ==> r.error == PCOverFlow
    ensures r.Ok? ==> r.value == Program(ast) && WellFormed(r.value)
  {
    var gen := new Generator();
    var res := gen.GenCode(ast);
    if res.Err? {
      return Err(res.error);
    }
    ProgramWellFormed(ast);
    r := Ok(gen.insts);
  }
}
