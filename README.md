# Regex byte-code generator and parser helpers, in Dafny

This project models two parts of a small backtracking regular-expression
engine written in Rust:

- **The code generator** (`src/engine/codegen.rs`). A `Generator` holds a
  program counter `pc` and a growing vector of VM instructions. It
  translates a syntax tree into a flat program, and `get_code` ends that
  program with `Match`. An alternation `Or(e1, e2)` becomes a `Split`, the
  code of `e1`, a `Jump`, and then the code of `e2`. The `Split` and the
  `Jump` are emitted with placeholder targets and patched in place once the
  addresses are known. Every increment of `pc` goes through a checked
  addition that reports `PCOverFlow` instead of wrapping around.
- **Three parser helpers** (`src/engine/parser.rs`):
  - `parse_escape` validates the character after a backslash.
  - `parse_plus_star_question` wraps the previous item of the concatenation
    accumulator in a quantifier.
  - `fold_or` right-folds the branches of an alternation into nested `Or`
    nodes.

Files:

- `common.dfy`: the `Option` and `Result` wrappers.
- `helper.dfy`: `usize` as a bounded `nat`, and the checked addition.
- `engine.dfy`: the `Instruction` datatype and the program invariant
  `WellFormed`. `WellFormed` says the program is non-empty, ends in
  `Match`, and has every `Jump`/`Split` target inside the program.
- `parser.dfy`: `AST`, `ParseError`, `PSQ` and the three helpers.
- `codegen.dfy`: `CodeGenError`, the `Generator` class, and `get_code`.

How the generator is modelled:

- `Generator` is a class whose methods update its two fields: `pc` (a
  bounded `Usize`) and `insts` (a `seq<Instruction>`). Its invariant
  `Valid()` is `pc == |insts|`.
- Each generating method is proved against the function `Code(ast, start)`.
  `Code(ast, start)` is the instruction sequence the tree occupies when its
  first instruction sits at address `start`.
- The lemmas about `Code` establish three facts:
  - every jump goes forward and stays inside the code (`CodeForward`);
  - the layout of an alternation (`OrCodeLayout`);
  - the `Char` instructions appear in the order of the tree's leaves
    (`CodeKeepsCharOrder`).
- `gen_or` is one Rust function. The model splits its body into
  `GenOrLeft` and `GenOrRight`, which run the same steps in the same order:
  - `GenOrLeft`: the `Split` and the left branch (through `GenSplitThen`),
    then the `Jump` and the patch of the `Split`.
  - `GenOrRight`: the right branch and the patch of the `Jump`.
  - The lookup-and-patch steps are `PatchSplit` and `PatchJump`. Each
    reports `FailOr` when the instruction it looks up is not the one it
    expects, as the source does.
  - `GenOr`'s contract shows that `FailOr` never reaches the caller.

The AST also has `Star`, `Plus` and `Question` nodes
(`src/engine/parser.rs:11-13`). In the source, code generation for them
reaches `unimplemented!()` (`src/engine/codegen.rs:48`). The model follows the source: it translates
only trees built from `Char`, `Seq` and `Or` (the predicate `Supported`).

## Model

| member | source | states |
|---|---|---|
| Helper.SafeAdd | src/main.rs:48-61 | The checked addition that `safe_add` is tested for: `None` exactly when the sum exceeds the largest `usize`, otherwise the sum, which is never below the first operand. |
| Helper.SafeAddExamples | src/main.rs:49-54 | The unit test's cases: 10 + 20 is 30, and the largest `usize` plus one is `None`. |
| Parser.ParseEscape | src/engine/parser.rs:47-55 | Succeeds exactly when the character is one of the seven meta-characters: backslash, `(`, `)`, the vertical bar, `+`, `*` and `?`, and then yields `Char(c)`. Otherwise it fails with `InvalidEscape` carrying the same position and character. |
| Parser.Quantify | src/engine/parser.rs:69-73 | The node built for each `PSQ` kind is the matching quantifier (`Plus`, `Star` or `Question`, and no other) wrapping the previous item. |
| Parser.ParsePlusStarQuestion | src/engine/parser.rs:63-79 | Succeeds exactly when the accumulator is non-empty. On success the length is unchanged, every item but the last is unchanged, and the last item is wrapped in the quantifier. On an empty accumulator it fails with `NoPrev(pos)` and leaves the accumulator as it was. |
| Parser.RightFold | src/engine/parser.rs:81-92 | The meaning of `fold_or`: `None` exactly for an empty list, the element itself for one element, and `Or(first, fold of the rest)` otherwise. |
| Parser.Reversed | src/engine/parser.rs:84 | `reverse` keeps the length and puts element `i` at position `n - 1 - i`. |
| Parser.FoldOr | src/engine/parser.rs:81-92 | The pop, reverse and accumulating loop compute `RightFold`: `None` on an empty list, `Some(x)` on `[x]`, and `Or(a, fold(rest))` on `[a] + rest` when there are several branches. |
| Parser.FoldOrKeepsOrder | src/engine/parser.rs:83-87 | Walking the `n - 1` `Or` nodes of the fold's right spine gives back all `n` branches, in their original order. |
| Parser.FoldOrInjective | src/engine/parser.rs:81-92 | Two lists of the same length fold to the same tree only if they are equal, so the fold loses no branch and reorders none. |
| CodeGen.Supported | src/engine/codegen.rs:44-49 | The trees `gen_expr` translates: a `Char`, a `Seq` of supported trees, or an `Or` of two supported trees. Any other node is the `_ => unimplemented!()` arm, so a supported tree is never `Plus`, `Star` or `Question`. |
| CodeGen.Code | src/engine/codegen.rs:43-99 | The translation of a tree is exactly `Size(ast)` instructions long. The size of a concatenation is the sum of its elements' sizes, and an alternation adds 2. |
| CodeGen.CodeSeq | src/engine/codegen.rs:53-58 | The code `gen_seq` emits: each element's code in order, each placed right after the previous one, with nothing added. Its length is the sum of the elements' sizes. |
| CodeGen.OrCode | src/engine/codegen.rs:66-99 | The patched layout `gen_or` leaves around the branch codes `ca` and `cb`: `Split(s+1, j+1)`, then `ca`, then `Jump` to the address after `cb`, then `cb`. Its length is the two codes' lengths plus 2. |
| CodeGen.Program | src/engine/codegen.rs:101-106 | The whole program is one instruction longer than the tree's code and ends in `Match`. |
| CodeGen.Get | src/engine/codegen.rs:85 | The `get_mut` lookup finds an instruction exactly when the index is in range, and then it is the instruction at that index. |
| CodeGen.CodeForward | src/engine/codegen.rs:43-99 | Every `Jump` and `Split` in a tree's code targets an address after itself, and no further than the address just past that code. |
| CodeGen.CodeSeqForward | src/engine/codegen.rs:53-58 | The same holds for a concatenation, whose elements are laid out one after the other. |
| CodeGen.OrCodeForward | src/engine/codegen.rs:72-99 | An alternation's own `Split` and `Jump` point forward, and the branch codes keep their forward property once embedded in it. |
| CodeGen.ProgramWellFormed | src/engine/codegen.rs:101-113 | The program for any supported tree is well formed: it is non-empty, it ends in `Match`, and every `Jump`/`Split` target is one of its addresses. |
| CodeGen.OrCodeLayout | src/engine/codegen.rs:66-99 | An alternation at `s` is laid out as follows. `Split(s+1, j+1)` is at `s`. The left branch's code is at `s+1..j`. `Jump(e)` is at `j`, where `e` is the address just past the whole code. The right branch's code is at `j+1..e`. The total is the two branch sizes plus 2. |
| CodeGen.CodeKeepsCharOrder | src/engine/codegen.rs:43-99 | The `Char` instructions of a tree's code spell out the tree's leaves from left to right. Concatenation and alternation emit their parts in order and add only control instructions. |
| CodeGen.CodeSeqKeepsCharOrder | src/engine/codegen.rs:53-58 | The same holds for a concatenation: the elements' characters appear in element order. |
| CodeGen.OrCodeChars | src/engine/codegen.rs:72-99 | An alternation's `Split` and `Jump` contribute no characters. Its characters are the left branch's followed by the right branch's. |
| CodeGen.PatchSplitLayout | src/engine/codegen.rs:85-89 | The instruction at the recorded split address is the placeholder `Split`, and patching its second target gives the split its final form. |
| CodeGen.PatchJumpLayout | src/engine/codegen.rs:93-97 | Once the right branch's code follows the placeholder `Jump`, patching the `Jump`'s target to the address past that code yields exactly the alternation's final layout. |
| CodeGen.Generator.constructor | src/engine/codegen.rs:30-37 | A new generator has `pc = 0` and no instructions, so pc equals the number of instructions. |
| CodeGen.Generator.IncPc | src/engine/codegen.rs:39-41 | `pc` advances by one exactly when it is below the largest `usize`. Otherwise the result is `PCOverFlow` and `pc` is unchanged. |
| CodeGen.Generator.GenExpr | src/engine/codegen.rs:43-51 | Succeeds exactly when the tree's code fits below the largest `usize`, and then appends exactly `Code(ast, pc)` and keeps pc equal to the number of instructions. The only error is `PCOverFlow`, and earlier instructions are never changed. |
| CodeGen.Generator.GenSeq | src/engine/codegen.rs:53-58 | The loop appends the elements' codes in order and nothing of its own. It succeeds exactly when their total size fits, and its only error is `PCOverFlow`. |
| CodeGen.Generator.GenChar | src/engine/codegen.rs:60-65 | Appends exactly one `Char(c)`, leaving earlier instructions unchanged. It succeeds, with pc equal to the number of instructions, exactly when `pc` can advance. |
| CodeGen.Generator.GenOr | src/engine/codegen.rs:72-99 | Succeeds exactly when both branches plus the `Split` and the `Jump` fit, and then appends the alternation layout with both placeholders patched. It never returns `FailOr`: its only error is `PCOverFlow`. |
| CodeGen.Generator.GenOrLeft | src/engine/codegen.rs:73-89 | Emits the `Split`, the left branch and the placeholder `Jump`, with the split's second target patched to the address after the `Jump`. Returns the `Jump`'s address. |
| CodeGen.Generator.GenSplitThen | src/engine/codegen.rs:73-80 | Advances pc past the `Split`, emits it with first target `s+1` and a placeholder second target, then emits the left branch's code. It succeeds exactly when that fits, and its only error is `PCOverFlow`. |
| CodeGen.Generator.GenOrRight | src/engine/codegen.rs:91-97 | Emits the right branch and patches the `Jump` just before it to the address after that branch. |
| CodeGen.Generator.PatchSplit | src/engine/codegen.rs:85-89 | Patches the second target of the `Split` at the address to `pc`. When there is no `Split` there, it reports `FailOr` and changes nothing. |
| CodeGen.Generator.PatchJump | src/engine/codegen.rs:93-97 | Patches the target of the `Jump` at the address to `pc`. When there is no `Jump` there, it reports `FailOr` and changes nothing. |
| CodeGen.Generator.GenCode | src/engine/codegen.rs:101-106 | Appends the tree's code followed by `Match`. It succeeds exactly when that fits, and its only error is `PCOverFlow`. |
| CodeGen.GetCode | src/engine/codegen.rs:109-113 | Fails, only with `PCOverFlow`, exactly when the program would not fit in the `usize` address space. Otherwise it returns `Program(ast)`, which ends in `Match` and has every jump target inside the program. |

## Left out

- CodeGen.Generator.GenExpr: requires a tree without quantifiers (`Supported`), because for `Star`, `Plus` and `Question` the source reaches `unimplemented!()`, a panic, rather than producing a result. The same precondition is carried by `GenCode`, `GetCode`, `GenSeq`, `GenOr`, `GenOrLeft`, `GenSplitThen` and `GenOrRight`.
- `FailStar` and `FailQuestion` are declared, but no code in the source produces them, so the model never does either.
- `safe_add`'s source (`src/helper.rs`) is not part of this model. It is modelled from its tests at `src/main.rs:48-61` as a checked addition against the 64-bit `usize` maximum. On overflow it returns the error and leaves the counter unchanged.
- `parse_plus_star_question` mutates a `&mut Vec<AST>`. Rust forbids aliasing of that borrow, so the vector is modelled as a value that goes in and comes out.
- The top-level `parse` loop, the evaluator and `do_matching` are not part of this model. The same goes for the matching tests (`src/main.rs:63-73`), which need them.
- The `Display` impls of `Instruction`, `ParseError` and `CodeGenError` are left out: they only format diagnostics.
- The command-line front end in `src/main.rs` is left out: it does file and console I/O.
- The targets of `Jump` and `Split` are `usize` in the source (`src/engine.rs:11-12`) but unbounded `nat`s here. Every target the generator emits is at most the final pc, which is a bounded `Usize`, so no behaviour is lost.
- Error positions in `ParseError` are `usize` in the source. They are unbounded `nat`s here, because the helpers only copy them.
