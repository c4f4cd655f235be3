/**
  The syntax tree of a pattern and the three helpers of the parser that build
  it: validating an escaped character, wrapping the previous item of the
  concatenation accumulator in a quantifier, and folding the branches of an
  alternation into a right-nested chain of `Or` nodes.
 */
module Parser {
  import opened Common

  /** A pattern's syntax tree; a node owns its children. */
  datatype AST =
    | Char(c: char)
    | Plus(inner: AST)
    | Star(inner: AST)
    | Question(inner: AST)
    | Or(left: AST, right: AST)
    | Seq(elems: seq<AST>)

  datatype ParseError =
    | InvalidEscape(pos: nat, c: char)
    | InvalidRightParen(pos: nat)
    | NoPrev(pos: nat)
    | NoRightParen
    | Empty

  /** Which postfix quantifier was read. */
  datatype PSQ = Plus | Star | Question

  /** The meta-characters a backslash may escape. */
  const Escapable: set<char> := {'\\', '(', ')', '|', '+', '*', '?'}

  /**
    `\c` in a pattern: a literal `Char(c)` exactly when `c` is a
    meta-character, otherwise an `InvalidEscape` carrying the position and
    the offending character.
   */
  function ParseEscape(pos: nat, c: char): (r: Result<AST, ParseError>)
    ensures r.Ok? <==> c in Escapable
    ensures r.Ok? ==> r.value == AST.Char(c)
    ensures r.Err? ==> r.error == InvalidEscape(pos, c)
  {
    match c
    case '\\' | '(' | ')' | '|' | '+' | '*' | '?' => Ok(AST.Char(c))
    case _ => Err(InvalidEscape(pos, c))
  }

  /** The quantifier node for `astType` around `prev`. */
  function Quantify(astType: PSQ, prev: AST): (r: AST)
    ensures (r.Plus? || r.Star? || r.Question?) && r.inner == prev
    ensures r.Plus? <==> astType == PSQ.Plus
    ensures r.Star? <==> astType == PSQ.Star
    ensures r.Question? <==> astType == PSQ.Question
  {
    match astType
    case Plus => AST.Plus(prev)
    case Star => AST.Star(prev)
    case Question => AST.Question(prev)
  }

  /**
    A `+`, `*` or `?` read at `pos`: pops the last item of the concatenation
    accumulator `acc` and pushes it back wrapped in the quantifier. With
    nothing to quantify it fails with `NoPrev(pos)` and `acc` stays as it was.
    The Rust function mutates its `&mut Vec` argument; here the vector comes
    in as `acc` and goes out as `acc'`.
   */
  method ParsePlusStarQuestion(acc: seq<AST>, astType: PSQ, pos: nat)
    returns (acc': seq<AST>, r: Result<(), ParseError>)
    ensures r.Ok? <==> |acc| > 0
    ensures r.Err? ==> r.error == NoPrev(pos) && acc' == acc
    ensures r.Ok? ==> |acc'| == |acc|
    ensures r.Ok? ==> acc'[..|acc| - 1] == acc[..|acc| - 1]
    ensures r.Ok? ==> acc'[|acc| - 1] == Quantify(astType, acc[|acc| - 1])
  {
    acc' := acc;
    if |acc'| > 0 {
      var prev := acc'[|acc'| - 1];
      acc' := acc'[..|acc'| - 1];
      var ast := Quantify(astType, prev);
      acc' := acc' + [ast];
      r := Ok(());
    } else {
      r := Err(NoPrev(pos));
    }
  }

  /**
    The meaning of `fold_or`: no branch gives nothing, one branch is itself,
    and `[a] + rest` is `Or(a, <fold of rest>)`, so the leftmost branch is
    the one tried first.
   */
  function RightFold(branches: seq<AST>): (r: Option<AST>)
    ensures r.None? <==> |branches| == 0
  {
    if |branches| == 0 then None
    else if |branches| == 1 then Some(branches[0])
    else Some(Or(branches[0], RightFold(branches[1..]).value))
  }

  /**
    The branches found by walking `n` steps down the right spine of `Or`
    nodes: the left child of each, then the node reached last.
   */
  function OrSpine(t: AST, n: nat): (r: seq<AST>)
    ensures 0 < |r| <= n + 1
  {
    if n == 0 then [t]
    else match t
      case Or(l, rest) => [l] + OrSpine(rest, n - 1)
      case _ => [t]
  }

  /**
    Folding keeps every branch, in order: walking the `|branches| - 1` `Or`
    nodes of the fold gives back the branches.
   */
  lemma {:induction false} FoldOrKeepsOrder(branches: seq<AST>)
    requires |branches| > 0
    ensures OrSpine(RightFold(branches).value, |branches| - 1) == branches
  {
    if |branches| > 1 {
      FoldOrKeepsOrder(branches[1..]);
    }
  }

  /** Two lists of the same length fold to the same tree only if they are equal. */
  lemma FoldOrInjective(xs: seq<AST>, ys: seq<AST>)
    requires |xs| == |ys| && RightFold(xs) == RightFold(ys)
    ensures xs == ys
  {
    if |xs| > 0 {
      FoldOrKeepsOrder(xs);
      FoldOrKeepsOrder(ys);
    }
  }

  /** `Vec::reverse`, as a value: the elements of `s` back to front. */
  function Reversed<T>(s: seq<T>): (r: seq<T>)
    ensures |r| == |s|
    ensures forall i | 0 <= i < |s| :: r[i] == s[|s| - 1 - i]
  {
    seq(|s|, i requires 0 <= i < |s| => s[|s| - 1 - i])
  }

  /**
    `fold_or`: pops the last branch as the innermost node, reverses the
    remaining ones and wraps each, last to first, as the left alternative of
    an `Or` around what has been built so far.
   */
  method FoldOr(seqOr: seq<AST>) returns (r: Option<AST>)
    ensures r == RightFold(seqOr)
    ensures r.None? <==> |seqOr| == 0
    ensures |seqOr| == 1 ==> r == Some(seqOr[0])
    ensures |seqOr| > 1 ==> r == Some(Or(seqOr[0], RightFold(seqOr[1..]).value))
  {
    var n := |seqOr|;
    if n > 1 {
      var ast := seqOr[n - 1];
      var rest := Reversed(seqOr[..n - 1]);
      for k := 0 to |rest|
        invariant RightFold(seqOr[n - 1 - k..]) == Some(ast)
      {
        assert seqOr[n - 2 - k..] == [seqOr[n - 2 - k]] + seqOr[n - 1 - k..];
        ast := Or(rest[k], ast);
      }
      assert seqOr[n - 1 - |rest|..] == seqOr;
      r := Some(ast);
    } else {
      r := if n == 0 then None else Some(seqOr[n - 1]);
    }
  }
}
