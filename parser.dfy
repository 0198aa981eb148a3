/** The expression-to-GLSL generator of js/parser.js.  `toGLSL(expr)` parses
    the user's formula with mathjs and prints the tree with `inputParser` as a
    custom `toString` handler: mathjs asks the handler first for every node and
    falls back to its own printing when the handler returns undefined.  That
    printing prints the node's children with the same options, so the handler
    applies inside them too, and then joins their strings with the node's own
    tokens.  The model takes the parsed tree as input; the joining step of
    mathjs's own printing is the parameter `fallback`, which receives the node
    and its children's strings. */
module Parser {

  /** The operator names (mathjs's `fn`) the handler or `Number` looks at;
      `OtherOp` carries every other name (`mod`, `bitAnd`, `factorial` ...). */
  datatype Op = Add | Subtract | Multiply | Divide | UnaryMinus | UnaryPlus | Pow | OtherOp(name: string)

  /** The mathjs node kinds the handler distinguishes.  `text` is what
      JavaScript's number-to-string conversion makes of a constant's value.
      A `ParenthesisNode` keeps the parentheses the user wrote.  `OtherNode`
      stands for every other node type (function calls, assignments, arrays
      and so on), with the children mathjs prints for it, in the order it
      prints them. */
  datatype Node =
    | OperatorNode(fn: Op, args: seq<Node>)
    | SymbolNode(name: string)
    | ConstantNode(value: real, text: string)
    | ParenthesisNode(content: Node)
    | OtherNode(nodeType: string, args: seq<Node>)

  /** The exceptions the handler can raise: `RangeError` from a negative
      `repeat` count, `TypeError` from calling `toString` on a missing operand. */
  datatype Error = RangeError | TypeError

  /** What printing a node yields: a GLSL string, "undefined" (only the
      handler returns this; the printer then falls back), or an exception. */
  datatype Out = Text(s: string) | NoCustom | Thrown(e: Error)

  /** What printing a list of children yields: their strings, or the first
      exception. */
  datatype Outs = Texts(ss: seq<string>) | Raised(e: Error)

  datatype Option<T> = None | Some(value: T)

  /** The literal printed for the imaginary unit `i` (or `I`). */
  const ImaginaryLiteral: string := "vec4(0.0, 1.0, 1.0, 0.0)"

  /** The literal printed for a numeric constant: the point (v : 1) in
      homogeneous coordinates. */
  function ConstantLiteral(text: string): string
  {
    "vec4(" + text + ", 0.0, 1.0, 0.0)"
  }

  /** `name(inner)`. */
  function Call(name: string, inner: string): string
  {
    name + "(" + inner + ")"
  }

  /** The GLSL primitive each binary operator of the handler is printed as. */
  function BinaryPrimitive(fn: Op): Option<string>
  {
    match fn
    case Add => Some("_pAdd")
    case Subtract => Some("_pSub")
    case Multiply => Some("_pMul")
    case Divide => Some("_pDiv")
    case _ => None
  }

  /** `Number(node)`: JavaScript converts the node through mathjs's own
      printing (without the handler), so only a numeric literal, possibly
      behind a sign, yields a number; every other exponent is NaN. */
  function ExponentValue(node: Node): Option<real>
  {
    match node
    case ConstantNode(v, _) => Some(v)
    case OperatorNode(fn, args) =>
      if |args| == 1 && args[0].ConstantNode? && fn == UnaryMinus then Some(-args[0].value)
      else if |args| == 1 && args[0].ConstantNode? && fn == UnaryPlus then Some(args[0].value)
      else None
    case _ => None
  }

  /** `Number.isInteger`. */
  predicate IsInteger(x: real)
  {
    x.Floor as real == x
  }

  /** `s` repeated n times, `String.prototype.repeat`. */
  function Repeat(s: string, n: nat): (r: string)
    ensures |r| == n * |s|
  {
    if n == 0 then "" else s + Repeat(s, n - 1)
  }

  /** The meaning of an integer power n >= 1 of a base printed as `base`: the
      right-nested product base * (base * ( ... * base)). */
  function MulChain(base: string, n: nat): string
    requires 1 <= n
  {
    if n == 1 then base else Call("_pMul", base + ", " + MulChain(base, n - 1))
  }

  /** What the integer-exponent branch yields for a base printed as `base`:
      the product chain, or the `RangeError` that `")".repeat(pow - 1)` raises
      once pow - 1 is negative. */
  function PowChain(base: string, pow: int): Out
  {
    if pow < 1 then Thrown(RangeError) else Text(MulChain(base, pow))
  }

  /** The integer-exponent branch as the source writes it: a loop prepends
      `_pMul(base, ` pow - 1 times, then the base and pow - 1 closing
      parentheses are appended. */
  method PowLoop(base: string, pow: int) returns (r: Out)
    ensures r == PowChain(base, pow)
  {
    var str := "";
    var i := 1;
    while i < pow
      invariant 1 <= i && (1 <= pow ==> i <= pow)
      invariant str == Repeat("_pMul(" + base + ", ", i - 1)
    {
      str := str + "_pMul(" + base + ", ";
      RepeatSnoc("_pMul(" + base + ", ", i - 1);
      i := i + 1;
    }
    if pow - 1 < 0 {
      return Thrown(RangeError);
    }
    str := str + base + Repeat(")", pow - 1);
    MulChainUnrolled(base, pow);
    r := Text(str);
  }

  /** `node.toString(options)`: the handler's string if it gives one, mathjs's
      own printing otherwise.  With no `parenthesis` option mathjs keeps the
      user's parentheses around the printed content; every other node it
      prints by printing its children, where the first exception escapes, and
      joining their strings.  Applied to the parsed formula this is `toGLSL`. */
  function Render(node: Node, fallback: (Node, seq<string>) -> string): (r: Out)
    ensures !r.NoCustom?
    decreases node, 2
  {
    var h := Handler(node, fallback);
    if !h.NoCustom? then h
    else match node
      case ParenthesisNode(content) =>
        var inner := Render(content, fallback);
        if inner.Thrown? then inner else Text("(" + inner.s + ")")
      case OperatorNode(_, _) =>
        var children := RenderArgs(node, 0, fallback);
        if children.Raised? then Thrown(children.e) else Text(fallback(node, children.ss))
      case OtherNode(_, _) =>
        var children := RenderArgs(node, 0, fallback);
        if children.Raised? then Thrown(children.e) else Text(fallback(node, children.ss))
      case _ => Text(fallback(node, []))
  }

  /** The children of a node from the k-th on, printed in order. */
  function RenderArgs(node: Node, k: nat, fallback: (Node, seq<string>) -> string): Outs
    requires node.OperatorNode? || node.OtherNode?
    requires k <= |node.args|
    decreases node, 0, |node.args| - k
  {
    if k == |node.args| then Texts([])
    else
      var first := Render(node.args[k], fallback);
      if first.Thrown? then Raised(first.e)
      else
        var rest := RenderArgs(node, k + 1, fallback);
        if rest.Raised? then rest else Texts([first.s] + rest.ss)
  }

  /** Operand k of an operator node printed, or the `TypeError` of reading
      `toString` from `undefined` when the operand is missing. */
  function Arg(node: Node, k: nat, fallback: (Node, seq<string>) -> string): (r: Out)
    requires node.OperatorNode?
    ensures !r.NoCustom?
    decreases node, 0
  {
    if k < |node.args| then Render(node.args[k], fallback) else Thrown(TypeError)
  }

  /** `name(left, right)`, where the left operand is printed, and may throw,
      before the right one. */
  function Join2(name: string, left: Out, right: Out): (r: Out)
    requires !left.NoCustom? && !right.NoCustom?
  {
    if left.Thrown? then left
    else if right.Thrown? then right
    else Text(Call(name, left.s + ", " + right.s))
  }

  /** `inputParser(node, options)`.  An operator with a name the inner switch
      does not know falls through into the `SymbolNode` case, where the
      operator's (absent) name is not `i`, so the handler returns undefined. */
  function Handler(node: Node, fallback: (Node, seq<string>) -> string): Out
    decreases node, 1
  {
    match node
    case OperatorNode(fn, args) =>
      if BinaryPrimitive(fn).Some? then
        Join2(BinaryPrimitive(fn).value, Arg(node, 0, fallback), Arg(node, 1, fallback))
      else if fn == UnaryMinus then
        var operand := Arg(node, 0, fallback);
        if operand.Thrown? then operand else Text(Call("_pOpp", operand.s))
      else if fn == Pow then
        var pow := if 1 < |args| then ExponentValue(args[1]) else None;
        if pow.Some? && IsInteger(pow.value) then
          var base := Arg(node, 0, fallback);
          if base.Thrown? then base else PowChain(base.s, pow.value.Floor)
        else
          Join2("pow", Arg(node, 0, fallback), Arg(node, 1, fallback))
      else
        NoCustom
    case SymbolNode(name) =>
      if name == "i" || name == "I" then Text(ImaginaryLiteral) else NoCustom
    case ConstantNode(_, text) => Text(ConstantLiteral(text))
    case ParenthesisNode(_) => NoCustom
    case OtherNode(_, _) => NoCustom
  }

  // The loop and the recursive chain agree.

  lemma {:induction false} RepeatSnoc(s: string, n: nat)
    ensures Repeat(s, n + 1) == Repeat(s, n) + s
  {
    if n > 0 {
      RepeatSnoc(s, n - 1);
    }
  }

  /** The chain for exponent n is n - 1 prefixes `_pMul(base, `, the base, and
      n - 1 closing parentheses. */
  lemma {:induction false} MulChainUnrolled(base: string, n: nat)
    requires 1 <= n
    ensures MulChain(base, n) == Repeat("_pMul(" + base + ", ", n - 1) + base + Repeat(")", n - 1)
  {
    if n > 1 {
      var prefix := "_pMul(" + base + ", ";
      MulChainUnrolled(base, n - 1);
      RepeatSnoc(")", n - 2);
      calc {
        MulChain(base, n);
        "_pMul(" + (base + ", " + MulChain(base, n - 1)) + ")";
        prefix + MulChain(base, n - 1) + ")";
        prefix + (Repeat(prefix, n - 2) + base + Repeat(")", n - 2)) + ")";
        { Regroup(prefix, Repeat(prefix, n - 2), base, Repeat(")", n - 2)); }
        (prefix + Repeat(prefix, n - 2)) + base + (Repeat(")", n - 2) + ")");
      }
    }
  }

  lemma Regroup(p: string, r: string, b: string, c: string)
    ensures p + (r + b + c) + ")" == (p + r) + b + (c + ")")
  {
  }

  // The shape of the output, case by case.

  /** Addition, subtraction, multiplication and division print as the matching
      primitive applied to both operands, left operand first; an exception
      from the left operand wins over one from the right. */
  lemma BinaryShape(fn: Op, left: Node, right: Node, fallback: (Node, seq<string>) -> string)
    requires fn in {Add, Subtract, Multiply, Divide}
    ensures var r := Render(OperatorNode(fn, [left, right]), fallback);
      var l, rr := Render(left, fallback), Render(right, fallback);
      && (l.Text? && rr.Text? ==> r == Text(Call(BinaryPrimitive(fn).value, l.s + ", " + rr.s)))
      && (l.Thrown? ==> r == l)
      && (l.Text? && rr.Thrown? ==> r == rr)
  {
    var node := OperatorNode(fn, [left, right]);
    assert Arg(node, 0, fallback) == Render(left, fallback);
    assert Arg(node, 1, fallback) == Render(right, fallback);
  }

  /** Negation prints as `_pOpp(operand)`. */
  lemma UnaryMinusShape(operand: Node, fallback: (Node, seq<string>) -> string)
    ensures var r := Render(OperatorNode(UnaryMinus, [operand]), fallback);
      var o := Render(operand, fallback);
      (o.Text? ==> r == Text(Call("_pOpp", o.s))) && (o.Thrown? ==> r == o)
  {
    var node := OperatorNode(UnaryMinus, [operand]);
    assert Arg(node, 0, fallback) == Render(operand, fallback);
  }

  /** The pow branch, once the exponent is known to be the integer n. */
  lemma {:induction false} IntegerPowRender(base: Node, exponent: Node, n: int, fallback: (Node, seq<string>) -> string)
    requires ExponentValue(exponent) == Some(n as real)
    ensures var b := Render(base, fallback);
      Render(OperatorNode(Pow, [base, exponent]), fallback) == (if b.Thrown? then b else PowChain(b.s, n))
  {
    var node := OperatorNode(Pow, [base, exponent]);
    assert (n as real).Floor == n;
    assert Arg(node, 0, fallback) == Render(base, fallback);
  }

  /** A power with an integer exponent n >= 1 prints exactly as the
      right-nested product of n copies of the base, and for n = 1 as the
      base itself. */
  lemma {:induction false} IntegerPowIsProduct(base: Node, n: nat, text: string, fallback: (Node, seq<string>) -> string)
    requires 1 <= n
    ensures Render(OperatorNode(Pow, [base, ConstantNode(n as real, text)]), fallback)
         == Render(MulTree(base, n), fallback)
    ensures n == 1 ==>
      Render(OperatorNode(Pow, [base, ConstantNode(n as real, text)]), fallback) == Render(base, fallback)
  {
    IntegerPowRender(base, ConstantNode(n as real, text), n, fallback);
    MulTreeRender(base, n, fallback);
  }

  /** base * (base * ( ... * base)) with n factors, as a tree. */
  function MulTree(base: Node, n: nat): Node
    requires 1 <= n
  {
    if n == 1 then base else OperatorNode(Multiply, [base, MulTree(base, n - 1)])
  }

  lemma {:induction false} MulTreeRender(base: Node, n: nat, fallback: (Node, seq<string>) -> string)
    requires 1 <= n
    ensures var b := Render(base, fallback);
      Render(MulTree(base, n), fallback) == (if b.Thrown? then b else Text(MulChain(b.s, n)))
  {
    if n > 1 {
      MulTreeRender(base, n - 1, fallback);
      BinaryShape(Multiply, base, MulTree(base, n - 1), fallback);
    }
  }

  /** An integer exponent of zero or less raises a `RangeError`, unless
      printing the base has already raised. */
  lemma {:induction false} NonPositivePowThrows(base: Node, exponent: Node, fallback: (Node, seq<string>) -> string)
    requires ExponentValue(exponent).Some? && IsInteger(ExponentValue(exponent).value)
    requires ExponentValue(exponent).value <= 0.0
    ensures var b := Render(base, fallback);
      Render(OperatorNode(Pow, [base, exponent]), fallback) == if b.Thrown? then b else Thrown(RangeError)
  {
    var v := ExponentValue(exponent).value;
    IntegerPowRender(base, exponent, v.Floor, fallback);
  }

  /** A fractional or non-numeric exponent prints as GLSL's `pow(base, exponent)`. */
  lemma OtherPowShape(base: Node, exponent: Node, fallback: (Node, seq<string>) -> string)
    requires ExponentValue(exponent).None? || !IsInteger(ExponentValue(exponent).value)
    requires Render(base, fallback).Text? && Render(exponent, fallback).Text?
    ensures Render(OperatorNode(Pow, [base, exponent]), fallback)
         == Text(Call("pow", Render(base, fallback).s + ", " + Render(exponent, fallback).s))
  {
    var node := OperatorNode(Pow, [base, exponent]);
    assert Arg(node, 0, fallback) == Render(base, fallback);
    assert Arg(node, 1, fallback) == Render(exponent, fallback);
  }

  /** The handler answers exactly for the five operators it knows, the
      symbols `i` and `I`, and constants; everything else is printed by
      mathjs itself; a plain symbol goes to the library's printer with no
      children, and prints as its name when that printer prints it so. */
  lemma HandledNodes(node: Node, fallback: (Node, seq<string>) -> string)
    ensures Handler(node, fallback).NoCustom? <==>
      || (node.OperatorNode? && node.fn !in {Add, Subtract, Multiply, Divide, UnaryMinus, Pow})
      || (node.SymbolNode? && node.name != "i" && node.name != "I")
      || node.ParenthesisNode?
      || node.OtherNode?
    ensures node.SymbolNode? && node.name !in {"i", "I"} ==> Render(node, fallback) == Text(fallback(node, []))
    ensures (node.SymbolNode? && node.name !in {"i", "I"} && fallback(node, []) == node.name) ==>
      Render(node, fallback) == Text(node.name)
    ensures node.SymbolNode? && node.name in {"i", "I"} ==> Render(node, fallback) == Text(ImaginaryLiteral)
    ensures node.ConstantNode? ==> Render(node, fallback) == Text(ConstantLiteral(node.text))
  {
  }

  /** The formula `z^2 + c` becomes `_pAdd(_pMul(z, z), c)` when mathjs prints
      the symbols by their names. */
  lemma QuadraticExample(fallback: (Node, seq<string>) -> string)
    requires fallback(SymbolNode("z"), []) == "z" && fallback(SymbolNode("c"), []) == "c"
    ensures Render(OperatorNode(Add, [OperatorNode(Pow, [SymbolNode("z"), ConstantNode(2.0, "2")]),
                                      SymbolNode("c")]), fallback)
         == Text("_pAdd(_pMul(z, z), c)")
  {
    var c := SymbolNode("c");
    var square := OperatorNode(Pow, [SymbolNode("z"), ConstantNode(2.0, "2")]);
    SquareExample(fallback);
    assert Render(c, fallback) == Text("c");
    BinaryShape(Add, square, c, fallback);
    QuadraticText();
  }

  lemma QuadraticText()
    ensures Call("_pAdd", "_pMul(z, z)" + ", " + "c") == "_pAdd(_pMul(z, z), c)"
  {
  }

  /** The `z^2` of `QuadraticExample`. */
  lemma SquareExample(fallback: (Node, seq<string>) -> string)
    requires fallback(SymbolNode("z"), []) == "z"
    ensures Render(OperatorNode(Pow, [SymbolNode("z"), ConstantNode(2.0, "2")]), fallback) == Text("_pMul(z, z)")
  {
    var z := SymbolNode("z");
    assert Render(z, fallback) == Text("z");
    IntegerPowRender(z, ConstantNode(2.0, "2"), 2, fallback);
    assert MulChain("z", 2) == "_pMul(z, z)";
  }

  // Nodes mathjs prints itself.

  /** The strings of a node's children, each printed on its own. */
  function ChildTexts(node: Node, fallback: (Node, seq<string>) -> string): seq<string>
    requires node.OperatorNode? || node.OtherNode?
  {
    seq(|node.args|, k requires 0 <= k < |node.args| =>
      var r := Render(node.args[k], fallback); if r.Text? then r.s else "")
  }

  /** Printing the children from the k-th on yields their strings exactly when
      none of them throws, and otherwise the exception of the first that does. */
  lemma {:induction false} RenderArgsSpec(node: Node, k: nat, fallback: (Node, seq<string>) -> string)
    requires node.OperatorNode? || node.OtherNode?
    requires k <= |node.args|
    ensures RenderArgs(node, k, fallback).Texts? <==>
      forall j :: k <= j < |node.args| ==> Render(node.args[j], fallback).Text?
    ensures RenderArgs(node, k, fallback).Texts? ==>
      RenderArgs(node, k, fallback).ss == ChildTexts(node, fallback)[k..]
    ensures forall j ::
      (k <= j < |node.args| && Render(node.args[j], fallback).Thrown? &&
       forall i :: k <= i < j ==> Render(node.args[i], fallback).Text?) ==>
      RenderArgs(node, k, fallback) == Raised(Render(node.args[j], fallback).e)
    decreases |node.args| - k
  {
    if k < |node.args| {
      RenderArgsSpec(node, k + 1, fallback);
      var texts := ChildTexts(node, fallback);
      assert texts[k..] == [texts[k]] + texts[k + 1..];
    }
  }

  /** A node the handler leaves alone, other than a symbol or parentheses, is
      printed by joining its children's strings when none of them throws; an
      exception from a child escapes, the first child's winning. */
  lemma {:induction false} DefaultPrinting(node: Node, fallback: (Node, seq<string>) -> string)
    requires node.OtherNode? || (node.OperatorNode? && node.fn !in {Add, Subtract, Multiply, Divide, UnaryMinus, Pow})
    ensures (forall k :: 0 <= k < |node.args| ==> Render(node.args[k], fallback).Text?) ==>
      Render(node, fallback) == Text(fallback(node, ChildTexts(node, fallback)))
    ensures forall j ::
      (0 <= j < |node.args| && Render(node.args[j], fallback).Thrown? &&
       forall i :: 0 <= i < j ==> Render(node.args[i], fallback).Text?) ==>
      Render(node, fallback) == Render(node.args[j], fallback)
  {
    RenderArgsSpec(node, 0, fallback);
    assert ChildTexts(node, fallback)[0..] == ChildTexts(node, fallback);
  }

  /** Parentheses the user wrote are kept around the printed content, and an
      exception inside them escapes. */
  lemma ParenthesesKept(content: Node, fallback: (Node, seq<string>) -> string)
    ensures var c := Render(content, fallback);
      && (c.Text? ==> Render(ParenthesisNode(content), fallback) == Text("(" + c.s + ")"))
      && (c.Thrown? ==> Render(ParenthesisNode(content), fallback) == c)
  {
  }

  /** The formula `(z+1)/(z-1)`: the handler applies inside the parentheses,
      which are kept, giving
      `_pDiv((_pAdd(z, vec4(1, 0.0, 1.0, 0.0))), (_pSub(z, vec4(1, 0.0, 1.0, 0.0))))`. */
  lemma FractionExample(z: Node, one: Node, fallback: (Node, seq<string>) -> string)
    requires z == SymbolNode("z") && one == ConstantNode(1.0, "1")
    requires fallback(z, []) == "z"
    ensures Render(OperatorNode(Divide, [ParenthesisNode(OperatorNode(Add, [z, one])),
                                         ParenthesisNode(OperatorNode(Subtract, [z, one]))]), fallback)
         == Text(Call("_pDiv", ("(" + Call("_pAdd", "z" + ", " + ConstantLiteral("1")) + ")") + ", "
                             + ("(" + Call("_pSub", "z" + ", " + ConstantLiteral("1")) + ")")))
  {
    var sum, difference := OperatorNode(Add, [z, one]), OperatorNode(Subtract, [z, one]);
    ShiftExample(Add, fallback);
    ShiftExample(Subtract, fallback);
    BinaryShape(Divide, ParenthesisNode(sum), ParenthesisNode(difference), fallback);
  }

  /** `(z+1)` and `(z-1)`. */
  lemma ShiftExample(fn: Op, fallback: (Node, seq<string>) -> string)
    requires fn in {Add, Subtract}
    requires fallback(SymbolNode("z"), []) == "z"
    ensures Render(ParenthesisNode(OperatorNode(fn, [SymbolNode("z"), ConstantNode(1.0, "1")])), fallback)
         == Text("(" + Call(BinaryPrimitive(fn).value, "z" + ", " + ConstantLiteral("1")) + ")")
  {
    ParenthesesKept(OperatorNode(fn, [SymbolNode("z"), ConstantNode(1.0, "1")]), fallback);
    ShiftOperands(fn, fallback);
  }

  lemma ShiftOperands(fn: Op, fallback: (Node, seq<string>) -> string)
    requires fn in {Add, Subtract}
    requires fallback(SymbolNode("z"), []) == "z"
    ensures Render(OperatorNode(fn, [SymbolNode("z"), ConstantNode(1.0, "1")]), fallback)
         == Text(Call(BinaryPrimitive(fn).value, "z" + ", " + ConstantLiteral("1")))
  {
    var z, one := SymbolNode("z"), ConstantNode(1.0, "1");
    assert Render(z, fallback) == Text("z");
    assert Render(one, fallback) == Text(ConstantLiteral("1"));
    BinaryShape(fn, z, one, fallback);
  }

  /** `(z^0)` and a function applied to `z^0`, such as `sqrt(z^0)`, raise the
      `RangeError` of the zero exponent. */
  lemma {:induction false} ZeroPowerEscapes(call: string, fallback: (Node, seq<string>) -> string)
    requires fallback(SymbolNode("z"), []) == "z"
    ensures Render(ParenthesisNode(OperatorNode(Pow, [SymbolNode("z"), ConstantNode(0.0, "0")])), fallback)
         == Thrown(RangeError)
    ensures Render(OtherNode(call, [OperatorNode(Pow, [SymbolNode("z"), ConstantNode(0.0, "0")])]), fallback)
         == Thrown(RangeError)
  {
    var z := SymbolNode("z");
    var power := OperatorNode(Pow, [z, ConstantNode(0.0, "0")]);
    assert Render(z, fallback) == Text("z");
    NonPositivePowThrows(z, ConstantNode(0.0, "0"), fallback);
    ParenthesesKept(power, fallback);
    DefaultPrinting(OtherNode(call, [power]), fallback);
  }

  // Balanced parentheses.

  /** Opening minus closing parentheses in s. */
  function Depth(s: string): int
  {
    if |s| == 0 then 0
    else Depth(s[..|s| - 1]) + (if s[|s| - 1] == '(' then 1 else if s[|s| - 1] == ')' then -1 else 0)
  }

  /** No prefix of s closes more parentheses than it opens, and s closes all
      it opens. */
  ghost predicate Balanced(s: string)
  {
    Depth(s) == 0 && forall i :: 0 <= i <= |s| ==> Depth(s[..i]) >= 0
  }

  /** Every constant of the tree prints with balanced parentheses. */
  ghost predicate ConstantsBalanced(node: Node)
  {
    match node
    case OperatorNode(_, args) => forall k :: 0 <= k < |args| ==> ConstantsBalanced(args[k])
    case OtherNode(_, args) => forall k :: 0 <= k < |args| ==> ConstantsBalanced(args[k])
    case ParenthesisNode(content) => ConstantsBalanced(content)
    case ConstantNode(_, text) => Balanced(text)
    case SymbolNode(_) => true
  }

  ghost predicate AllBalanced(ss: seq<string>)
  {
    forall k :: 0 <= k < |ss| ==> Balanced(ss[k])
  }

  /** mathjs's own tokens are balanced: joining balanced children's strings
      gives a balanced string, and a symbol's name is balanced. */
  ghost predicate KeepsBalance(fallback: (Node, seq<string>) -> string)
  {
    forall n, ss :: AllBalanced(ss) ==> Balanced(fallback(n, ss))
  }

  lemma {:induction false} DepthConcat(a: string, b: string)
    ensures Depth(a + b) == Depth(a) + Depth(b)
  {
    if |b| > 0 {
      assert (a + b)[..|a + b| - 1] == a + b[..|b| - 1];
      DepthConcat(a, b[..|b| - 1]);
    } else {
      assert a + b == a;
    }
  }

  lemma {:induction false} BalancedConcat(a: string, b: string)
    requires Balanced(a) && Balanced(b)
    ensures Balanced(a + b)
  {
    DepthConcat(a, b);
    forall i | 0 <= i <= |a + b|
      ensures Depth((a + b)[..i]) >= 0
    {
      if i <= |a| {
        assert (a + b)[..i] == a[..i];
      } else {
        assert (a + b)[..i] == a + b[..i - |a|];
        DepthConcat(a, b[..i - |a|]);
      }
    }
  }

  /** A string without parentheses is balanced. */
  lemma {:induction false} PlainBalanced(s: string)
    requires forall k :: 0 <= k < |s| ==> s[k] != '(' && s[k] != ')'
    ensures Balanced(s)
  {
    forall i | 0 <= i <= |s|
      ensures Depth(s[..i]) == 0
    {
      PlainDepth(s[..i]);
    }
    assert s[..|s|] == s;
  }

  lemma {:induction false} PlainDepth(s: string)
    requires forall k :: 0 <= k < |s| ==> s[k] != '(' && s[k] != ')'
    ensures Depth(s) == 0
  {
    if |s| > 0 {
      PlainDepth(s[..|s| - 1]);
    }
  }

  /** Wrapping a balanced string in parentheses keeps it balanced. */
  lemma {:induction false} WrapBalanced(s: string)
    requires Balanced(s)
    ensures Balanced("(" + s + ")")
  {
    var w := "(" + s + ")";
    DepthConcat("(", s);
    DepthConcat("(" + s, ")");
    assert Depth("(") == 1 by { assert "("[..0] == ""; }
    assert Depth(")") == -1 by { assert ")"[..0] == ""; }
    forall i | 0 <= i <= |w|
      ensures Depth(w[..i]) >= 0
    {
      if i == 0 {
      } else if i <= |s| + 1 {
        assert w[..i] == "(" + s[..i - 1];
        DepthConcat("(", s[..i - 1]);
      } else {
        assert w[..i] == w;
      }
    }
  }

  lemma {:induction false} CallBalanced(name: string, inner: string)
    requires Balanced(name) && Balanced(inner)
    ensures Balanced(Call(name, inner))
  {
    WrapBalanced(inner);
    BalancedConcat(name, "(" + inner + ")");
    assert Call(name, inner) == name + ("(" + inner + ")");
  }

  lemma {:induction false} Call2Balanced(name: string, left: string, right: string)
    requires Balanced(name) && Balanced(left) && Balanced(right)
    ensures Balanced(Call(name, left + ", " + right))
  {
    PlainBalanced(", ");
    BalancedConcat(left, ", ");
    BalancedConcat(left + ", ", right);
    CallBalanced(name, left + ", " + right);
  }

  lemma {:induction false} MulChainBalanced(base: string, n: nat)
    requires 1 <= n && Balanced(base)
    ensures Balanced(MulChain(base, n))
  {
    if n > 1 {
      MulChainBalanced(base, n - 1);
      PlainBalanced("_pMul");
      Call2Balanced("_pMul", base, MulChain(base, n - 1));
    }
  }

  lemma {:induction false} Join2Balanced(name: string, left: Out, right: Out)
    requires !left.NoCustom? && !right.NoCustom?
    requires Balanced(name)
    requires left.Text? ==> Balanced(left.s)
    requires right.Text? ==> Balanced(right.s)
    ensures Join2(name, left, right).Text? ==> Balanced(Join2(name, left, right).s)
  {
    if left.Text? && right.Text? {
      Call2Balanced(name, left.s, right.s);
    }
  }

  lemma PrimitiveBalanced(fn: Op)
    requires BinaryPrimitive(fn).Some?
    ensures Balanced(BinaryPrimitive(fn).value)
  {
    PlainBalanced(BinaryPrimitive(fn).value);
  }

  /** Balanced children print as a list of balanced strings. */
  lemma {:induction false} ArgsBalanced(node: Node, k: nat, fallback: (Node, seq<string>) -> string)
    requires node.OperatorNode? || node.OtherNode?
    requires k <= |node.args|
    requires forall j :: k <= j < |node.args| && Render(node.args[j], fallback).Text? ==>
      Balanced(Render(node.args[j], fallback).s)
    ensures RenderArgs(node, k, fallback).Texts? ==> AllBalanced(RenderArgs(node, k, fallback).ss)
    decreases |node.args| - k
  {
    if k < |node.args| {
      ArgsBalanced(node, k + 1, fallback);
    }
  }

  /** The operator case of `RenderBalanced`, given balanced operands. */
  lemma {:induction false} OperatorBalanced(node: Node, fallback: (Node, seq<string>) -> string)
    requires node.OperatorNode?
    requires KeepsBalance(fallback)
    requires forall k :: 0 <= k < |node.args| && Render(node.args[k], fallback).Text? ==>
      Balanced(Render(node.args[k], fallback).s)
    ensures Render(node, fallback).Text? ==> Balanced(Render(node, fallback).s)
  {
    var fn, args := node.fn, node.args;
    var a0, a1 := Arg(node, 0, fallback), Arg(node, 1, fallback);
    assert a0.Text? ==> Balanced(a0.s);
    assert a1.Text? ==> Balanced(a1.s);
    if BinaryPrimitive(fn).Some? {
      PrimitiveBalanced(fn);
      Join2Balanced(BinaryPrimitive(fn).value, a0, a1);
    } else if fn == UnaryMinus {
      if a0.Text? {
        PlainBalanced("_pOpp");
        CallBalanced("_pOpp", a0.s);
      }
    } else if fn == Pow {
      var pow := if 1 < |args| then ExponentValue(args[1]) else None;
      if pow.Some? && IsInteger(pow.value) {
        if a0.Text? && 1 <= pow.value.Floor {
          MulChainBalanced(a0.s, pow.value.Floor);
        }
      } else {
        PlainBalanced("pow");
        Join2Balanced("pow", a0, a1);
      }
    } else {
      ArgsBalanced(node, 0, fallback);
    }
  }

  lemma ImaginaryBalanced()
    ensures Balanced(ImaginaryLiteral)
  {
    PlainBalanced("vec4");
    PlainBalanced("0.0, 1.0, 1.0, 0.0");
    CallBalanced("vec4", "0.0, 1.0, 1.0, 0.0");
    ImaginaryLiteralIsCall();
  }

  lemma ImaginaryLiteralIsCall()
    ensures ImaginaryLiteral == Call("vec4", "0.0, 1.0, 1.0, 0.0")
  {
  }

  lemma ConstantLiteralBalanced(text: string)
    requires Balanced(text)
    ensures Balanced(ConstantLiteral(text))
  {
    PlainBalanced("vec4");
    PlainBalanced(", 0.0, 1.0, 0.0");
    BalancedConcat(text, ", 0.0, 1.0, 0.0");
    CallBalanced("vec4", text + ", 0.0, 1.0, 0.0");
    assert ConstantLiteral(text) == Call("vec4", text + ", 0.0, 1.0, 0.0");
  }

  /** When mathjs's own tokens are balanced and no constant's text holds an
      unmatched parenthesis, every piece of GLSL printed for the formula has
      balanced parentheses. */
  lemma {:induction false} RenderBalanced(node: Node, fallback: (Node, seq<string>) -> string)
    requires KeepsBalance(fallback)
    requires ConstantsBalanced(node)
    ensures Render(node, fallback).Text? ==> Balanced(Render(node, fallback).s)
    decreases node
  {
    match node
    case OperatorNode(fn, args) =>
      forall k | 0 <= k < |args| && Render(args[k], fallback).Text?
        ensures Balanced(Render(args[k], fallback).s)
      {
        RenderBalanced(args[k], fallback);
      }
      OperatorBalanced(node, fallback);
    case OtherNode(_, args) =>
      forall k | 0 <= k < |args| && Render(args[k], fallback).Text?
        ensures Balanced(Render(args[k], fallback).s)
      {
        RenderBalanced(args[k], fallback);
      }
      ArgsBalanced(node, 0, fallback);
    case ParenthesisNode(content) =>
      RenderBalanced(content, fallback);
      if Render(content, fallback).Text? {
        WrapBalanced(Render(content, fallback).s);
      }
    case SymbolNode(name) =>
      ImaginaryBalanced();
      assert AllBalanced([]);
    case ConstantNode(_, text) =>
      ConstantLiteralBalanced(text);
  }
}
