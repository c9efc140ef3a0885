/** The patch language: infix syntax trees, their prefix encoding, the prefix
    compiler and the 64-bit evaluator. */
module Predicates {
  import opened Bits
  import opened Words
  import opened Text

  // ----- syntax trees and their meaning -----

  datatype BinOp =
    | Add | Sub | Mul | Div | Mod | BitwiseAnd | BitwiseOr | BitwiseXor
    | LeftShift | RightShift | Lt | Le | Eq | Ge | Gt | Ne

  /** One of the sixteen general registers. */
  type Register = r: nat | r < 16

  datatype Ast =
    | Const(value: int)
    | Reg(index: Register)
    | Plus(arg: Ast)
    | Minus(arg: Ast)
    | Complement(arg: Ast)
    | Bin(op: BinOp, lhs: Ast, rhs: Ast)

  /** A word, a hardware trap, or a register the environment does not have. */
  datatype Outcome = Word(value: int) | Trap | NoRegister

  predicate Traps(op: BinOp, x: int, y: int)
  {
    (op.Div? || op.Mod?) && (y == 0 || (x == INT64_MIN && y == -1))
  }

  /** The mathematical value of one operator on two words. */
  function Denote(op: BinOp, x: int, y: int): int
    requires !Traps(op, x, y)
  {
    match op
    case Add => Signed(x + y)
    case Sub => Signed(x - y)
    case Mul => Signed(x * y)
    case Div => CQuotient(x, y)
    case Mod => x - CQuotient(x, y) * y
    case BitwiseAnd => And(x, y)
    case BitwiseOr => Or(x, y)
    case BitwiseXor => Xor(x, y)
    case LeftShift => if y >= 0 then Signed(x * Pow2(y)) else Shr(x, -y)
    case RightShift => if y >= 0 then Shr(x, y) else Signed(x * Pow2(-y))
    case Lt => if x < y then 1 else 0
    case Le => if x <= y then 1 else 0
    case Eq => if x == y then 1 else 0
    case Ge => if x >= y then 1 else 0
    case Gt => if x > y then 1 else 0
    case Ne => if x != y then 1 else 0
  }

  /** The meaning of a tree: signed 64-bit words, evaluated left to right. */
  function Meaning(a: Ast, env: seq<int>): Outcome
  {
    match a
    case Const(v) => Word(Signed(v))
    case Reg(i) => if i < |env| then Word(env[i]) else NoRegister
    case Plus(e) => Meaning(e, env)
    case Minus(e) =>
      var x := Meaning(e, env);
      if x.Word? then Word(Signed(-x.value)) else x
    case Complement(e) =>
      var x := Meaning(e, env);
      if x.Word? then Word(Not(x.value)) else x
    case Bin(op, l, r) =>
      var x := Meaning(l, env);
      if !x.Word? then x else
      var y := Meaning(r, env);
      if !y.Word? then y
      else if Traps(op, x.value, y.value) then Trap
      else Word(Denote(op, x.value, y.value))
  }

  // ----- emission -----

  function OpText(op: BinOp): string
  {
    match op
    case Add => "+" case Sub => "-" case Mul => "*" case Div => "/" case Mod => "%"
    case BitwiseAnd => "&" case BitwiseOr => "|" case BitwiseXor => "^"
    case LeftShift => "l" case RightShift => "r"
    case Lt => "<" case Le => "<=" case Eq => "=" case Ge => ">=" case Gt => ">" case Ne => "!"
  }

  function Emit(a: Ast): (s: string)
    ensures |s| > 0
  {
    match a
    case Const(v) => if v >= 0 then "p" + Digits(v, 10) else "n" + Digits(-v, 10)
    case Reg(i) => "v" + Digits(i, 10)
    case Plus(e) => Emit(e)
    case Minus(e) => "-p0" + Emit(e)
    case Complement(e) => "~" + Emit(e)
    case Bin(op, l, r) => OpText(op) + Emit(l) + Emit(r)
  }

  function EmitBranch(a: Ast): string { "=" + Emit(a) + "p0" }

  // ----- the prefix compiler -----

  /** What the compiled function computes, before Python evaluates it. */
  datatype Term =
    | Literal(value: int)
    | Lookup(index: int)
    | Invert(arg: Term)
    | Apply(op: BinOp, lhs: Term, rhs: Term)

  datatype Parsed<T> = Ok(value: T, rest: string) | Bad

  /** The decimal scan: accumulate digits with 64-bit wraparound. */
  function ScanInt(s: string, acc: int): (int, string)
    decreases |s|
  {
    if s != [] && IsDecimal(s[0])
    then ScanInt(s[1..], Wrap64(acc * 10 + DigitValue(s[0])))
    else (acc, s)
  }

  lemma {:induction false} ScanIntShrinks(s: string, acc: int)
    ensures |ScanInt(s, acc).1| <= |s|
    decreases |s|
  {
    if s != [] && IsDecimal(s[0]) {
      ScanIntShrinks(s[1..], Wrap64(acc * 10 + DigitValue(s[0])));
    }
  }

  /** The characters that start a literal or a register. */
  predicate StartsOperand(c: char) { c == 'n' || c == 'p' || c == 'v' }

  /** The length of the operator at the head of `s`, taking "<=" and ">=" greedily. */
  function OpLength(s: string): (n: nat)
    requires s != []
    ensures 1 <= n <= |s|
  {
    if (s[0] == '<' || s[0] == '>') && |s| > 1 && s[1] == '=' then 2 else 1
  }

  datatype OpCode = Known(op: BinOp) | Unknown

  /** The operator that text denotes. */
  function OpAt(s: string): OpCode
    requires s != []
  {
    if OpLength(s) == 2 then Known(if s[0] == '<' then Le else Ge)
    else match s[0]
      case '+' => Known(Add) case '-' => Known(Sub) case '*' => Known(Mul) case '/' => Known(Div)
      case '%' => Known(Mod) case '&' => Known(BitwiseAnd) case '|' => Known(BitwiseOr)
      case '^' => Known(BitwiseXor) case 'l' => Known(LeftShift) case 'r' => Known(RightShift)
      case '<' => Known(Lt) case '=' => Known(Eq) case '>' => Known(Gt) case '!' => Known(Ne)
      case _ => Unknown
  }

  /** Parse one prefix term from the front of `s`. */
  function ParseTerm(s: string): (r: Parsed<Term>)
    ensures r.Ok? ==> |r.rest| < |s|
    decreases |s|
  {
    if s == [] then Bad
    else if StartsOperand(s[0]) then
      ScanIntShrinks(s[1..], 0);
      var (i, rest) := ScanInt(s[1..], 0);
      Ok(if s[0] == 'n' then Literal(Wrap64(-i)) else if s[0] == 'p' then Literal(i) else Lookup(i), rest)
    else if s[0] == '~' then
      var a := ParseTerm(s[1..]);
      if a.Ok? then Ok(Invert(a.value), a.rest) else Bad
    else
      var n := OpLength(s);
      var l := ParseTerm(s[n..]);
      if l.Bad? then Bad else
      var r := ParseTerm(l.rest);
      if r.Bad? then Bad else
      var op := OpAt(s);
      if op.Unknown? then Bad else Ok(Apply(op.op, l.value, r.value), r.rest)
  }

  datatype Compiled = Code(term: Term) | Rejected

  function Compile(s: string): Compiled
  {
    var r := ParseTerm(s);
    if r.Ok? && r.rest == [] then Code(r.value) else Rejected
  }

  /** The compiler itself: a reader over `text` with one moving position. */
  class PatchReader {
    const text: string
    var pos: nat

    constructor (text: string)
      ensures this.text == text && pos == 0
    {
      this.text := text;
      pos := 0;
    }

    ghost predicate AtSuffix(rest: string)
      reads this
    {
      pos <= |text| && text[pos..] == rest
    }

    method ParseInt() returns (i: int)
      requires pos <= |text|
      modifies this`pos
      ensures old(pos) <= pos <= |text|
      ensures i == ScanInt(old(text[pos..]), 0).0 && AtSuffix(ScanInt(old(text[pos..]), 0).1)
    {
      i := 0;
      while pos < |text| && IsDecimal(text[pos])
        invariant old(pos) <= pos <= |text|
        invariant ScanInt(text[pos..], i) == ScanInt(old(text[pos..]), 0)
      {
        assert text[pos..][1..] == text[pos + 1..];
        i := Wrap64(i * 10 + DigitValue(text[pos]));
        pos := pos + 1;
      }
    }

    method Parse() returns (r: Compiled)
      requires pos <= |text|
      modifies this`pos
      ensures old(pos) <= pos <= |text|
      ensures r.Code? <==> ParseTerm(old(text[pos..])).Ok?
      ensures r.Code? ==> r.term == ParseTerm(old(text[pos..])).value
                          && AtSuffix(ParseTerm(old(text[pos..])).rest) && old(pos) < pos
      decreases |text| - pos
    {
      ghost var s := text[pos..];
      if pos == |text| { return Rejected; }
      var start := pos;
      var c := text[pos];
      assert c == s[0];
      pos := pos + 1;
      assert text[pos..] == s[1..];
      if StartsOperand(c) {
        var i := ParseInt();
        return Code(if c == 'n' then Literal(Wrap64(-i)) else if c == 'p' then Literal(i) else Lookup(i));
      }
      if c == '~' {
        var a := Parse();
        return if a.Code? then Code(Invert(a.term)) else Rejected;
      }
      var op := OpAt(text[start..]);
      pos := start + OpLength(text[start..]);
      assert text[pos..] == s[OpLength(s)..];
      var l := Parse();
      if l.Rejected? { return Rejected; }
      var r' := Parse();
      if r'.Rejected? || op.Unknown? { return Rejected; }
      return Code(Apply(op.op, l.term, r'.term));
    }

    method CompileText() returns (c: Compiled)
      requires pos == 0
      modifies this`pos
      ensures c == Compile(text)
    {
      assert text[0..] == text;
      c := Parse();
      if c.Code? && pos != |text| { c := Rejected; }
    }
  }

  // ----- the compiled function -----

  /** Python indexing, with negative positions counting from the end. */
  function Index(env: seq<int>, i: int): Outcome
  {
    if 0 <= i < |env| then Word(env[i])
    else if -|env| <= i < 0 then Word(env[|env| + i])
    else NoRegister
  }

  /** Positions count modulo the length, within one turn to either side. */
  lemma IndexMeans(env: seq<int>, i: int)
    ensures Index(env, i) == if env != [] && -|env| <= i < |env| then Word(env[i % |env|]) else NoRegister
  {
    if -|env| <= i < 0 { assert i % |env| == (i + |env|) % |env| == i + |env|; }
  }

  /** Python's `int` of a comparison. */
  function Flag(b: bool): int { if b then 1 else 0 }

  /** One operator as the generated Python expression computes it. */
  function Compute(op: BinOp, x: int, y: int): Outcome
  {
    match op
    case Add => Word(Wrap64(x + y))
    case Sub => Word(Wrap64(x - y))
    case Mul => Word(Wrap64(x * y))
    case Div =>
      if y == 0 then Trap else if x == INT64_MIN && y == -1 then Trap else Word(TruncDiv(x, y))
    case Mod =>
      if y == 0 then Trap else if x == INT64_MIN && y == -1 then Trap
      else Word(Wrap64(x - TruncDiv(x, y) * y))
    case BitwiseAnd => Word(Wrap64(And(x, y)))
    case BitwiseOr => Word(Wrap64(Or(x, y)))
    case BitwiseXor => Word(Wrap64(Xor(x, y)))
    case LeftShift => Word(ShiftLeft(x, y))
    case RightShift => Word(ShiftRight(x, y))
    case Lt => Word(Flag(x < y))
    case Le => Word(Flag(x <= y))
    case Eq => Word(Flag(x == y))
    case Ge => Word(Flag(x >= y))
    case Gt => Word(Flag(x > y))
    case Ne => Word(Flag(x != y))
  }

  function Run(t: Term, env: seq<int>): Outcome
  {
    match t
    case Literal(v) => Word(v)
    case Lookup(i) => Index(env, i)
    case Invert(e) =>
      var x := Run(e, env);
      if x.Word? then Word(Wrap64(Not(x.value))) else x
    case Apply(op, l, r) =>
      var x := Run(l, env);
      if !x.Word? then x else
      var y := Run(r, env);
      if !y.Word? then y else Compute(op, x.value, y.value)
  }

  // ----- which trees compile -----

  /** The emission of `a` starts with "=": an equality, under any unary plus. */
  predicate StartsWithEquals(a: Ast)
  {
    match a
    case Plus(e) => StartsWithEquals(e)
    case Bin(op, _, _) => op.Eq?
    case _ => false
  }

  /** How many emitted "<" or ">" run into a following "=". */
  function Merges(a: Ast): nat
  {
    match a
    case Const(_) => 0
    case Reg(_) => 0
    case Plus(e) => Merges(e)
    case Minus(e) => Merges(e)
    case Complement(e) => Merges(e)
    case Bin(op, l, r) =>
      (if (op.Lt? || op.Gt?) && StartsWithEquals(l) then 1 else 0) + Merges(l) + Merges(r)
  }

  /** The term a tree is lowered to. */
  function Lower(a: Ast): Term
  {
    match a
    case Const(v) => Literal(Signed(v))
    case Reg(i) => Lookup(i)
    case Plus(e) => Lower(e)
    case Minus(e) => Apply(Sub, Literal(0), Lower(e))
    case Complement(e) => Invert(Lower(e))
    case Bin(op, l, r) => Apply(op, Lower(l), Lower(r))
  }

  // ----- literals of any size -----

  predicate NoDigitFirst(s: string) { s == [] || !IsDecimal(s[0]) }

  /** The value of `acc` followed by the digits `d`, without wraparound. */
  function Extend(acc: int, d: string): int
    requires AllDecimal(d)
    decreases |d|
  {
    if d == [] then acc else Extend(acc * 10 + DigitValue(d[0]), d[1..])
  }

  lemma {:induction false} ExtendSnoc(acc: int, d: string, c: char)
    requires AllDecimal(d) && IsDecimal(c)
    ensures AllDecimal(d + [c])
    ensures Extend(acc, d + [c]) == Extend(acc, d) * 10 + DigitValue(c)
    decreases |d|
  {
    if d != [] {
      assert (d + [c])[1..] == d[1..] + [c];
      ExtendSnoc(acc * 10 + DigitValue(d[0]), d[1..], c);
    }
  }

  lemma {:induction false} ExtendDigits(n: nat)
    ensures AllDecimal(Digits(n, 10)) && Extend(0, Digits(n, 10)) == n
    decreases n
  {
    if n >= 10 {
      ExtendDigits(n / 10);
      ExtendSnoc(0, Digits(n / 10, 10), DigitChar(n % 10));
    }
  }

  lemma SignedStep(acc: int, d: int)
    ensures Signed(Signed(acc) * 10 + d) == Signed(acc * 10 + d)
  {
    SignedOf(acc);
    var k: int :| acc == Signed(acc) + k * TWO64;
    SignedCongruent(Signed(acc) * 10 + d, 10 * k);
  }

  lemma SignedNegate(v: int)
    ensures Signed(-Signed(v)) == Signed(-v)
  {
    SignedOf(v);
    var k: int :| v == Signed(v) + k * TWO64;
    SignedCongruent(-Signed(v), -k);
  }

  lemma {:induction false} ScanDigits(d: string, rest: string, acc: int)
    requires AllDecimal(d) && NoDigitFirst(rest)
    ensures ScanInt(d + rest, Signed(acc)) == (Signed(Extend(acc, d)), rest)
    decreases |d|
  {
    if d == [] {
      assert d + rest == rest;
    } else {
      var v := DigitValue(d[0]);
      assert (d + rest)[1..] == d[1..] + rest;
      Wrap64IsSigned(Signed(acc) * 10 + v);
      SignedStep(acc, v);
      ScanDigits(d[1..], rest, acc * 10 + v);
    }
  }

  /** A literal of any size decodes to its value modulo 2^64. */
  lemma ScanNumeral(n: nat, rest: string)
    requires NoDigitFirst(rest)
    ensures ScanInt(Digits(n, 10) + rest, 0) == (Signed(n), rest)
  {
    ExtendDigits(n);
    ScanDigits(Digits(n, 10), rest, 0);
  }

  // ----- clean trees parse back -----

  lemma {:induction false} EmitHead(a: Ast)
    ensures NoDigitFirst(Emit(a))
    ensures (Emit(a)[0] == '=') == StartsWithEquals(a)
  {
    match a
    case Plus(e) => EmitHead(e);
    case _ =>
  }

  /** An operator not run into by "=" is read back as itself. */
  lemma OperatorRead(op: BinOp, t: string)
    requires t != [] && !((op.Lt? || op.Gt?) && t[0] == '=')
    ensures var s := OpText(op) + t;
            && !StartsOperand(s[0]) && s[0] != '~'
            && OpAt(s) == Known(op) && s[OpLength(s)..] == t
  {
    var s := OpText(op) + t;
    assert s[|OpText(op)|] == t[0];
    assert s[|OpText(op)|..] == t;
  }

  lemma NumeralParses(c: char, n: nat, rest: string)
    requires NoDigitFirst(rest) && StartsOperand(c)
    ensures ParseTerm([c] + Digits(n, 10) + rest) ==
            Ok(if c == 'n' then Literal(Signed(0 - n)) else if c == 'p' then Literal(Signed(n)) else Lookup(Signed(n)),
               rest)
  {
    var s := [c] + Digits(n, 10) + rest;
    assert s[1..] == Digits(n, 10) + rest;
    ScanNumeral(n, rest);
    Wrap64IsSigned(-Signed(n));
    SignedNegate(n);
  }

  /** A binary operator followed by two parseable operands is an application. */
  lemma ApplyParses(op: BinOp, l: Term, r: Term, t: string, u: string, rest: string)
    requires t != [] && !((op.Lt? || op.Gt?) && t[0] == '=')
    requires ParseTerm(t) == Ok(l, u) && ParseTerm(u) == Ok(r, rest)
    ensures ParseTerm(OpText(op) + t) == Ok(Apply(op, l, r), rest)
  {
    OperatorRead(op, t);
  }

  lemma {:induction false} CleanParses(a: Ast, rest: string)
    requires Merges(a) == 0 && NoDigitFirst(rest)
    ensures ParseTerm(Emit(a) + rest) == Ok(Lower(a), rest)
  {
    match a {
      case Const(v) => ConstParses(v, rest);
      case Reg(i) => NumeralParses('v', i, rest);
      case Plus(e) => CleanParses(e, rest);
      case Minus(e) =>
        CleanParses(e, rest);
        MinusParses(e, rest);
      case Complement(e) =>
        CleanParses(e, rest);
        ComplementParses(e, rest);
      case Bin(op, l, r) =>
        EmitHead(r);
        CleanParses(l, Emit(r) + rest);
        CleanParses(r, rest);
        BinParses(op, l, r, rest);
    }
  }

  lemma ConstParses(v: int, rest: string)
    requires NoDigitFirst(rest)
    ensures ParseTerm(Emit(Const(v)) + rest) == Ok(Literal(Signed(v)), rest)
  {
    if v >= 0 { NumeralParses('p', v, rest); } else { NumeralParses('n', -v, rest); }
  }

  lemma ComplementParses(e: Ast, rest: string)
    requires ParseTerm(Emit(e) + rest) == Ok(Lower(e), rest)
    ensures ParseTerm(Emit(Complement(e)) + rest) == Ok(Lower(Complement(e)), rest)
  {
    ComplementText(e, rest);
  }

  lemma MinusParses(e: Ast, rest: string)
    requires ParseTerm(Emit(e) + rest) == Ok(Lower(e), rest)
    ensures ParseTerm(Emit(Minus(e)) + rest) == Ok(Lower(Minus(e)), rest)
  {
    EmitHead(e);
    NumeralParses('p', 0, Emit(e) + rest);
    ApplyParses(Sub, Literal(0), Lower(e), "p" + Digits(0, 10) + (Emit(e) + rest), Emit(e) + rest, rest);
    MinusText(e, rest);
  }

  lemma Reassociate(a: string, b: string, c: string, d: string)
    ensures a + b + c + d == a + (b + (c + d))
  {
  }

  lemma BinParses(op: BinOp, l: Ast, r: Ast, rest: string)
    requires !((op.Lt? || op.Gt?) && StartsWithEquals(l))
    requires ParseTerm(Emit(l) + (Emit(r) + rest)) == Ok(Lower(l), Emit(r) + rest)
    requires ParseTerm(Emit(r) + rest) == Ok(Lower(r), rest)
    ensures ParseTerm(Emit(Bin(op, l, r)) + rest) == Ok(Lower(Bin(op, l, r)), rest)
  {
    EmitHead(l);
    ApplyParses(op, Lower(l), Lower(r), Emit(l) + (Emit(r) + rest), Emit(r) + rest, rest);
    Reassociate(OpText(op), Emit(l), Emit(r), rest);
  }

  lemma ComplementText(e: Ast, rest: string)
    ensures (Emit(Complement(e)) + rest)[0] == '~'
    ensures (Emit(Complement(e)) + rest)[1..] == Emit(e) + rest
  {
    assert Emit(Complement(e)) == ['~'] + Emit(e);
  }

  lemma MinusText(e: Ast, rest: string)
    ensures Emit(Minus(e)) + rest == OpText(Sub) + ("p" + Digits(0, 10) + (Emit(e) + rest))
  {
    assert Digits(0, 10) == ['0'];
    Reassociate(['-'], ['p'] + ['0'], Emit(e), rest);
    assert Emit(Minus(e)) == ['-'] + (['p'] + ['0']) + Emit(e);
  }

  // ----- merged trees never parse to the end -----

  /** Operators minus operands, over the greedy tokens of `s`.  A complete
      prefix term weighs -1, whatever its operators are. */
  function Weight(s: string): int
    decreases |s|
  {
    if s == [] then 0
    else if StartsOperand(s[0]) then
      ScanIntShrinks(s[1..], 0);
      Weight(ScanInt(s[1..], 0).1) - 1
    else if s[0] == '~' then Weight(s[1..])
    else 1 + Weight(s[OpLength(s)..])
  }

  /** Whatever parses as one term weighs exactly one operand. */
  lemma {:induction false} ParsedWeight(s: string)
    requires ParseTerm(s).Ok?
    ensures Weight(s) == Weight(ParseTerm(s).rest) - 1
    decreases |s|
  {
    if StartsOperand(s[0]) {
    } else if s[0] == '~' {
      ParsedWeight(s[1..]);
    } else {
      var t := s[OpLength(s)..];
      ParsedWeight(t);
      ParsedWeight(ParseTerm(t).rest);
    }
  }

  lemma NumeralWeight(c: char, n: nat, rest: string)
    requires NoDigitFirst(rest) && StartsOperand(c)
    ensures Weight([c] + Digits(n, 10) + rest) == Weight(rest) - 1
  {
    var s := [c] + Digits(n, 10) + rest;
    assert s[1..] == Digits(n, 10) + rest;
    ScanNumeral(n, rest);
  }

  /** An operator adds one, unless it swallows the "=" that follows it. */
  lemma OperatorWeight(op: BinOp, t: string)
    requires t != []
    ensures Weight(OpText(op) + t) ==
            Weight(t) + (if (op.Lt? || op.Gt?) && t[0] == '=' then 0 else 1)
  {
    var s := OpText(op) + t;
    if (op.Lt? || op.Gt?) && t[0] == '=' {
      assert s[1] == '=';
      assert s[2..] == t[1..];
    } else {
      OperatorRead(op, t);
    }
  }

  /** Each merge costs the emitted string one operator. */
  lemma {:induction false} EmittedWeight(a: Ast, rest: string)
    requires NoDigitFirst(rest)
    ensures Weight(Emit(a) + rest) == Weight(rest) - 1 - Merges(a)
  {
    match a {
      case Const(v) => if v >= 0 { NumeralWeight('p', v, rest); } else { NumeralWeight('n', -v, rest); }
      case Reg(i) => NumeralWeight('v', i, rest);
      case Plus(e) => EmittedWeight(e, rest);
      case Minus(e) =>
        EmittedWeight(e, rest);
        MinusWeight(e, rest);
      case Complement(e) =>
        ComplementText(e, rest);
        EmittedWeight(e, rest);
      case Bin(op, l, r) =>
        EmitHead(r);
        EmittedWeight(l, Emit(r) + rest);
        EmittedWeight(r, rest);
        BinWeight(op, l, r, rest);
    }
  }

  lemma MinusWeight(e: Ast, rest: string)
    ensures Weight(Emit(Minus(e)) + rest) == Weight(Emit(e) + rest)
  {
    EmitHead(e);
    NumeralWeight('p', 0, Emit(e) + rest);
    OperatorWeight(Sub, "p" + Digits(0, 10) + (Emit(e) + rest));
    MinusText(e, rest);
  }

  lemma BinWeight(op: BinOp, l: Ast, r: Ast, rest: string)
    ensures Weight(Emit(Bin(op, l, r)) + rest) ==
            Weight(Emit(l) + (Emit(r) + rest)) + (if (op.Lt? || op.Gt?) && StartsWithEquals(l) then 0 else 1)
  {
    EmitHead(l);
    OperatorWeight(op, Emit(l) + (Emit(r) + rest));
    Reassociate(OpText(op), Emit(l), Emit(r), rest);
  }

  /** The compiler accepts an emitted tree iff no "<" or ">" merges with a
      following "=", and then it yields the tree's own lowering: no tree
      compiles to anything else. */
  lemma CompileEmitted(a: Ast)
    ensures Compile(Emit(a)) == if Merges(a) == 0 then Code(Lower(a)) else Rejected
  {
    assert Emit(a) + [] == Emit(a);
    if Merges(a) == 0 {
      CleanParses(a, []);
    } else {
      EmittedWeight(a, []);
      if ParseTerm(Emit(a)).Ok? { ParsedWeight(Emit(a)); }
    }
  }

  // ----- lowering preserves meaning -----

  lemma WordWraps(x: int)
    requires IsWord(x)
    ensures Wrap64(x) == x
  {
    Wrap64IsSigned(x);
  }

  lemma ModDenotes(x: int, y: int)
    requires IsWord(x) && IsWord(y) && !Traps(Mod, x, y)
    ensures Compute(Mod, x, y) == Word(Denote(Mod, x, y)) && IsWord(Denote(Mod, x, y))
  {
    TruncDivIsCQuotient(x, y);
    CQuotientLaw(x, y);
    WordWraps(x - CQuotient(x, y) * y);
  }

  lemma DivDenotes(x: int, y: int)
    requires IsWord(x) && IsWord(y) && !Traps(Div, x, y)
    ensures Compute(Div, x, y) == Word(Denote(Div, x, y)) && IsWord(Denote(Div, x, y))
  {
    TruncDivIsCQuotient(x, y);
    QuotientIsWord(x, y);
  }

  lemma AndDenotes(x: int, y: int)
    requires IsWord(x) && IsWord(y)
    ensures Compute(BitwiseAnd, x, y) == Word(Denote(BitwiseAnd, x, y)) && IsWord(Denote(BitwiseAnd, x, y))
  {
    AndIsWord(x, y);
    WordWraps(And(x, y));
  }

  lemma OrDenotes(x: int, y: int)
    requires IsWord(x) && IsWord(y)
    ensures Compute(BitwiseOr, x, y) == Word(Denote(BitwiseOr, x, y)) && IsWord(Denote(BitwiseOr, x, y))
  {
    OrIsWord(x, y);
    WordWraps(Or(x, y));
  }

  lemma XorDenotes(x: int, y: int)
    requires IsWord(x) && IsWord(y)
    ensures Compute(BitwiseXor, x, y) == Word(Denote(BitwiseXor, x, y)) && IsWord(Denote(BitwiseXor, x, y))
  {
    XorIsWord(x, y);
    WordWraps(Xor(x, y));
  }

  lemma ShiftDenotes(op: BinOp, x: int, y: int)
    requires IsWord(x) && IsWord(y) && (op.LeftShift? || op.RightShift?)
    ensures Compute(op, x, y) == Word(Denote(op, x, y)) && IsWord(Denote(op, x, y))
  {
    if op.LeftShift? == (y >= 0) {
      LeftShiftMeaning(x, Abs(y));
    } else {
      RightShiftMeaning(x, Abs(y));
    }
  }

  /** Every generated operator computes the value it stands for, and traps
      exactly when the division or modulo does. */
  lemma ComputeDenotes(op: BinOp, x: int, y: int)
    requires IsWord(x) && IsWord(y)
    ensures Compute(op, x, y) == if Traps(op, x, y) then Trap else Word(Denote(op, x, y))
    ensures !Traps(op, x, y) ==> IsWord(Denote(op, x, y))
  {
    match op
    case Add => Wrap64IsSigned(x + y);
    case Sub => Wrap64IsSigned(x - y);
    case Mul => Wrap64IsSigned(x * y);
    case Div => if !Traps(op, x, y) { DivDenotes(x, y); }
    case Mod => if !Traps(op, x, y) { ModDenotes(x, y); }
    case BitwiseAnd => AndDenotes(x, y);
    case BitwiseOr => OrDenotes(x, y);
    case BitwiseXor => XorDenotes(x, y);
    case LeftShift => ShiftDenotes(op, x, y);
    case RightShift => ShiftDenotes(op, x, y);
    case _ =>
  }

  /** The lowered term computes the tree's meaning, and every value is a word. */
  lemma {:induction false} LoweredRuns(a: Ast, env: seq<int>)
    requires forall i :: 0 <= i < |env| ==> IsWord(env[i])
    ensures Run(Lower(a), env) == Meaning(a, env)
    ensures Meaning(a, env).Word? ==> IsWord(Meaning(a, env).value)
  {
    match a
    case Const(_) =>
    case Reg(_) =>
    case Plus(e) => LoweredRuns(e, env);
    case Minus(e) =>
      LoweredRuns(e, env);
      if Meaning(e, env).Word? { Wrap64IsSigned(-Meaning(e, env).value); }
    case Complement(e) =>
      LoweredRuns(e, env);
      if Meaning(e, env).Word? { Wrap64IsSigned(Not(Meaning(e, env).value)); }
    case Bin(op, l, r) =>
      LoweredRuns(l, env);
      LoweredRuns(r, env);
      if Meaning(l, env).Word? && Meaning(r, env).Word? {
        ComputeDenotes(op, Meaning(l, env).value, Meaning(r, env).value);
      }
  }

  /** Evaluate a patch string on a register file; a rejected string raises. */
  function EvalPatch(s: string, env: seq<int>): (r: Parsed<Outcome>)
  {
    var c := Compile(s);
    if c.Code? then Ok(Run(c.term, env), "") else Bad
  }

  /** Lowering preserves meaning, for every tree the compiler accepts. */
  lemma LoweringPreservesMeaning(a: Ast, env: seq<int>)
    requires forall i :: 0 <= i < |env| ==> IsWord(env[i])
    ensures EvalPatch(Emit(a), env) == if Merges(a) == 0 then Ok(Meaning(a, env), "") else Bad
  {
    CompileEmitted(a);
    LoweredRuns(a, env);
  }

  // ----- the branch form -----

  type Branch = b: nat | b <= 2

  /** The recorded branch: 1 when the jump is taken, 0 when not, 2 on a trap. */
  function BranchOf(o: Outcome): (b: Parsed<Branch>)
  {
    match o
    case Word(v) => Ok(if v != 0 then 1 else 0, "")
    case Trap => Ok(2, "")
    case NoRegister => Bad
  }

  /** The branch a generic candidate takes on a captured register file. */
  function CachedBranch(patch: string, registers: seq<int>): Parsed<Branch>
  {
    var o := EvalPatch(patch, seq(|registers|, i requires 0 <= i < |registers| => Wrap64(registers[i])));
    if o.Ok? then BranchOf(o.value) else Bad
  }

  /** What the branch form should do: jump exactly when the predicate is zero. */
  function JumpOnZero(o: Outcome): Parsed<Branch>
  {
    match o
    case Word(v) => Ok(if v == 0 then 1 else 0, "")
    case Trap => Ok(2, "")
    case NoRegister => Bad
  }

  function Captured(registers: seq<int>): (env: seq<int>)
    ensures |env| == |registers| && forall i :: 0 <= i < |env| ==> IsWord(env[i])
  {
    seq(|registers|, i requires 0 <= i < |registers| => Signed(registers[i]))
  }

  /** The branch form jumps exactly when the predicate is zero, and traps exactly
      when the predicate traps, on any captured registers; it is refused exactly
      for the trees whose emission merges two operators. */
  lemma BranchJumpsOnZero(a: Ast, registers: seq<int>)
    ensures CachedBranch(EmitBranch(a), registers)
            == if Merges(a) == 0 then JumpOnZero(Meaning(a, Captured(registers))) else Bad
  {
    var env := Captured(registers);
    var wrapped := seq(|registers|, i requires 0 <= i < |registers| => Wrap64(registers[i]));
    forall i | 0 <= i < |registers|
      ensures wrapped[i] == env[i]
    {
      Wrap64IsSigned(registers[i]);
    }
    assert wrapped == env;
    var zero := Bin(Eq, a, Const(0));
    assert Emit(zero) == EmitBranch(a) by {
      assert Digits(0, 10) == "0";
    }
    LoweringPreservesMeaning(zero, env);
    LoweredRuns(a, env);
  }

  /** The excluded family is real: `(rax == rbx) < rcx` is refused. */
  lemma MergedTreeRejected()
    ensures Compile(Emit(Bin(Lt, Bin(Eq, Reg(0), Reg(1)), Reg(2)))) == Rejected
  {
    CompileEmitted(Bin(Lt, Bin(Eq, Reg(0), Reg(1)), Reg(2)));
  }
}
