/** The infix predicate grammar: eight levels of left-associative operators,
    unary prefixes and parentheses. */
module Infix {
  import opened Predicates

  /** Tokens; a named constant stands for its value. */
  datatype Token =
    | Number(n: nat) | Named(value: int) | RegisterName(index: Register)
    | Open | Close | Tilde | Op(op: BinOp) | Unknown

  /** Precedence: `|` binds weakest, the multiplicative operators strongest. */
  function Level(op: BinOp): (n: nat)
    ensures n < UNARY
  {
    match op
    case BitwiseOr => 0
    case BitwiseXor => 1
    case BitwiseAnd => 2
    case Eq | Ne => 3
    case Lt | Le | Gt | Ge => 4
    case LeftShift | RightShift => 5
    case Add | Sub => 6
    case Mul | Div | Mod => 7
  }

  const UNARY: nat := 8

  datatype Result = Done(ast: Ast, rest: seq<Token>) | Fail

  function ParseLevel(ts: seq<Token>, level: nat): (r: Result)
    requires level <= UNARY
    ensures r.Done? ==> |r.rest| < |ts|
    decreases |ts|, 1, UNARY - level
  {
    if level == UNARY then ParseUnary(ts)
    else
      var first := ParseLevel(ts, level + 1);
      if first.Fail? then Fail else Continue(first.ast, first.rest, level)
  }

  /** The loop of one level: operands joined from the left. */
  function Continue(node: Ast, ts: seq<Token>, level: nat): (r: Result)
    requires level < UNARY
    ensures r.Done? ==> |r.rest| <= |ts|
    decreases |ts|, 0, 0
  {
    if !OperatorAt(ts, level) then Done(node, ts)
    else
      var right := ParseLevel(ts[1..], level + 1);
      if right.Fail? then Fail else Continue(Bin(ts[0].op, node, right.ast), right.rest, level)
  }

  predicate OperatorAt(ts: seq<Token>, level: nat) { ts != [] && ts[0].Op? && Level(ts[0].op) == level }

  function ParseUnary(ts: seq<Token>): (r: Result)
    ensures r.Done? ==> |r.rest| < |ts|
    decreases |ts|, 0, 1
  {
    if ts == [] then Fail
    else if ts[0] == Op(Add) || ts[0] == Op(Sub) || ts[0] == Tilde then
      var e := ParseUnary(ts[1..]);
      if e.Fail? then Fail
      else Done(if ts[0] == Op(Add) then Plus(e.ast) else if ts[0] == Op(Sub) then Minus(e.ast) else Complement(e.ast),
                e.rest)
    else ParsePrimary(ts)
  }

  function ParsePrimary(ts: seq<Token>): (r: Result)
    requires ts != []
    ensures r.Done? ==> |r.rest| < |ts|
    decreases |ts|, 0, 0
  {
    match ts[0]
    case Open =>
      var e := ParseLevel(ts[1..], 0);
      if e.Done? && e.rest != [] && e.rest[0] == Close then Done(e.ast, e.rest[1..]) else Fail
    case Number(n) => Done(Const(n), ts[1..])
    case Named(v) => Done(Const(v), ts[1..])
    case RegisterName(i) => Done(Reg(i), ts[1..])
    case _ => Fail
  }

  /** A whole predicate: nothing may follow. */
  function ParseAll(ts: seq<Token>): (r: Result)
  {
    var e := ParseLevel(ts, 0);
    if e.Done? && e.rest == [] then e else Fail
  }

  // ----- the grammar, without the parser -----

  datatype Prefix = PlusSign | MinusSign | TildeSign

  /** A phrase with every token it was written with. */
  datatype Phrase =
    | Numeral(n: nat)
    | Constant(value: int)
    | RegisterCell(index: Register)
    | Group(inner: Phrase)
    | Prefixed(sign: Prefix, arg: Phrase)
    | Joined(op: BinOp, lhs: Phrase, rhs: Phrase)

  /** The operators of each binary rule, weakest first. */
  function Operators(rule: nat): set<BinOp>
    requires rule < UNARY
  {
    [{BitwiseOr}, {BitwiseXor}, {BitwiseAnd}, {Eq, Ne}, {Lt, Le, Gt, Ge}, {LeftShift, RightShift}, {Add, Sub},
     {Mul, Div, Mod}][rule]
  }

  /** The phrases of a rule: a binary rule joins a phrase of its own on the left
      and one of the next rule on the right, or is one of the next rule. */
  ghost predicate Derives(c: Phrase, rule: nat)
    requires rule <= UNARY
  {
    match c
    case Group(inner) => Derives(inner, 0)
    case Prefixed(_, arg) => Derives(arg, UNARY)
    case Joined(op, l, r) =>
      exists k :: rule <= k < UNARY && op in Operators(k) && Derives(l, k) && Derives(r, k + 1)
    case _ => true
  }

  function SignToken(sign: Prefix): Token
  {
    match sign
    case PlusSign => Op(Add)
    case MinusSign => Op(Sub)
    case TildeSign => Tilde
  }

  function TextOf(c: Phrase): (ts: seq<Token>)
    ensures |ts| > 0
  {
    match c
    case Numeral(n) => [Number(n)]
    case Constant(v) => [Named(v)]
    case RegisterCell(i) => [RegisterName(i)]
    case Group(inner) => [Open] + TextOf(inner) + [Close]
    case Prefixed(sign, arg) => [SignToken(sign)] + TextOf(arg)
    case Joined(op, l, r) => TextOf(l) + [Op(op)] + TextOf(r)
  }

  /** The tree of a phrase: parentheses dropped, constants at their own value. */
  function TreeOf(c: Phrase): Ast
  {
    match c
    case Numeral(n) => Const(n)
    case Constant(v) => Const(v)
    case RegisterCell(i) => Reg(i)
    case Group(inner) => TreeOf(inner)
    case Prefixed(PlusSign, arg) => Plus(TreeOf(arg))
    case Prefixed(MinusSign, arg) => Minus(TreeOf(arg))
    case Prefixed(TildeSign, arg) => Complement(TreeOf(arg))
    case Joined(op, l, r) => Bin(op, TreeOf(l), TreeOf(r))
  }

  /** The tokens are those of the phrase, which belongs to the weakest rule. */
  ghost predicate Spells(c: Phrase, ts: seq<Token>) { Derives(c, 0) && TextOf(c) == ts }

  lemma OperatorLevel(op: BinOp, k: nat)
    requires k < UNARY
    ensures op in Operators(k) <==> Level(op) == k
  {
  }

  lemma JoinedLevel(op: BinOp, l: Phrase, r: Phrase, rule: nat)
    requires rule <= UNARY
    ensures Derives(Joined(op, l, r), rule) <==>
            rule <= Level(op) && Derives(l, Level(op)) && Derives(r, Level(op) + 1)
  {
    forall k | 0 <= k < UNARY
      ensures op in Operators(k) <==> Level(op) == k
    {
      OperatorLevel(op, k);
    }
  }

  /** What follows does not extend a phrase of this rule. */
  predicate Ends(rest: seq<Token>, rule: nat) { rest == [] || !rest[0].Op? || Level(rest[0].op) <= rule }

  /** A phrase parses at its rule to its tree, and hands what follows to the loop
      of that rule. */
  lemma {:induction false} PhraseParses(c: Phrase, rule: nat, rest: seq<Token>)
    requires rule <= UNARY && Derives(c, rule) && Ends(rest, rule)
    ensures ParseLevel(TextOf(c) + rest, rule)
            == if rule == UNARY then Done(TreeOf(c), rest) else Continue(TreeOf(c), rest, rule)
    decreases c, UNARY - rule + 1
  {
    if c.Joined? { JoinedLevel(c.op, c.lhs, c.rhs, rule); }
    if rule == UNARY {
      UnaryParses(c, rest);
    } else if c.Joined? && Level(c.op) == rule {
      JoinedParses(c.op, c.lhs, c.rhs, rest);
    } else {
      if c.Joined? { JoinedLevel(c.op, c.lhs, c.rhs, rule + 1); }
      PhraseParses(c, rule + 1, rest);
    }
  }

  lemma {:induction false} JoinedParses(op: BinOp, l: Phrase, r: Phrase, rest: seq<Token>)
    requires Derives(l, Level(op)) && Derives(r, Level(op) + 1) && Ends(rest, Level(op))
    ensures ParseLevel(TextOf(Joined(op, l, r)) + rest, Level(op))
            == Continue(TreeOf(Joined(op, l, r)), rest, Level(op))
    decreases Joined(op, l, r), 0
  {
    var tail := TextOf(r) + rest;
    PhraseParses(l, Level(op), [Op(op)] + tail);
    PhraseParses(r, Level(op) + 1, rest);
    Regroup(TextOf(l), [Op(op)], TextOf(r), rest);
    assert ([Op(op)] + tail)[1..] == tail;
  }

  lemma {:induction false} UnaryParses(c: Phrase, rest: seq<Token>)
    requires Derives(c, UNARY) && !c.Joined?
    ensures ParseUnary(TextOf(c) + rest) == Done(TreeOf(c), rest)
    decreases c, 0
  {
    var ts := TextOf(c) + rest;
    if c.Group? {
      Regroup([Open], TextOf(c.inner), [Close], rest);
      assert ts[1..] == TextOf(c.inner) + ([Close] + rest) && ([Close] + rest)[1..] == rest;
      PhraseParses(c.inner, 0, [Close] + rest);
    } else if c.Prefixed? {
      assert ts[1..] == TextOf(c.arg) + rest;
      PhraseParses(c.arg, UNARY, rest);
    } else {
      assert ts[1..] == rest;
    }
  }

  lemma Regroup(a: seq<Token>, b: seq<Token>, c: seq<Token>, rest: seq<Token>)
    ensures a + b + c + rest == a + (b + (c + rest))
  {
  }

  /** Whatever a rule accepts is a phrase of that rule, and the result its tree. */
  lemma {:induction false} ParsedPhrase(ts: seq<Token>, rule: nat) returns (c: Phrase)
    requires rule <= UNARY && ParseLevel(ts, rule).Done?
    ensures var r := ParseLevel(ts, rule);
            Derives(c, rule) && TreeOf(c) == r.ast && TextOf(c) + r.rest == ts
    decreases |ts|, 1, UNARY - rule
  {
    if rule == UNARY {
      c := ParsedUnary(ts);
    } else {
      var first := ParseLevel(ts, rule + 1);
      c := ParsedPhrase(ts, rule + 1);
      if c.Joined? {
        JoinedLevel(c.op, c.lhs, c.rhs, rule + 1);
        JoinedLevel(c.op, c.lhs, c.rhs, rule);
      }
      c := ContinuedPhrase(c, first.rest, rule);
    }
  }

  lemma {:induction false} ContinuedPhrase(left: Phrase, ts: seq<Token>, rule: nat) returns (c: Phrase)
    requires rule < UNARY && Derives(left, rule) && Continue(TreeOf(left), ts, rule).Done?
    ensures var r := Continue(TreeOf(left), ts, rule);
            Derives(c, rule) && TreeOf(c) == r.ast && TextOf(c) + r.rest == TextOf(left) + ts
    decreases |ts|, 0, 0
  {
    if !OperatorAt(ts, rule) { return left; }
    var right := ParseLevel(ts[1..], rule + 1);
    var second := ParsedPhrase(ts[1..], rule + 1);
    var longer := Joined(ts[0].op, left, second);
    JoinedLevel(ts[0].op, left, second, rule);
    c := ContinuedPhrase(longer, right.rest, rule);
    assert ts == [Op(ts[0].op)] + (TextOf(second) + right.rest);
    Regroup(TextOf(left), [Op(ts[0].op)], TextOf(second), right.rest);
  }

  lemma {:induction false} ParsedUnary(ts: seq<Token>) returns (c: Phrase)
    requires ParseUnary(ts).Done?
    ensures var r := ParseUnary(ts);
            Derives(c, UNARY) && TreeOf(c) == r.ast && TextOf(c) + r.rest == ts
    decreases |ts|, 0, 1
  {
    assert ts == [ts[0]] + ts[1..];
    match ts[0]
    case Op(Add) => c := ParsedUnary(ts[1..]); c := Prefixed(PlusSign, c);
    case Op(Sub) => c := ParsedUnary(ts[1..]); c := Prefixed(MinusSign, c);
    case Tilde => c := ParsedUnary(ts[1..]); c := Prefixed(TildeSign, c);
    case Open =>
      var e := ParseLevel(ts[1..], 0);
      c := ParsedPhrase(ts[1..], 0);
      assert e.rest == [Close] + e.rest[1..];
      Regroup([Open], TextOf(c), [Close], e.rest[1..]);
      c := Group(c);
    case Number(n) => c := Numeral(n);
    case Named(v) => c := Constant(v);
    case RegisterName(i) => c := RegisterCell(i);
  }

  /** The parser is the grammar: a token list is accepted exactly when it is the
      text of a phrase of the weakest rule, and the tree is that phrase's. */
  lemma ParsesTheGrammar(ts: seq<Token>)
    ensures ParseAll(ts).Done? <==> exists c :: Spells(c, ts)
    ensures forall c :: Spells(c, ts) ==> ParseAll(ts) == Done(TreeOf(c), [])
  {
    forall c | Spells(c, ts)
      ensures ParseAll(ts) == Done(TreeOf(c), [])
    {
      PhraseParses(c, 0, []);
      assert TextOf(c) + [] == ts;
    }
    if ParseAll(ts).Done? {
      var c := ParsedPhrase(ts, 0);
      assert TextOf(c) + [] == TextOf(c);
      assert Spells(c, ts);
    }
  }

  // ----- writing a tree with the parentheses it needs -----

  function Written(a: Ast, rule: nat): Phrase
  {
    match a
    case Const(v) => if v >= 0 then Numeral(v) else Constant(v)
    case Reg(i) => RegisterCell(i)
    case Plus(e) => Prefixed(PlusSign, Written(e, UNARY))
    case Minus(e) => Prefixed(MinusSign, Written(e, UNARY))
    case Complement(e) => Prefixed(TildeSign, Written(e, UNARY))
    case Bin(op, l, r) =>
      var body := Joined(op, Written(l, Level(op)), Written(r, Level(op) + 1));
      if Level(op) < rule then Group(body) else body
  }

  lemma {:induction false} WrittenIsPhrase(a: Ast, rule: nat)
    requires rule <= UNARY
    ensures Derives(Written(a, rule), rule) && TreeOf(Written(a, rule)) == a
    decreases a
  {
    match a
    case Plus(e) => WrittenIsPhrase(e, UNARY);
    case Minus(e) => WrittenIsPhrase(e, UNARY);
    case Complement(e) => WrittenIsPhrase(e, UNARY);
    case Bin(op, l, r) =>
      WrittenIsPhrase(l, Level(op));
      WrittenIsPhrase(r, Level(op) + 1);
      JoinedLevel(op, Written(l, Level(op)), Written(r, Level(op) + 1), if Level(op) < rule then 0 else rule);
    case _ =>
  }

  /** Every tree is the parse of its text: precedence, associativity and
      parentheses lose nothing. */
  lemma ParsePrinted(a: Ast)
    ensures ParseAll(TextOf(Written(a, 0))) == Done(a, [])
  {
    WrittenIsPhrase(a, 0);
    PhraseParses(Written(a, 0), 0, []);
    assert TextOf(Written(a, 0)) + [] == TextOf(Written(a, 0));
  }

  // ----- the parser with a moving position -----

  datatype Parsed = Tree(ast: Ast) | Refused

  class Parser {
    const tokens: seq<Token>
    var pos: nat

    constructor (tokens: seq<Token>)
      ensures this.tokens == tokens && pos == 0
    {
      this.tokens := tokens;
      pos := 0;
    }

    ghost predicate Reads(p: Parsed, r: Result)
      reads this
    {
      pos <= |tokens| && (p.Tree? <==> r.Done?) && (p.Tree? ==> p.ast == r.ast && tokens[pos..] == r.rest)
    }

    method AtLevel(level: nat) returns (p: Parsed)
      requires level <= UNARY && pos <= |tokens|
      modifies this`pos
      ensures Reads(p, ParseLevel(old(tokens[pos..]), level)) && old(pos) <= pos
      decreases |tokens| - pos, 1, UNARY - level
    {
      ghost var start := tokens[pos..];
      if level == UNARY {
        p := Unary();
        return;
      }
      p := AtLevel(level + 1);
      if p.Refused? { return; }
      ghost var first := ParseLevel(start, level + 1);
      while OperatorAt(tokens[pos..], level)
        invariant old(pos) < pos <= |tokens| && p.Tree?
        invariant Continue(p.ast, tokens[pos..], level) == Continue(first.ast, first.rest, level)
        decreases |tokens| - pos
      {
        var op := tokens[pos].op;
        ghost var here := tokens[pos..];
        assert here[1..] == tokens[pos + 1..];
        pos := pos + 1;
        var right := AtLevel(level + 1);
        if right.Refused? { return Refused; }
        p := Tree(Bin(op, p.ast, right.ast));
      }
    }

    method Unary() returns (p: Parsed)
      requires pos <= |tokens|
      modifies this`pos
      ensures Reads(p, ParseUnary(old(tokens[pos..]))) && old(pos) <= pos
      decreases |tokens| - pos, 0, 1
    {
      ghost var start := tokens[pos..];
      if pos == |tokens| { return Refused; }
      var t := tokens[pos];
      assert t == start[0] && start[1..] == tokens[pos + 1..];
      if t == Op(Add) || t == Op(Sub) || t == Tilde {
        pos := pos + 1;
        p := Unary();
        if p.Refused? { return; }
        return Tree(if t == Op(Add) then Plus(p.ast) else if t == Op(Sub) then Minus(p.ast) else Complement(p.ast));
      }
      p := Primary();
    }

    method Primary() returns (p: Parsed)
      requires pos < |tokens|
      modifies this`pos
      ensures Reads(p, ParsePrimary(old(tokens[pos..]))) && old(pos) <= pos
      decreases |tokens| - pos, 0, 0
    {
      ghost var start := tokens[pos..];
      var t := tokens[pos];
      assert t == start[0] && start[1..] == tokens[pos + 1..];
      pos := pos + 1;
      match t
      case Open =>
        p := AtLevel(0);
        if p.Refused? { return; }
        if pos == |tokens| || tokens[pos] != Close { return Refused; }
        ghost var here := tokens[pos..];
        assert here[0] == Close && here[1..] == tokens[pos + 1..];
        pos := pos + 1;
      case Number(n) => p := Tree(Const(n));
      case Named(v) => p := Tree(Const(v));
      case RegisterName(i) => p := Tree(Reg(i));
      case _ => p := Refused;
    }

    /** Accepts exactly the texts of phrases, and returns their trees. */
    method Parse() returns (p: Parsed)
      requires pos == 0
      modifies this`pos
      ensures p == if ParseAll(tokens).Done? then Tree(ParseAll(tokens).ast) else Refused
      ensures p.Tree? <==> exists c :: Spells(c, tokens)
      ensures forall c :: Spells(c, tokens) ==> p == Tree(TreeOf(c))
    {
      ParsesTheGrammar(tokens);
      assert tokens[0..] == tokens;
      p := AtLevel(0);
      if p.Tree? && pos < |tokens| { return Refused; }
    }
  }
}
