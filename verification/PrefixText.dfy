/** Exactly which prefix strings the predicate compiler accepts, and what it makes
    of each. */
module PrefixText {
  import opened Sequences
  import opened Text
  import opened Words
  import opened Predicates

  /** The number that a letter and decimal digits stand for; there may be no digit. */
  ghost predicate Numbered(s: string, c: char, d: string, v: int)
  {
    AllDecimal(d) && s == [c] + d && v == Signed(if c == 'n' then -Extend(0, d) else Extend(0, d))
  }

  ghost predicate Numeral(s: string, c: char, v: int) { exists d :: Numbered(s, c, d, v) }

  /** An operator and two texts; `<` and `>` may not run into an `=`. */
  ghost predicate Pieces(s: string, op: BinOp, a: string, b: string)
  {
    a != [] && s == OpText(op) + (a + b) && !((op.Lt? || op.Gt?) && a[0] == '=')
  }

  /** The text is one term: numbers modulo 2^64, prefixes, and operators in front
      of their operands. */
  ghost predicate Spells(s: string, t: Term)
    decreases t
  {
    match t
    case Literal(v) => Numeral(s, 'p', v) || Numeral(s, 'n', v)
    case Lookup(i) => Numeral(s, 'v', i)
    case Invert(e) => s != [] && s[0] == '~' && Spells(s[1..], e)
    case Apply(op, l, r) => exists a, b :: Pieces(s, op, a, b) && Spells(a, l) && Spells(b, r)
  }

  // ----- what is spelled is read -----

  /** What a letter makes of a number. */
  function Operand(c: char, v: int): Term { if c == 'v' then Lookup(v) else Literal(v) }

  lemma NumberParses(c: char, d: string, rest: string, v: int, text: string)
    requires StartsOperand(c) && AllDecimal(d) && NoDigitFirst(rest) && text != [] && text[0] == c
             && text[1..] == d + rest
    requires v == Signed(if c == 'n' then -Extend(0, d) else Extend(0, d))
    ensures ParseTerm(text) == Ok(Operand(c, v), rest)
  {
    ScanDigits(d, rest, 0);
    Wrap64IsSigned(-Signed(Extend(0, d)));
    SignedNegate(Extend(0, d));
  }

  lemma NumeralParses(s: string, c: char, v: int, rest: string)
    requires StartsOperand(c) && Numeral(s, c, v) && NoDigitFirst(rest)
    ensures s != [] && NoDigitFirst(s) && ParseTerm(s + rest) == Ok(Operand(c, v), rest)
  {
    var d :| Numbered(s, c, d, v);
    assert (s + rest)[0] == c && (s + rest)[1..] == d + rest;
    NumberParses(c, d, rest, v, s + rest);
  }

  lemma InvertParses(s: string, e: Term, rest: string)
    requires s != [] && s[0] == '~' && ParseTerm(s[1..] + rest) == Ok(e, rest)
    ensures NoDigitFirst(s) && ParseTerm(s + rest) == Ok(Invert(e), rest)
  {
    assert (s + rest)[1..] == s[1..] + rest;
  }

  lemma PiecesParse(s: string, op: BinOp, l: Term, r: Term, a: string, b: string, rest: string)
    requires Pieces(s, op, a, b)
    requires ParseTerm(a + (b + rest)) == Ok(l, b + rest) && ParseTerm(b + rest) == Ok(r, rest)
    ensures s != [] && NoDigitFirst(s) && ParseTerm(s + rest) == Ok(Apply(op, l, r), rest)
  {
    FourPieces(OpText(op), a, b, rest);
    assert (a + (b + rest))[0] == a[0];
    ApplyParses(op, l, r, a + (b + rest), b + rest, rest);
    assert !IsDecimal(OpText(op)[0]) && s[0] == OpText(op)[0];
  }

  lemma {:induction false} SpelledParses(s: string, t: Term, rest: string)
    requires Spells(s, t) && NoDigitFirst(rest)
    ensures s != [] && NoDigitFirst(s) && ParseTerm(s + rest) == Ok(t, rest)
    decreases t, 1
  {
    match t
    case Literal(v) => NumeralParses(s, if Numeral(s, 'p', v) then 'p' else 'n', v, rest);
    case Lookup(i) => NumeralParses(s, 'v', i, rest);
    case Invert(e) =>
      SpelledParses(s[1..], e, rest);
      InvertParses(s, e, rest);
    case Apply(op, l, r) => AppliedParses(s, op, l, r, rest);
  }

  lemma {:induction false} AppliedParses(s: string, op: BinOp, l: Term, r: Term, rest: string)
    requires Spells(s, Apply(op, l, r)) && NoDigitFirst(rest)
    ensures s != [] && NoDigitFirst(s) && ParseTerm(s + rest) == Ok(Apply(op, l, r), rest)
    decreases Apply(op, l, r), 0
  {
    var a, b :| Pieces(s, op, a, b) && Spells(a, l) && Spells(b, r);
    SpelledParses(b, r, rest);
    assert NoDigitFirst(b + rest) by { assert (b + rest)[0] == b[0]; }
    SpelledParses(a, l, b + rest);
    PiecesParse(s, op, l, r, a, b, rest);
  }

  // ----- what is read is spelled -----

  function LeadingDigits(s: string): (d: string)
    ensures AllDecimal(d)
  {
    if s == [] || !IsDecimal(s[0]) then [] else [s[0]] + LeadingDigits(s[1..])
  }

  /** The scan takes the digits in front. */
  lemma {:induction false} ScanTakes(s: string, acc: int)
    ensures s == LeadingDigits(s) + ScanInt(s, acc).1 && NoDigitFirst(ScanInt(s, acc).1)
    decreases |s|
  {
    if s != [] && IsDecimal(s[0]) {
      ScanTakes(s[1..], Wrap64(acc * 10 + DigitValue(s[0])));
      Reassociated(s[0], LeadingDigits(s[1..]), ScanInt(s, acc).1, s);
    }
  }

  lemma Reassociated(c: char, d: string, rest: string, s: string)
    requires s != [] && s[0] == c && s[1..] == d + rest
    ensures s == [c] + d + rest
  {
  }

  /** A piece of the text that spells what was read, and the rest after it. */
  ghost predicate Taken(s: string, piece: string, r: Parsed<Term>)
  {
    r.Ok? && s == piece + r.rest && NoDigitFirst(r.rest) && Spells(piece, r.value)
  }

  lemma NumberSpelled(s: string) returns (piece: string)
    requires s != [] && StartsOperand(s[0])
    ensures Taken(s, piece, ParseTerm(s))
  {
    var d, rest := LeadingDigits(s[1..]), ScanInt(s[1..], 0).1;
    var v := Signed(if s[0] == 'n' then -Extend(0, d) else Extend(0, d));
    ScanTakes(s[1..], 0);
    NumberParses(s[0], d, rest, v, s);
    piece := [s[0]] + d;
    Reassociated(s[0], d, rest, s);
    assert Numbered(piece, s[0], d, v);
  }

  lemma {:induction false} ParsedSpelled(s: string) returns (piece: string)
    requires ParseTerm(s).Ok?
    ensures Taken(s, piece, ParseTerm(s))
    decreases |s|
  {
    if StartsOperand(s[0]) {
      piece := NumberSpelled(s);
    } else if s[0] == '~' {
      var e := ParsedSpelled(s[1..]);
      piece := InvertSpelled(s, e, ParseTerm(s[1..]));
    } else {
      var t := s[OpLength(s)..];
      var a := ParsedSpelled(t);
      var b := ParsedSpelled(ParseTerm(t).rest);
      piece := ApplySpelled(s, t, OpAt(s).op, a, b, ParseTerm(t), ParseTerm(ParseTerm(t).rest));
    }
  }

  lemma InvertSpelled(s: string, e: string, r: Parsed<Term>) returns (piece: string)
    requires s != [] && s[0] == '~' && Taken(s[1..], e, r)
    ensures Taken(s, piece, Ok(Invert(r.value), r.rest))
  {
    piece := ['~'] + e;
    assert piece[1..] == e && s == ['~'] + s[1..];
  }

  lemma ApplySpelled(s: string, t: string, op: BinOp, a: string, b: string, l: Parsed<Term>, r: Parsed<Term>)
    returns (piece: string)
    requires s != [] && OpAt(s) == Known(op) && t == s[OpLength(s)..] && Taken(t, a, l) && Taken(l.rest, b, r)
    ensures Taken(s, piece, Ok(Apply(op, l.value, r.value), r.rest))
  {
    OperatorTaken(s, op);
    SpelledHead(a, l.value);
    piece := OpText(op) + (a + b);
    assert t[0] == a[0];
    Joined(piece, op, a, b, l.value, r.value);
    FourPieces(OpText(op), a, b, r.rest);
  }

  lemma Joined(s: string, op: BinOp, a: string, b: string, l: Term, r: Term)
    requires Pieces(s, op, a, b) && Spells(a, l) && Spells(b, r)
    ensures Spells(s, Apply(op, l, r))
  {
  }

  lemma FourPieces(a: string, b: string, c: string, d: string)
    ensures a + (b + c) + d == a + (b + (c + d))
  {
  }

  lemma OperatorTaken(s: string, op: BinOp)
    requires s != [] && OpAt(s) == Known(op)
    ensures s == OpText(op) + s[OpLength(s)..]
    ensures (op.Lt? || op.Gt?) && OpLength(s) < |s| ==> s[OpLength(s)..][0] != '='
  {
    assert s == s[..OpLength(s)] + s[OpLength(s)..];
  }

  lemma SpelledHead(s: string, t: Term)
    requires Spells(s, t)
    ensures s != []
  {
    SpelledParses(s, t, []);
  }

  /** A string compiles to a term iff it spells the term: nothing else is accepted,
      and no string has two readings. */
  lemma CompilesExactly(s: string, t: Term)
    ensures Compile(s) == Code(t) <==> Spells(s, t)
  {
    if Compile(s) == Code(t) {
      var piece := ParsedSpelled(s);
      assert piece + [] == piece;
    }
    if Spells(s, t) {
      SpelledParses(s, t, []);
      assert s + [] == s;
    }
  }
}
