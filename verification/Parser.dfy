/** The recursive-descent expression parser (examples/zc/parse/parse-example-non-zc.cc),
    proved to accept exactly the strings of the documented grammar and to return the
    left-associative, precedence-respecting expression of the one parse tree there is. */
module Parser {

  datatype Error = UnexpectedEnd | MismatchedParentheses | InvalidExpression | InvalidNumber | TrailingInput

  datatype Result<T> = Ok(value: T) | Err(error: Error)

  /** What the parser computes, with every arithmetic operation left standing. */
  datatype Value = Num(r: real) | Bin(op: char, left: Value, right: Value)

  // ---------------------------------------------------------------------------
  // The grammar. A repetition `x { op x }` is written as a left-recursive tree,
  // which groups the operators the way the repetition is read, from the left.

  datatype Factor = Number(whole: string, point: bool, frac: string) | Paren(e: Expression)

  datatype Term = OneFactor(f: Factor) | MulDiv(t: Term, op: char, f: Factor)

  datatype Expression = OneTerm(t: Term) | AddSub(e: Expression, op: char, t: Term)

  predicate IsDigit(c: char) {
    '0' <= c <= '9'
  }

  predicate AllDigits(s: string) {
    forall i | 0 <= i < |s| :: IsDigit(s[i])
  }

  predicate FactorOk(f: Factor) {
    match f
    case Number(w, p, d) => w != "" && AllDigits(w) && AllDigits(d) && (!p ==> d == "")
    case Paren(e) => ExpressionOk(e)
  }

  predicate TermOk(t: Term) {
    match t
    case OneFactor(f) => FactorOk(f)
    case MulDiv(u, op, f) => (op == '*' || op == '/') && TermOk(u) && FactorOk(f)
  }

  predicate ExpressionOk(e: Expression) {
    match e
    case OneTerm(t) => TermOk(t)
    case AddSub(d, op, t) => (op == '+' || op == '-') && ExpressionOk(d) && TermOk(t)
  }

  function FactorYield(f: Factor): string {
    match f
    case Number(w, p, d) => if p then w + ['.'] + d else w
    case Paren(e) => ['('] + Yield(e) + [')']
  }

  function TermYield(t: Term): string {
    match t
    case OneFactor(f) => FactorYield(f)
    case MulDiv(u, op, f) => TermYield(u) + [op] + FactorYield(f)
  }

  /** The string an expression tree derives. */
  function Yield(e: Expression): string {
    match e
    case OneTerm(t) => TermYield(t)
    case AddSub(d, op, t) => Yield(d) + [op] + TermYield(t)
  }

  /** The natural number a digit string denotes. */
  function Whole(w: string): real
    requires AllDigits(w)
  {
    if w == "" then 0.0 else Whole(w[..|w| - 1]) * 10.0 + Digit(w[|w| - 1])
  }

  function Digit(c: char): real
    requires IsDigit(c)
  {
    (c - '0') as int as real
  }

  /** The decimal notation of a natural number. */
  function Notation(n: nat): string {
    if n < 10 then ["0123456789"[n]] else Notation(n / 10) + ["0123456789"[n % 10]]
  }

  /** What the digits of a number denote is the number. */
  lemma {:induction false} NotationDenotes(n: nat)
    ensures AllDigits(Notation(n)) && Notation(n) != "" && Whole(Notation(n)) == n as real
  {
    if n < 10 {
      NotationDigit(n);
      assert Notation(n)[..0] == "";
    } else {
      var w, c := Notation(n / 10), "0123456789"[n % 10];
      NotationDenotes(n / 10);
      NotationDigit(n % 10);
      WholeSnoc(w, c);
      assert n == n / 10 * 10 + n % 10;
      hide Whole, Digit;
    }
  }

  lemma NotationDigit(n: nat)
    requires n < 10
    ensures var c := "0123456789"[n]; IsDigit(c) && Digit(c) == n as real
  {
    assert "0123456789"[n] == '0' + n as char;
  }

  /** What digit `c` is worth at a place of weight `f`. */
  function Worth(c: char, f: real): real
    requires IsDigit(c)
  {
    Digit(c) * f
  }

  /** The weight of the n-th place after the point. */
  function Place(n: nat): real {
    if n == 0 then 1.0 else Place(n - 1) / 10.0
  }

  /** Digits `w`, a point, digits `d`: each digit of `d` counts by its place. */
  function Decimal(w: string, d: string): real
    requires AllDigits(w) && AllDigits(d)
  {
    if d == "" then Whole(w) else Decimal(w, d[..|d| - 1]) + Worth(d[|d| - 1], Place(|d|))
  }

  /** Moving the point past all its decimals gives the number all the digits denote. */
  lemma {:induction false} DecimalShifted(w: string, d: string)
    requires AllDigits(w) && AllDigits(d)
    ensures AllDigits(w + d) && Decimal(w, d) == Whole(w + d) * Place(|d|)
  {
    if d == "" {
      assert w + d == w;
    } else {
      var n, c := |d| - 1, d[|d| - 1];
      DecimalShifted(w, d[..n]);
      assert w + d == (w + d[..n]) + [c];
      WholeSnoc(w + d[..n], c);
      hide Whole, Place, Digit;
      Shift(Whole(w + d[..n]), Digit(c), Place(n), Place(|d|));
    }
  }

  lemma Shift(x: real, k: real, f: real, g: real)
    requires g == f / 10.0
    ensures x * f + k * g == (x * 10.0 + k) * g
  {
  }

  function FactorMeaning(f: Factor): Value
    requires FactorOk(f)
  {
    match f
    case Number(w, _, d) => Num(Decimal(w, d))
    case Paren(e) => Meaning(e)
  }

  function TermMeaning(t: Term): Value
    requires TermOk(t)
  {
    match t
    case OneFactor(f) => FactorMeaning(f)
    case MulDiv(u, op, f) => Bin(op, TermMeaning(u), FactorMeaning(f))
  }

  function Meaning(e: Expression): Value
    requires ExpressionOk(e)
  {
    match e
    case OneTerm(t) => TermMeaning(t)
    case AddSub(d, op, t) => Bin(op, Meaning(d), TermMeaning(t))
  }

  // ---------------------------------------------------------------------------
  // What each parsing method computes, as a function of the input and the position.

  function DigitsEnd(s: string, p: nat): (q: nat)
    requires p <= |s|
    ensures p <= q <= |s| && AllDigits(s[p..q]) && (q < |s| ==> !IsDigit(s[q]))
    decreases |s| - p
  {
    if p < |s| && IsDigit(s[p]) then
      var q := DigitsEnd(s, p + 1);
      assert s[p..q] == [s[p]] + s[p + 1..q];
      q
    else p
  }

  function NumberAt(s: string, p: nat): (r: Result<(Value, nat)>)
    requires p < |s| && IsDigit(s[p])
    ensures r.Ok? ==> p < r.value.1 <= |s|
  {
    var q := DigitsEnd(s, p);
    if q < |s| && s[q] == '.' then
      var e := DigitsEnd(s, q + 1);
      if e < |s| && s[e] == '.' then Err(InvalidNumber) else Ok((Num(Decimal(s[p..q], s[q + 1..e])), e))
    else Ok((Num(Decimal(s[p..q], "")), q))
  }

  function FactorAt(s: string, p: nat): (r: Result<(Value, nat)>)
    requires p <= |s|
    ensures r.Ok? ==> p < r.value.1 <= |s|
    decreases |s| - p, 0
  {
    if p == |s| then Err(UnexpectedEnd)
    else if s[p] == '(' then
      match ExpressionAt(s, p + 1)
      case Err(e) => Err(e)
      case Ok((v, q)) => if q == |s| || s[q] != ')' then Err(MismatchedParentheses) else Ok((v, q + 1))
    else if IsDigit(s[p]) then NumberAt(s, p)
    else Err(InvalidExpression)
  }

  predicate AtMulOp(s: string, p: nat) {
    p < |s| && (s[p] == '*' || s[p] == '/')
  }

  function TermRest(s: string, p: nat, acc: Value): (r: Result<(Value, nat)>)
    requires p <= |s|
    ensures r.Ok? ==> p <= r.value.1 <= |s|
    decreases |s| - p, 0
  {
    if AtMulOp(s, p) then
      match FactorAt(s, p + 1)
      case Err(e) => Err(e)
      case Ok((v, q)) => TermRest(s, q, Bin(s[p], acc, v))
    else Ok((acc, p))
  }

  function TermAt(s: string, p: nat): (r: Result<(Value, nat)>)
    requires p <= |s|
    ensures r.Ok? ==> p < r.value.1 <= |s|
    decreases |s| - p, 1
  {
    match FactorAt(s, p)
    case Err(e) => Err(e)
    case Ok((v, q)) => TermRest(s, q, v)
  }

  predicate AtAddOp(s: string, p: nat) {
    p < |s| && (s[p] == '+' || s[p] == '-')
  }

  function ExpressionRest(s: string, p: nat, acc: Value): (r: Result<(Value, nat)>)
    requires p <= |s|
    ensures r.Ok? ==> p <= r.value.1 <= |s|
    decreases |s| - p, 0
  {
    if AtAddOp(s, p) then
      match TermAt(s, p + 1)
      case Err(e) => Err(e)
      case Ok((v, q)) => ExpressionRest(s, q, Bin(s[p], acc, v))
    else Ok((acc, p))
  }

  function ExpressionAt(s: string, p: nat): (r: Result<(Value, nat)>)
    requires p <= |s|
    ensures r.Ok? ==> p < r.value.1 <= |s|
    decreases |s| - p, 2
  {
    match TermAt(s, p)
    case Err(e) => Err(e)
    case Ok((v, q)) => ExpressionRest(s, q, v)
  }

  function Parsed(s: string): Result<Value> {
    match ExpressionAt(s, 0)
    case Err(e) => Err(e)
    case Ok((v, q)) => if q < |s| then Err(TrailingInput) else Ok(v)
  }

  // ---------------------------------------------------------------------------
  // Soundness: what is parsed is the yield of a tree with that meaning.

  lemma Split(s: string, p: nat, q: nat, e: nat)
    requires p <= q < e <= |s|
    ensures s[p..e] == s[p..q] + [s[q]] + s[q + 1..e]
  {
  }

  lemma NumberSound(s: string, p: nat) returns (f: Factor)
    requires p < |s| && IsDigit(s[p]) && NumberAt(s, p).Ok?
    ensures FactorOk(f) && FactorYield(f) == s[p..NumberAt(s, p).value.1]
    ensures FactorMeaning(f) == NumberAt(s, p).value.0
  {
    var q := DigitsEnd(s, p);
    if q < |s| && s[q] == '.' {
      var e := DigitsEnd(s, q + 1);
      hide Decimal, Whole;
      f := Number(s[p..q], true, s[q + 1..e]);
      Split(s, p, q, e);
    } else {
      f := Number(s[p..q], false, "");
    }
  }

  lemma {:induction false} FactorSound(s: string, p: nat) returns (f: Factor)
    requires p <= |s| && FactorAt(s, p).Ok?
    ensures FactorOk(f) && FactorYield(f) == s[p..FactorAt(s, p).value.1]
    ensures FactorMeaning(f) == FactorAt(s, p).value.0
    decreases |s| - p, 0
  {
    if s[p] == '(' {
      var e := ExpressionSound(s, p + 1);
      var q := ExpressionAt(s, p + 1).value.1;
      f := Paren(e);
      assert s[p..q + 1] == ['('] + s[p + 1..q] + [')'];
    } else {
      f := NumberSound(s, p);
    }
  }

  lemma {:induction false} TermRestSound(s: string, o: nat, p: nat, t: Term) returns (u: Term)
    requires o <= p <= |s| && TermOk(t) && TermYield(t) == s[o..p]
    requires TermRest(s, p, TermMeaning(t)).Ok?
    ensures TermOk(u) && TermYield(u) == s[o..TermRest(s, p, TermMeaning(t)).value.1]
    ensures TermMeaning(u) == TermRest(s, p, TermMeaning(t)).value.0
    decreases |s| - p, 0
  {
    if AtMulOp(s, p) {
      var f := FactorSound(s, p + 1);
      var q := FactorAt(s, p + 1).value.1;
      Split(s, o, p, q);
      u := TermRestSound(s, o, q, MulDiv(t, s[p], f));
    } else {
      u := t;
    }
  }

  lemma {:induction false} TermSound(s: string, p: nat) returns (t: Term)
    requires p <= |s| && TermAt(s, p).Ok?
    ensures TermOk(t) && TermYield(t) == s[p..TermAt(s, p).value.1]
    ensures TermMeaning(t) == TermAt(s, p).value.0
    decreases |s| - p, 1
  {
    var f := FactorSound(s, p);
    t := TermRestSound(s, p, FactorAt(s, p).value.1, OneFactor(f));
  }

  lemma {:induction false} ExpressionRestSound(s: string, o: nat, p: nat, e: Expression) returns (d: Expression)
    requires o <= p <= |s| && ExpressionOk(e) && Yield(e) == s[o..p]
    requires ExpressionRest(s, p, Meaning(e)).Ok?
    ensures ExpressionOk(d) && Yield(d) == s[o..ExpressionRest(s, p, Meaning(e)).value.1]
    ensures Meaning(d) == ExpressionRest(s, p, Meaning(e)).value.0
    decreases |s| - p, 0
  {
    if AtAddOp(s, p) {
      var t := TermSound(s, p + 1);
      var q := TermAt(s, p + 1).value.1;
      Split(s, o, p, q);
      d := ExpressionRestSound(s, o, q, AddSub(e, s[p], t));
    } else {
      d := e;
    }
  }

  lemma {:induction false} ExpressionSound(s: string, p: nat) returns (e: Expression)
    requires p <= |s| && ExpressionAt(s, p).Ok?
    ensures ExpressionOk(e) && Yield(e) == s[p..ExpressionAt(s, p).value.1]
    ensures Meaning(e) == ExpressionAt(s, p).value.0
    decreases |s| - p, 2
  {
    var t := TermSound(s, p);
    e := ExpressionRestSound(s, p, TermAt(s, p).value.1, OneTerm(t));
  }

  // ---------------------------------------------------------------------------
  // Completeness: a yield in the input is parsed back to its tree, as long as
  // what follows could not belong to it.

  predicate EndsNumber(s: string, p: nat) {
    p < |s| ==> !IsDigit(s[p]) && s[p] != '.'
  }

  /** `y` stands in `s` at position `p`. */
  predicate At(s: string, p: nat, y: string) {
    p + |y| <= |s| && s[p..p + |y|] == y
  }

  lemma AtConcat(s: string, p: nat, a: string, c: char, b: string)
    requires At(s, p, a + [c] + b)
    ensures |a + [c] + b| == |a| + 1 + |b| && p + |a| + 1 + |b| <= |s|
    ensures At(s, p, a) && s[p + |a|] == c && At(s, p + |a| + 1, b)
  {
    var y, q := a + [c] + b, p + |a|;
    var w := s[p..p + |y|];
    assert w[..|a|] == a && w[..|a|] == s[p..q];
    assert w[|a|] == c && w[|a|] == s[q];
    assert w[|a| + 1..] == b && w[|a| + 1..] == s[q + 1..q + 1 + |b|];
  }

  lemma {:induction false} DigitsEndExact(s: string, p: nat, q: nat)
    requires p <= q <= |s| && AllDigits(s[p..q]) && (q < |s| ==> !IsDigit(s[q]))
    ensures DigitsEnd(s, p) == q
    decreases q - p
  {
    if p < q {
      assert s[p..q][0] == s[p] && s[p..q][1..] == s[p + 1..q];
      DigitsEndExact(s, p + 1, q);
    }
  }

  lemma WholeComplete(s: string, p: nat, w: string)
    requires w != "" && AllDigits(w) && At(s, p, w) && EndsNumber(s, p + |w|)
    ensures p < |s| && IsDigit(s[p]) && NumberAt(s, p) == Ok((Num(Decimal(w, "")), p + |w|))
  {
    hide Decimal, Whole, IsDigit;
    assert s[p] == s[p..p + |w|][0] == w[0];
    DigitsEndExact(s, p, p + |w|);
  }

  /** A digit run, a point and a digit run that ends are read as the number they write. */
  lemma DecimalRead(s: string, p: nat, q: nat, e: nat)
    requires p < q < e <= |s| && s[q] == '.' && EndsNumber(s, e)
    requires AllDigits(s[p..q]) && AllDigits(s[q + 1..e])
    ensures IsDigit(s[p]) && NumberAt(s, p) == Ok((Num(Decimal(s[p..q], s[q + 1..e])), e))
  {
    hide Decimal, Whole;
    assert s[p] == s[p..q][0];
    DigitsEndExact(s, p, q);
    DigitsEndExact(s, q + 1, e);
  }

  lemma DecimalComplete(s: string, p: nat, w: string, d: string)
    requires w != "" && AllDigits(w) && AllDigits(d)
    requires At(s, p, w) && p + |w| < |s| && s[p + |w|] == '.' && At(s, p + |w| + 1, d)
    requires EndsNumber(s, p + |w| + 1 + |d|)
    ensures p < |s| && IsDigit(s[p]) && NumberAt(s, p) == Ok((Num(Decimal(w, d)), p + |w| + 1 + |d|))
  {
    hide Decimal, Whole, NumberAt, DigitsEnd;
    DecimalRead(s, p, p + |w|, p + |w| + 1 + |d|);
  }

  lemma ParenAt(s: string, p: nat, y: string)
    requires At(s, p, ['('] + y + [')'])
    ensures p < |s| && s[p] == '(' && At(s, p + 1, y)
    ensures p + 1 + |y| < |s| && s[p + 1 + |y|] == ')'
  {
    assert ['('] + y + [')'] == (['('] + y) + [')'] + [];
    AtConcat(s, p, ['('] + y, ')', []);
    assert ['('] + y == [] + ['('] + y;
    AtConcat(s, p, [], '(', y);
  }

  lemma {:induction false} FactorComplete(s: string, p: nat, f: Factor)
    requires FactorOk(f) && At(s, p, FactorYield(f)) && EndsNumber(s, p + |FactorYield(f)|)
    ensures FactorAt(s, p) == Ok((FactorMeaning(f), p + |FactorYield(f)|))
    decreases f, 0
  {
    match f
    case Number(w, point, d) =>
      hide Decimal, Whole;
      if point { AtConcat(s, p, w, '.', d); DecimalComplete(s, p, w, d); } else { WholeComplete(s, p, w); }
    case Paren(e) =>
      hide NumberAt, At, Yield, ExpressionAt, Meaning, ExpressionOk;
      ParenAt(s, p, Yield(e));
      ExpressionComplete(s, p + 1, e);
      var q := p + 1 + |Yield(e)|;
      assert ExpressionRest(s, q, Meaning(e)) == Ok((Meaning(e), q));
  }

  lemma MulDivAt(s: string, p: nat, t: Term)
    requires t.MulDiv? && TermOk(t) && At(s, p, TermYield(t))
    ensures At(s, p, TermYield(t.t)) && AtMulOp(s, p + |TermYield(t.t)|)
    ensures s[p + |TermYield(t.t)|] == t.op && At(s, p + |TermYield(t.t)| + 1, FactorYield(t.f))
    ensures |TermYield(t)| == |TermYield(t.t)| + 1 + |FactorYield(t.f)|
  {
    AtConcat(s, p, TermYield(t.t), t.op, FactorYield(t.f));
  }

  /** One turn of the loop over factors. */
  lemma TermRestStep(s: string, p: nat, acc: Value, v: Value, q: nat)
    requires AtMulOp(s, p) && FactorAt(s, p + 1) == Ok((v, q))
    ensures TermRest(s, p, acc) == TermRest(s, q, Bin(s[p], acc, v))
  {
  }

  lemma {:induction false} TermComplete(s: string, p: nat, t: Term)
    requires TermOk(t) && At(s, p, TermYield(t)) && EndsNumber(s, p + |TermYield(t)|)
    ensures TermAt(s, p) == TermRest(s, p + |TermYield(t)|, TermMeaning(t))
    decreases t, 0
  {
    match t
    case OneFactor(f) =>
      hide FactorAt, At, FactorYield, FactorMeaning, TermRest;
      FactorComplete(s, p, f);
    case MulDiv(u, op, f) =>
      hide FactorAt, TermAt, TermRest, At, FactorYield, TermYield, FactorMeaning, FactorOk;
      MulDivAt(s, p, t);
      var q := p + |TermYield(u)|;
      TermComplete(s, p, u);
      FactorComplete(s, q + 1, f);
      TermRestStep(s, q, TermMeaning(u), FactorMeaning(f), q + 1 + |FactorYield(f)|);
  }

  lemma AddSubAt(s: string, p: nat, e: Expression)
    requires e.AddSub? && ExpressionOk(e) && At(s, p, Yield(e))
    ensures At(s, p, Yield(e.e)) && AtAddOp(s, p + |Yield(e.e)|)
    ensures s[p + |Yield(e.e)|] == e.op && At(s, p + |Yield(e.e)| + 1, TermYield(e.t))
    ensures |Yield(e)| == |Yield(e.e)| + 1 + |TermYield(e.t)|
  {
    AtConcat(s, p, Yield(e.e), e.op, TermYield(e.t));
  }

  lemma ExpressionRestStep(s: string, p: nat, acc: Value, v: Value, q: nat)
    requires AtAddOp(s, p) && TermAt(s, p + 1) == Ok((v, q))
    ensures ExpressionRest(s, p, acc) == ExpressionRest(s, q, Bin(s[p], acc, v))
  {
  }

  /** A position at neither a factor's continuation nor a '*' or '/' ends a term. */
  lemma TermEnds(s: string, p: nat, acc: Value)
    requires p <= |s| && !AtMulOp(s, p)
    ensures TermRest(s, p, acc) == Ok((acc, p))
  {
  }

  lemma {:induction false} ExpressionComplete(s: string, p: nat, e: Expression)
    requires ExpressionOk(e) && At(s, p, Yield(e))
    requires EndsNumber(s, p + |Yield(e)|) && !AtMulOp(s, p + |Yield(e)|)
    ensures ExpressionAt(s, p) == ExpressionRest(s, p + |Yield(e)|, Meaning(e))
    decreases e, 1
  {
    match e
    case OneTerm(t) =>
      hide FactorAt, TermAt, TermRest, TermYield, TermMeaning, TermOk;
      TermComplete(s, p, t);
      TermEnds(s, p + |TermYield(t)|, TermMeaning(t));
    case AddSub(d, op, t) =>
      hide FactorAt, TermAt, TermRest, ExpressionAt, ExpressionRest, At;
      hide TermYield, Yield, TermMeaning, TermOk, FactorOk;
      AddSubAt(s, p, e);
      var q := p + |Yield(d)|;
      ExpressionComplete(s, p, d);
      TermComplete(s, q + 1, t);
      TermEnds(s, p + |Yield(e)|, TermMeaning(t));
      ExpressionRestStep(s, q, Meaning(d), TermMeaning(t), p + |Yield(e)|);
  }

  /** The parser accepts exactly the grammar's strings and returns the meaning of their tree. */
  lemma ParsesExactlyTheGrammar(s: string, v: Value)
    ensures Parsed(s) == Ok(v) <==> exists e :: ExpressionOk(e) && Yield(e) == s && Meaning(e) == v
  {
    if Parsed(s) == Ok(v) {
      var e := ExpressionSound(s, 0);
      assert s[0..|s|] == s;
    }
    forall e | ExpressionOk(e) && Yield(e) == s && Meaning(e) == v ensures Parsed(s) == Ok(v) {
      ParsesBack(e);
    }
  }

  /** Round trip: printing a tree and parsing the text gives back the tree's meaning. */
  lemma ParsesBack(e: Expression)
    requires ExpressionOk(e)
    ensures Parsed(Yield(e)) == Ok(Meaning(e))
  {
    ExpressionComplete(Yield(e), 0, e);
  }

  /** The grammar is unambiguous as far as meaning goes. */
  lemma MeaningIsUnique(d: Expression, e: Expression)
    requires ExpressionOk(d) && ExpressionOk(e) && Yield(d) == Yield(e)
    ensures Meaning(d) == Meaning(e)
  {
    ParsesBack(d);
    ParsesBack(e);
  }

  // ---------------------------------------------------------------------------
  // Errors.

  /** What may stand before a place where a factor has to come: open parentheses, and factors each
      with the operator behind it. */
  datatype Context = Here | Inside(c: Context) | Behind(f: Factor, op: char, c: Context)

  predicate IsOp(c: char) {
    c == '+' || c == '-' || c == '*' || c == '/'
  }

  predicate ContextOk(c: Context) {
    match c
    case Here => true
    case Inside(d) => ContextOk(d)
    case Behind(f, op, d) => FactorOk(f) && IsOp(op) && ContextOk(d)
  }

  function ContextYield(c: Context): string {
    match c
    case Here => ""
    case Inside(d) => ['('] + ContextYield(d)
    case Behind(f, op, d) => FactorYield(f) + [op] + ContextYield(d)
  }

  /** At the end of the text or before a character that cannot belong to the expression before it. */
  predicate EndsExpression(s: string, p: nat) {
    p < |s| ==> !IsDigit(s[p]) && s[p] != '.' && !IsOp(s[p])
  }

  /** Why no factor can be read at `p`. */
  ghost predicate Stuck(s: string, p: nat, e: Error)
    requires p <= |s|
  {
    match e
    case UnexpectedEnd => p == |s|
    case InvalidExpression => p < |s| && !IsDigit(s[p]) && s[p] != '('
    case InvalidNumber =>
      exists w, d :: w != "" && AllDigits(w) && AllDigits(d) && At(s, p, w + ['.'] + (d + ['.']))
    case MismatchedParentheses =>
      exists x :: ExpressionOk(x) && At(s, p, ['('] + Yield(x)) && EndsExpression(s, p + 1 + |Yield(x)|) &&
                  (p + 1 + |Yield(x)| < |s| ==> s[p + 1 + |Yield(x)|] != ')')
    case TrailingInput => false
  }

  lemma StuckFails(s: string, p: nat, e: Error)
    requires p <= |s| && Stuck(s, p, e)
    ensures FactorAt(s, p) == Err(e)
  {
    match e
    case InvalidNumber =>
      var w, d :| w != "" && AllDigits(w) && AllDigits(d) && At(s, p, w + ['.'] + (d + ['.']));
      TwoPoints(s, p, w, d);
    case MismatchedParentheses =>
      var x :| ExpressionOk(x) && At(s, p, ['('] + Yield(x)) && EndsExpression(s, p + 1 + |Yield(x)|) &&
               (p + 1 + |Yield(x)| < |s| ==> s[p + 1 + |Yield(x)|] != ')');
      Unclosed(s, p, x);
    case _ =>
  }

  lemma TwoPoints(s: string, p: nat, w: string, d: string)
    requires w != "" && AllDigits(w) && AllDigits(d) && At(s, p, w + ['.'] + (d + ['.']))
    ensures p < |s| && FactorAt(s, p) == Err(InvalidNumber)
  {
    AtConcat(s, p, w, '.', d + ['.']);
    assert d + ['.'] == d + ['.'] + [];
    AtConcat(s, p + |w| + 1, d, '.', []);
    assert s[p] == s[p..p + |w|][0] == w[0];
    DigitsEndExact(s, p, p + |w|);
    DigitsEndExact(s, p + |w| + 1, p + |w| + 1 + |d|);
  }

  lemma Unclosed(s: string, p: nat, x: Expression)
    requires ExpressionOk(x) && At(s, p, ['('] + Yield(x)) && EndsExpression(s, p + 1 + |Yield(x)|)
    requires p + 1 + |Yield(x)| < |s| ==> s[p + 1 + |Yield(x)|] != ')'
    ensures p < |s| && FactorAt(s, p) == Err(MismatchedParentheses)
  {
    var y := Yield(x);
    assert ['('] + y == [] + ['('] + y;
    AtConcat(s, p, [], '(', y);
    hide Yield, ExpressionAt, Meaning, ExpressionOk;
    ExpressionComplete(s, p + 1, x);
    assert ExpressionRest(s, p + 1 + |y|, Meaning(x)) == Ok((Meaning(x), p + 1 + |y|));
  }

  /** An expression loop that ends in this error, whatever it has computed so far. */
  ghost predicate LoopFails(s: string, q: nat, e: Error)
    requires q <= |s|
  {
    forall acc :: ExpressionRest(s, q, acc) == Err(e)
  }

  ghost predicate EndsIn(s: string, r: Result<(Value, nat)>, e: Error)
    requires r.Ok? ==> r.value.1 <= |s|
  {
    match r
    case Err(d) => d == e
    case Ok((_, q)) => LoopFails(s, q, e)
  }

  /** Both loops that are under way end in it. */
  ghost predicate RestFails(s: string, q: nat, e: Error)
    requires q <= |s|
  {
    forall acc :: EndsIn(s, TermRest(s, q, acc), e)
  }

  ghost predicate FactorFails(s: string, p: nat, e: Error)
    requires p <= |s|
  {
    match FactorAt(s, p)
    case Err(d) => d == e
    case Ok((_, q)) => RestFails(s, q, e)
  }

  lemma TermFails(s: string, p: nat, e: Error)
    requires p <= |s| && FactorFails(s, p, e)
    ensures EndsIn(s, TermAt(s, p), e) && ExpressionAt(s, p) == Err(e)
  {
    hide FactorAt, TermRest, ExpressionRest;
    if FactorAt(s, p).Ok? {
      var (v, q) := FactorAt(s, p).value;
      assert RestFails(s, q, e);
      assert EndsIn(s, TermRest(s, q, v), e) && TermAt(s, p) == TermRest(s, q, v);
    }
    if TermAt(s, p).Ok? {
      var (v, q) := TermAt(s, p).value;
      assert LoopFails(s, q, e) && ExpressionAt(s, p) == ExpressionRest(s, q, v);
    }
  }

  lemma BehindFails(s: string, p: nat, f: Factor, op: char, e: Error)
    requires FactorOk(f) && IsOp(op) && At(s, p, FactorYield(f) + [op])
    requires p + |FactorYield(f)| + 1 <= |s| && FactorFails(s, p + |FactorYield(f)| + 1, e)
    ensures FactorFails(s, p, e)
  {
    var q := p + |FactorYield(f)|;
    assert FactorYield(f) + [op] == FactorYield(f) + [op] + [];
    AtConcat(s, p, FactorYield(f), op, []);
    FactorComplete(s, p, f);
    hide FactorAt, TermRest, At, FactorYield, FactorMeaning, FactorOk, FactorFails, EndsIn;
    forall acc ensures EndsIn(s, TermRest(s, q, acc), e) {
      if op == '*' || op == '/' { MulFails(s, q, acc, e); } else { AddFails(s, q, acc, e); }
    }
    FactorFailsIf(s, p, e);
  }

  lemma FactorFailsIf(s: string, p: nat, e: Error)
    requires p <= |s| && FactorAt(s, p).Ok? && forall acc :: EndsIn(s, TermRest(s, FactorAt(s, p).value.1, acc), e)
    ensures FactorFails(s, p, e)
  {
    hide FactorAt, TermRest, EndsIn;
  }

  lemma MulFails(s: string, q: nat, acc: Value, e: Error)
    requires AtMulOp(s, q) && FactorFails(s, q + 1, e)
    ensures EndsIn(s, TermRest(s, q, acc), e)
  {
    hide FactorAt, EndsIn;
    if FactorAt(s, q + 1).Ok? {
      var (v, r) := FactorAt(s, q + 1).value;
      assert RestFails(s, r, e);
      TermRestStep(s, q, acc, v, r);
      hide TermRest;
      assert EndsIn(s, TermRest(s, r, Bin(s[q], acc, v)), e);
    } else {
      assert TermRest(s, q, acc) == Err(e);
      ErrEndsIn(s, e);
    }
  }

  lemma ErrEndsIn(s: string, e: Error)
    ensures EndsIn(s, Err(e), e)
  {
  }

  lemma AddFails(s: string, q: nat, acc: Value, e: Error)
    requires AtAddOp(s, q) && FactorFails(s, q + 1, e)
    ensures EndsIn(s, TermRest(s, q, acc), e)
  {
    TermEnds(s, q, acc);
    TermFails(s, q + 1, e);
    hide FactorAt, TermAt, TermRest, FactorFails;
    forall acc' ensures ExpressionRest(s, q, acc') == Err(e) {
      if TermAt(s, q + 1).Ok? {
        var (v, r) := TermAt(s, q + 1).value;
        ExpressionRestStep(s, q, acc', v, r);
        hide ExpressionRest;
        assert LoopFails(s, r, e);
      }
    }
  }

  lemma {:induction false} ContextFails(s: string, p: nat, c: Context, e: Error)
    requires ContextOk(c) && At(s, p, ContextYield(c)) && Stuck(s, p + |ContextYield(c)|, e)
    ensures FactorFails(s, p, e)
    decreases c
  {
    assert p + |ContextYield(c)| <= |s|;
    hide Stuck, FactorFails, FactorAt, ExpressionAt, FactorYield, FactorOk, At;
    match c
    case Here => HereFails(s, p, e);
    case Inside(d) =>
      InsideAt(s, p, ContextYield(d));
      ContextFails(s, p + 1, d, e);
      TermFails(s, p + 1, e);
      FailsAt(s, p, e);
    case Behind(f, op, d) =>
      BehindAt(s, p, FactorYield(f), op, ContextYield(d));
      ContextFails(s, p + |FactorYield(f)| + 1, d, e);
      BehindFails(s, p, f, op, e);
  }

  lemma HereFails(s: string, p: nat, e: Error)
    requires p <= |s| && Stuck(s, p, e)
    ensures FactorFails(s, p, e)
  {
    StuckFails(s, p, e);
    hide Stuck, FactorAt;
  }

  lemma InsideAt(s: string, p: nat, y: string)
    requires At(s, p, ['('] + y)
    ensures p < |s| && s[p] == '(' && At(s, p + 1, y)
  {
    assert ['('] + y == [] + ['('] + y;
    AtConcat(s, p, [], '(', y);
  }

  lemma BehindAt(s: string, p: nat, a: string, c: char, b: string)
    requires At(s, p, a + [c] + b)
    ensures |a + [c] + b| == |a| + 1 + |b| && p + |a| + 1 + |b| <= |s|
    ensures At(s, p, a + [c]) && At(s, p + |a| + 1, b)
  {
    AtConcat(s, p, a, c, b);
    assert s[p..p + |a| + 1] == a + [c];
  }

  lemma FailsAt(s: string, p: nat, e: Error)
    requires p < |s| && s[p] == '(' && ExpressionAt(s, p + 1) == Err(e)
    ensures FactorFails(s, p, e)
  {
    hide ExpressionAt, NumberAt;
  }

  /** Which error a text gives: behind any open parentheses and operands the one that says why no
      factor can be read there. */
  lemma ErrorWhereStuck(s: string, c: Context, e: Error)
    requires ContextOk(c) && At(s, 0, ContextYield(c)) && Stuck(s, |ContextYield(c)|, e)
    ensures Parsed(s) == Err(e)
  {
    ContextFails(s, 0, c, e);
    hide FactorFails, ExpressionAt, Stuck, At;
    TermFails(s, 0, e);
  }

  /** A whole expression with something behind it that cannot belong to it is refused as such. */
  lemma TrailingIsRefused(s: string, x: Expression)
    requires ExpressionOk(x) && At(s, 0, Yield(x)) && |Yield(x)| < |s| && EndsExpression(s, |Yield(x)|)
    ensures Parsed(s) == Err(TrailingInput)
  {
    hide Yield, ExpressionAt, Meaning, ExpressionOk;
    ExpressionComplete(s, 0, x);
    assert ExpressionRest(s, |Yield(x)|, Meaning(x)) == Ok((Meaning(x), |Yield(x)|));
  }

  // ---------------------------------------------------------------------------

  lemma WholeSnoc(w: string, c: char)
    requires AllDigits(w) && IsDigit(c)
    ensures AllDigits(w + [c]) && Whole(w + [c]) == Whole(w) * 10.0 + Digit(c)
  {
    var e := w + [c];
    assert e[..|e| - 1] == w && e[|e| - 1] == c;
  }

  lemma DecimalSnoc(w: string, d: string, c: char)
    requires AllDigits(w) && AllDigits(d) && IsDigit(c)
    ensures AllDigits(d + [c]) && Decimal(w, d + [c]) == Decimal(w, d) + Worth(c, Place(|d| + 1))
  {
    var e := d + [c];
    assert e[..|e| - 1] == d && e[|e| - 1] == c;
  }

  /** The loop state of the number parser after reading from `p` up to `i`. */
  ghost predicate NumberSoFar(s: string, p: nat, i: nat, result: real, decimalPoint: bool, fraction: real) {
    p < |s| && IsDigit(s[p]) &&
    var q := DigitsEnd(s, p);
    if decimalPoint then
      q < |s| && s[q] == '.' && q < i <= DigitsEnd(s, q + 1) && fraction == Place(i - q - 1) &&
      AllDigits(s[q + 1..i]) && result == Decimal(s[p..q], s[q + 1..i])
    else
      p <= i <= q && fraction == Place(0) && AllDigits(s[p..i]) && result == Whole(s[p..i])
  }

  lemma NumberStart(s: string, p: nat)
    requires p < |s| && IsDigit(s[p])
    ensures NumberSoFar(s, p, p, 0.0, false, 1.0)
  {
    assert s[p..p] == "";
  }

  lemma NumberPoint(s: string, p: nat, i: nat, result: real, decimalPoint: bool, fraction: real)
    requires i < |s| && s[i] == '.' && NumberSoFar(s, p, i, result, decimalPoint, fraction)
    ensures decimalPoint ==> NumberAt(s, p) == Err(InvalidNumber)
    ensures !decimalPoint ==> NumberSoFar(s, p, i + 1, result, true, fraction)
  {
    hide Whole, Place;
    DigitsBelowEnd(s, if decimalPoint then DigitsEnd(s, p) + 1 else p, i);
  }

  lemma NumberWhole(s: string, p: nat, i: nat, result: real, fraction: real)
    requires i < |s| && IsDigit(s[i]) && NumberSoFar(s, p, i, result, false, fraction)
    ensures NumberSoFar(s, p, i + 1, result * 10.0 + Digit(s[i]), false, fraction)
  {
    hide Whole, Place, Digit, Decimal;
    DigitsBelowEnd(s, p, i);
    WholeSnoc(s[p..i], s[i]);
    assert s[p..i + 1] == s[p..i] + [s[i]];
  }

  lemma NumberFraction(s: string, p: nat, i: nat, result: real, fraction: real)
    requires i < |s| && IsDigit(s[i]) && NumberSoFar(s, p, i, result, true, fraction)
    ensures NumberSoFar(s, p, i + 1, result + Worth(s[i], fraction / 10.0), true, fraction / 10.0)
  {
    hide Whole, Worth, Decimal;
    var q := DigitsEnd(s, p);
    DigitsBelowEnd(s, q + 1, i);
    DecimalSnoc(s[p..q], s[q + 1..i], s[i]);
    assert s[q + 1..i + 1] == s[q + 1..i] + [s[i]];
  }

  lemma NumberDone(s: string, p: nat, i: nat, result: real, decimalPoint: bool, fraction: real)
    requires NumberSoFar(s, p, i, result, decimalPoint, fraction) && EndsNumber(s, i)
    ensures NumberAt(s, p) == Ok((Num(result), i))
  {
    DigitsBelowEnd(s, if decimalPoint then DigitsEnd(s, p) + 1 else p, i);
  }

  class ExpressionParser {
    var input: string
    var position: nat

    constructor ()
      ensures input == "" && position == 0
    {
      input, position := "", 0;
    }

    ghost predicate Valid()
      reads this
    {
      position <= |input|
    }

    method Parse(expr: string) returns (r: Result<Value>)
      modifies this
      ensures r == Parsed(expr)
    {
      input, position := expr, 0;
      r := ParseExpression();
      if r.Ok? && position < |input| { r := Err(TrailingInput); }
    }

    method ParseNumber() returns (r: Result<Value>)
      requires Valid() && position < |input| && IsDigit(input[position])
      modifies this`position
      ensures Valid() && Agrees(r, position, NumberAt(input, old(position)))
    {
      var result, decimalPoint, fraction := 0.0, false, 1.0;
      ghost var p := position;
      hide NumberSoFar, NumberAt, Worth, Digit, Place;
      NumberStart(input, p);
      while position < |input| && (IsDigit(input[position]) || input[position] == '.')
        invariant Valid() && NumberSoFar(input, p, position, result, decimalPoint, fraction)
        decreases |input| - position
      {
        var c := input[position];
        if c == '.' {
          NumberPoint(input, p, position, result, decimalPoint, fraction);
          if decimalPoint { return Err(InvalidNumber); }
          decimalPoint := true;
        } else if decimalPoint {
          NumberFraction(input, p, position, result, fraction);
          fraction := fraction / 10.0;
          result := result + Worth(c, fraction);
        } else {
          NumberWhole(input, p, position, result, fraction);
          result := result * 10.0 + Digit(c);
        }
        position := position + 1;
      }
      NumberDone(input, p, position, result, decimalPoint, fraction);
      r := Ok(Num(result));
    }

    method ParseFactor() returns (r: Result<Value>)
      requires Valid()
      modifies this`position
      ensures Valid() && Agrees(r, position, FactorAt(input, old(position)))
      decreases |input| - position, 0
    {
      if position >= |input| { return Err(UnexpectedEnd); }
      if input[position] == '(' {
        position := position + 1;
        r := ParseExpression();
        if r.Err? { return; }
        if position >= |input| || input[position] != ')' { return Err(MismatchedParentheses); }
        position := position + 1;
        return;
      }
      if IsDigit(input[position]) {
        r := ParseNumber();
        return;
      }
      return Err(InvalidExpression);
    }

    method ParseTerm() returns (r: Result<Value>)
      requires Valid()
      modifies this`position
      ensures Valid() && Agrees(r, position, TermAt(input, old(position)))
      decreases |input| - position, 1
    {
      hide FactorAt;
      r := ParseFactor();
      if r.Err? { return; }
      while position < |input| && (input[position] == '*' || input[position] == '/')
        invariant Valid() && old(position) < position && r.Ok?
        invariant TermAt(input, old(position)) == TermRest(input, position, r.value)
        decreases |input| - position
      {
        var op := input[position];
        position := position + 1;
        var factor := ParseFactor();
        if factor.Err? { return factor; }
        r := Ok(Bin(op, r.value, factor.value));
      }
    }

    method ParseExpression() returns (r: Result<Value>)
      requires Valid()
      modifies this`position
      ensures Valid() && Agrees(r, position, ExpressionAt(input, old(position)))
      decreases |input| - position, 2
    {
      hide TermAt;
      r := ParseTerm();
      if r.Err? { return; }
      while position < |input| && (input[position] == '+' || input[position] == '-')
        invariant Valid() && old(position) < position && r.Ok?
        invariant ExpressionAt(input, old(position)) == ExpressionRest(input, position, r.value)
        decreases |input| - position
      {
        var op := input[position];
        position := position + 1;
        var term := ParseTerm();
        if term.Err? { return term; }
        r := Ok(Bin(op, r.value, term.value));
      }
    }
  }

  /** A method's outcome and final position agree with a parsing function's result. */
  ghost predicate Agrees(r: Result<Value>, position: nat, spec: Result<(Value, nat)>) {
    match spec
    case Err(e) => r == Err(e)
    case Ok((v, q)) => r == Ok(v) && position == q
  }

  /** Below the end of a digit run every character is a digit, and the end itself is not one. */
  lemma DigitsBelowEnd(s: string, p: nat, i: nat)
    requires p <= |s| && p <= i <= DigitsEnd(s, p)
    ensures i < DigitsEnd(s, p) <==> i < |s| && IsDigit(s[i])
  {
    if i < DigitsEnd(s, p) {
      assert s[p..DigitsEnd(s, p)][i - p] == s[i];
    }
  }
}
