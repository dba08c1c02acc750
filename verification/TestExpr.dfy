/** The `test` expression evaluator (src/applets/sys/test.rs): a recursive-descent parser that
    evaluates as it goes, against the grammar it documents. */
module TestExpr {
  import opened Prelude

  type Token = string

  /** What the evaluator asks of the system and of number parsing. */
  datatype World = World(
    fileTest: (Token, Token) -> bool,
    isTty: Token -> Option<bool>,
    parseInt: Token -> Option<int>,
    newer: (Token, Token) -> bool,
    sameFile: (Token, Token) -> bool)

  datatype Error =
    | MissingParen
    | ArgumentExpected
    | OperandExpected(op: Token)
    | UnknownOperator(op: Token)
    | IntegerExpected(lhs: Token, op: Token)
    | InvalidFd(arg: Token)
    | UnexpectedArgument(arg: Token)

  type Value = Result<bool, Error>

  // ----- operators

  predicate IsFileTest(op: Token) {
    op in {"-e", "-f", "-d", "-r", "-w", "-x", "-s", "-L", "-h", "-b", "-c", "-p", "-S"}
  }

  predicate IsUnaryOp(op: Token) {
    IsFileTest(op) || op in {"-t", "-n", "-z"}
  }

  predicate IsIntegerOp(op: Token) {
    op in {"-eq", "-ne", "-lt", "-le", "-gt", "-ge"}
  }

  predicate IsBinaryOp(op: Token) {
    op in {"=", "==", "!="} || IsIntegerOp(op) || op in {"-nt", "-ot", "-ef"}
  }

  function Unary(w: World, op: Token, arg: Token): Option<Value> {
    if op == "-t" then
      Some(match w.isTty(arg) case Some(v) => Ok(v) case None => Err(InvalidFd(arg)))
    else if op == "-n" then Some(Ok(arg != ""))
    else if op == "-z" then Some(Ok(arg == ""))
    else if IsFileTest(op) then Some(Ok(w.fileTest(op, arg)))
    else None
  }

  function Compare(op: Token, a: int, b: int): bool {
    if op == "-eq" then a == b
    else if op == "-ne" then a != b
    else if op == "-lt" then a < b
    else if op == "-le" then a <= b
    else if op == "-gt" then a > b
    else a >= b
  }

  function Binary(w: World, op: Token, lhs: Token, rhs: Token): Option<Value> {
    if op == "=" || op == "==" then Some(Ok(lhs == rhs))
    else if op == "!=" then Some(Ok(lhs != rhs))
    else if IsIntegerOp(op) then
      if w.parseInt(lhs).None? || w.parseInt(rhs).None? then Some(Err(IntegerExpected(lhs, op)))
      else Some(Ok(Compare(op, w.parseInt(lhs).value, w.parseInt(rhs).value)))
    else if op == "-nt" then Some(Ok(w.newer(lhs, rhs)))
    else if op == "-ot" then Some(Ok(w.newer(rhs, lhs)))
    else if op == "-ef" then Some(Ok(w.sameFile(lhs, rhs)))
    else None
  }

  function OrUnknown(v: Option<Value>, op: Token): Value {
    match v case Some(r) => r case None => Err(UnknownOperator(op))
  }

  // ----- the grammar

  /** or := and ( '-o' and )* */
  datatype Or = OneAnd(only: And) | OrMore(left: Or, last: And)

  /** and := not ( '-a' not )* */
  datatype And = OneNot(only: Not) | AndMore(left: And, last: Not)

  /** not := '!' not | primary */
  datatype Not = Bang(inner: Not) | Plain(primary: Primary)

  /** primary := '(' or ')' | unary ARG | ARG binop ARG | ARG */
  datatype Primary =
    | Group(inner: Or)
    | UnaryTest(op: Token, arg: Token)
    | BinaryTest(lhs: Token, bop: Token, rhs: Token)
    | Word(word: Token)

  function OrTokens(t: Or): (s: seq<Token>)
    ensures |s| > 0
  {
    match t
    case OneAnd(a) => AndTokens(a)
    case OrMore(l, a) => OrTokens(l) + ["-o"] + AndTokens(a)
  }

  function AndTokens(t: And): (s: seq<Token>)
    ensures |s| > 0
  {
    match t
    case OneNot(n) => NotTokens(n)
    case AndMore(l, n) => AndTokens(l) + ["-a"] + NotTokens(n)
  }

  function NotTokens(t: Not): (s: seq<Token>)
    ensures |s| > 0
  {
    match t
    case Bang(n) => ["!"] + NotTokens(n)
    case Plain(p) => PrimaryTokens(p)
  }

  function PrimaryTokens(t: Primary): (s: seq<Token>)
    ensures |s| > 0
  {
    match t
    case Group(o) => ["("] + OrTokens(o) + [")"]
    case UnaryTest(op, arg) => [op, arg]
    case BinaryTest(lhs, op, rhs) => [lhs, op, rhs]
    case Word(s) => [s]
  }

  /** A first token that reads as neither negation, group nor unary operator. */
  predicate PlainWord(s: Token) {
    s != "!" && s != "(" && !IsUnaryOp(s)
  }

  predicate OrValid(t: Or) {
    match t
    case OneAnd(a) => AndValid(a)
    case OrMore(l, a) => OrValid(l) && AndValid(a)
  }

  predicate AndValid(t: And) {
    match t
    case OneNot(n) => NotValid(n)
    case AndMore(l, n) => AndValid(l) && NotValid(n)
  }

  predicate NotValid(t: Not) {
    match t
    case Bang(n) => NotValid(n)
    case Plain(p) => PrimaryValid(p)
  }

  predicate PrimaryValid(t: Primary) {
    match t
    case Group(o) => OrValid(o)
    case UnaryTest(op, _) => IsUnaryOp(op)
    case BinaryTest(lhs, op, _) => PlainWord(lhs) && IsBinaryOp(op)
    case Word(s) => PlainWord(s)
  }

  // ----- the meaning of a tree: both operands count, the leftmost error wins

  function OrElse(a: Value, b: Value): Value {
    if a.Err? then a else if b.Err? then b else Ok(a.value || b.value)
  }

  function AndAlso(a: Value, b: Value): Value {
    if a.Err? then a else if b.Err? then b else Ok(a.value && b.value)
  }

  function Negate(a: Value): Value {
    if a.Err? then a else Ok(!a.value)
  }

  function OrValue(w: World, t: Or): Value {
    match t
    case OneAnd(a) => AndValue(w, a)
    case OrMore(l, a) => OrElse(OrValue(w, l), AndValue(w, a))
  }

  function AndValue(w: World, t: And): Value {
    match t
    case OneNot(n) => NotValue(w, n)
    case AndMore(l, n) => AndAlso(AndValue(w, l), NotValue(w, n))
  }

  function NotValue(w: World, t: Not): Value {
    match t
    case Bang(n) => Negate(NotValue(w, n))
    case Plain(p) => PrimaryValue(w, p)
  }

  function PrimaryValue(w: World, t: Primary): Value {
    match t
    case Group(o) => OrValue(w, o)
    case UnaryTest(op, arg) => OrUnknown(Unary(w, op, arg), op)
    case BinaryTest(lhs, op, rhs) => OrUnknown(Binary(w, op, lhs, rhs), op)
    case Word(s) => Ok(s != "")
  }

  // ----- the parser as a function of the position

  /** A parsed value with the position after it, or the error that ends the evaluation. */
  datatype Parsed = At(value: bool, pos: nat) | Failed(error: Error)

  predicate Peek(args: seq<Token>, pos: nat, token: Token) {
    pos < |args| && args[pos] == token
  }

  function From(v: Value, pos: nat): Parsed {
    match v case Ok(b) => At(b, pos) case Err(e) => Failed(e)
  }

  ghost predicate Advances(p: Parsed, pos: nat, args: seq<Token>) {
    p.At? ==> pos < p.pos <= |args|
  }

  function ParseOr(w: World, args: seq<Token>, pos: nat): (p: Parsed)
    requires pos <= |args|
    ensures Advances(p, pos, args)
    decreases |args| - pos, 3
  {
    var first := ParseAnd(w, args, pos);
    if first.Failed? then first else OrLoop(w, args, first.value, first.pos)
  }

  function OrLoop(w: World, args: seq<Token>, v: bool, pos: nat): (p: Parsed)
    requires pos <= |args|
    ensures p.At? ==> pos <= p.pos <= |args|
    decreases |args| - pos, 0
  {
    if !Peek(args, pos, "-o") then At(v, pos)
    else
      var r := ParseAnd(w, args, pos + 1);
      if r.Failed? then r else OrLoop(w, args, v || r.value, r.pos)
  }

  function ParseAnd(w: World, args: seq<Token>, pos: nat): (p: Parsed)
    requires pos <= |args|
    ensures Advances(p, pos, args)
    decreases |args| - pos, 2
  {
    var first := ParseNot(w, args, pos);
    if first.Failed? then first else AndLoop(w, args, first.value, first.pos)
  }

  function AndLoop(w: World, args: seq<Token>, v: bool, pos: nat): (p: Parsed)
    requires pos <= |args|
    ensures p.At? ==> pos <= p.pos <= |args|
    decreases |args| - pos, 0
  {
    if !Peek(args, pos, "-a") then At(v, pos)
    else
      var r := ParseNot(w, args, pos + 1);
      if r.Failed? then r else AndLoop(w, args, v && r.value, r.pos)
  }

  function ParseNot(w: World, args: seq<Token>, pos: nat): (p: Parsed)
    requires pos <= |args|
    ensures Advances(p, pos, args)
    decreases |args| - pos, 1
  {
    if Peek(args, pos, "!") then
      var r := ParseNot(w, args, pos + 1);
      if r.Failed? then r else At(!r.value, r.pos)
    else ParsePrimary(w, args, pos)
  }

  function ParsePrimary(w: World, args: seq<Token>, pos: nat): (p: Parsed)
    requires pos <= |args|
    ensures Advances(p, pos, args)
    decreases |args| - pos, 0
  {
    if Peek(args, pos, "(") then
      var r := ParseOr(w, args, pos + 1);
      if r.Failed? then r
      else if Peek(args, r.pos, ")") then At(r.value, r.pos + 1) else Failed(MissingParen)
    else if pos == |args| then Failed(ArgumentExpected)
    else if IsUnaryOp(args[pos]) then
      if pos + 1 == |args| then Failed(OperandExpected(args[pos]))
      else From(OrUnknown(Unary(w, args[pos], args[pos + 1]), args[pos]), pos + 2)
    else if pos + 1 < |args| && IsBinaryOp(args[pos + 1]) then
      if pos + 2 == |args| then Failed(OperandExpected(args[pos + 1]))
      else From(OrUnknown(Binary(w, args[pos + 1], args[pos], args[pos + 2]), args[pos + 1]), pos + 3)
    else At(args[pos] != "", pos + 1)
  }

  /** `eval` */
  function Eval(w: World, args: seq<Token>): Value {
    if args == [] then Ok(false)
    else
      var p := ParseOr(w, args, 0);
      if p.Failed? then Err(p.error)
      else if p.pos != |args| then Err(UnexpectedArgument(args[p.pos]))
      else Ok(p.value)
  }

  // ----- completeness: every tree is evaluated to its value

  /** The tokens `s` stand in `args` from `pos` on. */
  ghost predicate StandsAt(s: seq<Token>, args: seq<Token>, pos: nat) {
    pos + |s| <= |args| && args[pos..pos + |s|] == s
  }

  lemma StandsAtSplit(a: seq<Token>, b: seq<Token>, args: seq<Token>, pos: nat)
    requires StandsAt(a + b, args, pos)
    ensures StandsAt(a, args, pos) && StandsAt(b, args, pos + |a|)
  {
    var whole := args[pos..pos + |a + b|];
    assert args[pos..pos + |a|] == whole[..|a|] == a;
    assert args[pos + |a|..pos + |a| + |b|] == whole[|a|..] == b;
  }

  lemma StandsAtFirst(token: Token, rest: seq<Token>, args: seq<Token>, pos: nat)
    requires StandsAt([token] + rest, args, pos)
    ensures Peek(args, pos, token) && StandsAt(rest, args, pos + 1)
  {
    StandsAtSplit([token], rest, args, pos);
    assert args[pos..pos + 1][0] == token;
  }

  /** No binary operator follows, so that a last word stays a word. */
  predicate NoBinaryAt(args: seq<Token>, pos: nat) {
    pos < |args| ==> !IsBinaryOp(args[pos])
  }

  lemma JoinersAreNotBinary(args: seq<Token>, pos: nat)
    requires Peek(args, pos, "-a") || Peek(args, pos, "-o") || Peek(args, pos, ")")
    ensures NoBinaryAt(args, pos)
    ensures Peek(args, pos, "-o") || Peek(args, pos, ")") ==> !Peek(args, pos, "-a")
    ensures Peek(args, pos, ")") ==> !Peek(args, pos, "-o")
  {
  }

  /** Two operands around `-o` or `-a`: where each stands, and what follows the first. */
  lemma StandsAtJoin(left: seq<Token>, joiner: Token, right: seq<Token>, args: seq<Token>, pos: nat)
    requires (joiner == "-o" || joiner == "-a") && StandsAt(left + ([joiner] + right), args, pos)
    ensures StandsAt(left, args, pos) && StandsAt(right, args, pos + |left| + 1)
    ensures Peek(args, pos + |left|, joiner) && NoBinaryAt(args, pos + |left|)
    ensures joiner == "-o" ==> !Peek(args, pos + |left|, "-a")
  {
    StandsAtSplit(left, [joiner] + right, args, pos);
    StandsAtFirst(joiner, right, args, pos + |left|);
    JoinersAreNotBinary(args, pos + |left|);
  }

  /** Where the parser is after a left operand: in its loop, or stopped by the error. */
  function OrLoopFrom(w: World, args: seq<Token>, v: Value, pos: nat): Parsed
    requires pos <= |args|
  {
    match v case Ok(b) => OrLoop(w, args, b, pos) case Err(e) => Failed(e)
  }

  function AndLoopFrom(w: World, args: seq<Token>, v: Value, pos: nat): Parsed
    requires pos <= |args|
  {
    match v case Ok(b) => AndLoop(w, args, b, pos) case Err(e) => Failed(e)
  }

  lemma OrLoopStep(w: World, args: seq<Token>, left: Value, right: Value, mid: nat, end: nat)
    requires mid < end <= |args| && Peek(args, mid, "-o")
    requires ParseAnd(w, args, mid + 1) == From(right, end)
    ensures OrLoopFrom(w, args, left, mid) == OrLoopFrom(w, args, OrElse(left, right), end)
  {
  }

  lemma AndLoopStep(w: World, args: seq<Token>, left: Value, right: Value, mid: nat, end: nat)
    requires mid < end <= |args| && Peek(args, mid, "-a")
    requires ParseNot(w, args, mid + 1) == From(right, end)
    ensures AndLoopFrom(w, args, left, mid) == AndLoopFrom(w, args, AndAlso(left, right), end)
  {
  }

  lemma OrMoreStands(l: Or, a: And, args: seq<Token>, pos: nat)
    requires StandsAt(OrTokens(OrMore(l, a)), args, pos)
    ensures |OrTokens(OrMore(l, a))| == |OrTokens(l)| + 1 + |AndTokens(a)|
    ensures StandsAt(OrTokens(l), args, pos) && StandsAt(AndTokens(a), args, pos + |OrTokens(l)| + 1)
    ensures Peek(args, pos + |OrTokens(l)|, "-o") && NoBinaryAt(args, pos + |OrTokens(l)|)
    ensures !Peek(args, pos + |OrTokens(l)|, "-a")
  {
    assert OrTokens(OrMore(l, a)) == OrTokens(l) + (["-o"] + AndTokens(a));
    StandsAtJoin(OrTokens(l), "-o", AndTokens(a), args, pos);
  }

  lemma AndMoreStands(l: And, n: Not, args: seq<Token>, pos: nat)
    requires StandsAt(AndTokens(AndMore(l, n)), args, pos)
    ensures |AndTokens(AndMore(l, n))| == |AndTokens(l)| + 1 + |NotTokens(n)|
    ensures StandsAt(AndTokens(l), args, pos) && StandsAt(NotTokens(n), args, pos + |AndTokens(l)| + 1)
    ensures Peek(args, pos + |AndTokens(l)|, "-a") && NoBinaryAt(args, pos + |AndTokens(l)|)
  {
    assert AndTokens(AndMore(l, n)) == AndTokens(l) + (["-a"] + NotTokens(n));
    StandsAtJoin(AndTokens(l), "-a", NotTokens(n), args, pos);
  }

  /** Without a further joiner the loops end with what they have. */
  lemma AndLoopEnds(w: World, args: seq<Token>, v: Value, pos: nat)
    requires pos <= |args| && !Peek(args, pos, "-a")
    ensures AndLoopFrom(w, args, v, pos) == From(v, pos)
  {
  }

  lemma OrLoopEnds(w: World, args: seq<Token>, v: Value, pos: nat)
    requires pos <= |args| && !Peek(args, pos, "-o")
    ensures OrLoopFrom(w, args, v, pos) == From(v, pos)
  {
  }

  lemma OrStarts(w: World, args: seq<Token>, v: Value, pos: nat, end: nat)
    requires end <= |args| && pos <= |args| && ParseAnd(w, args, pos) == From(v, end)
    ensures ParseOr(w, args, pos) == OrLoopFrom(w, args, v, end)
  {
  }

  lemma AndStarts(w: World, args: seq<Token>, v: Value, pos: nat, end: nat)
    requires end <= |args| && pos <= |args| && ParseNot(w, args, pos) == From(v, end)
    ensures ParseAnd(w, args, pos) == AndLoopFrom(w, args, v, end)
  {
  }

  lemma {:induction false} OrComplete(w: World, t: Or, args: seq<Token>, pos: nat)
    requires OrValid(t) && StandsAt(OrTokens(t), args, pos)
    requires NoBinaryAt(args, pos + |OrTokens(t)|) && !Peek(args, pos + |OrTokens(t)|, "-a")
    ensures ParseOr(w, args, pos) == OrLoopFrom(w, args, OrValue(w, t), pos + |OrTokens(t)|)
    decreases t, 1
  {
    match t
    case OneAnd(a) => OneAndComplete(w, a, args, pos);
    case OrMore(l, a) => OrMoreComplete(w, l, a, args, pos);
  }

  lemma {:induction false} OneAndComplete(w: World, a: And, args: seq<Token>, pos: nat)
    requires AndValid(a) && StandsAt(AndTokens(a), args, pos)
    requires NoBinaryAt(args, pos + |AndTokens(a)|) && !Peek(args, pos + |AndTokens(a)|, "-a")
    ensures ParseAnd(w, args, pos) == From(AndValue(w, a), pos + |AndTokens(a)|)
    ensures ParseOr(w, args, pos) == OrLoopFrom(w, args, AndValue(w, a), pos + |AndTokens(a)|)
    decreases a, 2
  {
    AndComplete(w, a, args, pos);
    AndLoopEnds(w, args, AndValue(w, a), pos + |AndTokens(a)|);
    OrStarts(w, args, AndValue(w, a), pos, pos + |AndTokens(a)|);
  }

  lemma {:induction false} OrMoreComplete(w: World, l: Or, a: And, args: seq<Token>, pos: nat)
    requires OrValid(OrMore(l, a)) && StandsAt(OrTokens(OrMore(l, a)), args, pos)
    requires NoBinaryAt(args, pos + |OrTokens(OrMore(l, a))|) && !Peek(args, pos + |OrTokens(OrMore(l, a))|, "-a")
    ensures ParseOr(w, args, pos)
            == OrLoopFrom(w, args, OrElse(OrValue(w, l), AndValue(w, a)), pos + |OrTokens(OrMore(l, a))|)
    decreases OrMore(l, a), 0
  {
    var mid := pos + |OrTokens(l)|;
    var end := mid + 1 + |AndTokens(a)|;
    OrMoreStands(l, a, args, pos);
    assert end == pos + |OrTokens(OrMore(l, a))|;
    OrComplete(w, l, args, pos);
    OneAndComplete(w, a, args, mid + 1);
    OrLoopStep(w, args, OrValue(w, l), AndValue(w, a), mid, end);
  }

  lemma {:induction false} AndComplete(w: World, t: And, args: seq<Token>, pos: nat)
    requires AndValid(t) && StandsAt(AndTokens(t), args, pos)
    requires NoBinaryAt(args, pos + |AndTokens(t)|)
    ensures ParseAnd(w, args, pos) == AndLoopFrom(w, args, AndValue(w, t), pos + |AndTokens(t)|)
    decreases t, 1
  {
    match t
    case OneNot(n) =>
      NotComplete(w, n, args, pos);
      AndStarts(w, args, NotValue(w, n), pos, pos + |NotTokens(n)|);
    case AndMore(l, n) => AndMoreComplete(w, l, n, args, pos);
  }

  lemma {:induction false} AndMoreComplete(w: World, l: And, n: Not, args: seq<Token>, pos: nat)
    requires AndValid(AndMore(l, n)) && StandsAt(AndTokens(AndMore(l, n)), args, pos)
    requires NoBinaryAt(args, pos + |AndTokens(AndMore(l, n))|)
    ensures ParseAnd(w, args, pos)
            == AndLoopFrom(w, args, AndAlso(AndValue(w, l), NotValue(w, n)), pos + |AndTokens(AndMore(l, n))|)
    decreases AndMore(l, n), 0
  {
    var mid := pos + |AndTokens(l)|;
    var end := mid + 1 + |NotTokens(n)|;
    AndMoreStands(l, n, args, pos);
    assert end == pos + |AndTokens(AndMore(l, n))|;
    AndComplete(w, l, args, pos);
    NotComplete(w, n, args, mid + 1);
    AndLoopStep(w, args, AndValue(w, l), NotValue(w, n), mid, end);
  }

  lemma {:induction false} NotComplete(w: World, t: Not, args: seq<Token>, pos: nat)
    requires NotValid(t) && StandsAt(NotTokens(t), args, pos)
    requires NoBinaryAt(args, pos + |NotTokens(t)|)
    ensures ParseNot(w, args, pos) == From(NotValue(w, t), pos + |NotTokens(t)|)
    decreases t
  {
    match t
    case Bang(n) =>
      StandsAtFirst("!", NotTokens(n), args, pos);
      NotComplete(w, n, args, pos + 1);
    case Plain(p) =>
      PrimaryComplete(w, p, args, pos);
  }

  lemma {:induction false} PrimaryComplete(w: World, t: Primary, args: seq<Token>, pos: nat)
    requires PrimaryValid(t) && StandsAt(PrimaryTokens(t), args, pos)
    requires NoBinaryAt(args, pos + |PrimaryTokens(t)|)
    ensures !Peek(args, pos, "!")
    ensures ParsePrimary(w, args, pos) == From(PrimaryValue(w, t), pos + |PrimaryTokens(t)|)
    decreases t
  {
    match t
    case Group(o) => GroupComplete(w, o, args, pos);
    case UnaryTest(op, arg) =>
      StandsAtFirst(op, [arg], args, pos) by { assert [op] + [arg] == [op, arg]; }
      StandsAtFirst(arg, [], args, pos + 1) by { assert [arg] + [] == [arg]; }
    case BinaryTest(lhs, op, rhs) => BinaryComplete(w, lhs, op, rhs, args, pos);
    case Word(s) =>
      StandsAtFirst(s, [], args, pos) by { assert [s] + [] == [s]; }
  }

  lemma BinaryComplete(w: World, lhs: Token, op: Token, rhs: Token, args: seq<Token>, pos: nat)
    requires PlainWord(lhs) && IsBinaryOp(op) && StandsAt([lhs, op, rhs], args, pos)
    ensures !Peek(args, pos, "!")
    ensures ParsePrimary(w, args, pos) == From(OrUnknown(Binary(w, op, lhs, rhs), op), pos + 3)
  {
    assert [lhs] + [op, rhs] == [lhs, op, rhs] && [op] + [rhs] == [op, rhs] && [rhs] + [] == [rhs];
    StandsAtFirst(lhs, [op, rhs], args, pos);
    StandsAtFirst(op, [rhs], args, pos + 1);
    StandsAtFirst(rhs, [], args, pos + 2);
  }

  lemma {:induction false} GroupComplete(w: World, o: Or, args: seq<Token>, pos: nat)
    requires OrValid(o) && StandsAt(PrimaryTokens(Group(o)), args, pos)
    ensures !Peek(args, pos, "!")
    ensures ParsePrimary(w, args, pos) == From(OrValue(w, o), pos + |PrimaryTokens(Group(o))|)
    decreases Group(o), 0
  {
    GroupStands(o, args, pos);
    OrComplete(w, o, args, pos + 1);
    GroupCloses(w, args, OrValue(w, o), pos, pos + 1 + |OrTokens(o)|);
  }

  lemma GroupCloses(w: World, args: seq<Token>, v: Value, pos: nat, close: nat)
    requires Peek(args, pos, "(") && Peek(args, close, ")") && !Peek(args, close, "-o")
    requires ParseOr(w, args, pos + 1) == OrLoopFrom(w, args, v, close)
    ensures ParsePrimary(w, args, pos) == From(v, close + 1)
  {
  }

  /** Where the parts of a group stand. */
  lemma GroupStands(o: Or, args: seq<Token>, pos: nat)
    requires StandsAt(PrimaryTokens(Group(o)), args, pos)
    ensures var close := pos + 1 + |OrTokens(o)|;
      && Peek(args, pos, "(") && StandsAt(OrTokens(o), args, pos + 1) && Peek(args, close, ")")
      && NoBinaryAt(args, close) && !Peek(args, close, "-a") && !Peek(args, close, "-o")
      && pos + |PrimaryTokens(Group(o))| == close + 1
  {
    var inner := OrTokens(o);
    var close := pos + 1 + |inner|;
    assert PrimaryTokens(Group(o)) == ["("] + (inner + [")"]);
    StandsAtFirst("(", inner + [")"], args, pos);
    StandsAtSplit(inner, [")"], args, pos + 1);
    assert [")"] + [] == [")"];
    StandsAtFirst(")", [], args, close);
    JoinersAreNotBinary(args, close);
  }

  // ----- soundness: only derivable token lists get a value

  lemma Joined(a: seq<Token>, b: seq<Token>, args: seq<Token>, pos: nat)
    requires StandsAt(a, args, pos) && StandsAt(b, args, pos + |a|)
    ensures StandsAt(a + b, args, pos)
  {
    assert args[pos..pos + |a| + |b|] == args[pos..pos + |a|] + args[pos + |a|..pos + |a| + |b|];
  }

  lemma JoinedBy(a: seq<Token>, token: Token, b: seq<Token>, args: seq<Token>, pos: nat)
    requires StandsAt(a, args, pos) && Peek(args, pos + |a|, token) && StandsAt(b, args, pos + |a| + 1)
    ensures StandsAt(a + [token] + b, args, pos)
  {
    var mid := pos + |a|;
    assert args[mid..mid + 1] == [token];
    Joined(a, [token], args, pos);
    Joined(a + [token], b, args, pos);
  }

  /** One more operand: the tokens of the larger tree stand there, and the loop goes on from it. */
  lemma OrGoesOn(w: World, args: seq<Token>, start: nat, left: Or, a: And)
    requires OrValid(left) && StandsAt(OrTokens(left), args, start) && OrValue(w, left).Ok? && AndValid(a)
    requires Peek(args, start + |OrTokens(left)|, "-o")
    requires StandsAt(AndTokens(a), args, start + |OrTokens(left)| + 1)
    requires ParseAnd(w, args, start + |OrTokens(left)| + 1)
             == From(AndValue(w, a), start + |OrTokens(left)| + 1 + |AndTokens(a)|)
    ensures var t := OrMore(left, a);
      && OrValid(t) && StandsAt(OrTokens(t), args, start)
      && |OrTokens(t)| == |OrTokens(left)| + 1 + |AndTokens(a)|
      && OrLoopFrom(w, args, OrValue(w, left), start + |OrTokens(left)|)
         == OrLoopFrom(w, args, OrValue(w, t), start + |OrTokens(t)|)
      && (OrLoopFrom(w, args, OrValue(w, left), start + |OrTokens(left)|).At? ==> OrValue(w, t).Ok?)
  {
    var pos := start + |OrTokens(left)|;
    OrMoreStandsThere(args, start, left, a);
    OrLoopStep(w, args, OrValue(w, left), AndValue(w, a), pos, pos + 1 + |AndTokens(a)|);
  }

  lemma OrMoreStandsThere(args: seq<Token>, start: nat, left: Or, a: And)
    requires StandsAt(OrTokens(left), args, start) && Peek(args, start + |OrTokens(left)|, "-o")
    requires StandsAt(AndTokens(a), args, start + |OrTokens(left)| + 1)
    ensures StandsAt(OrTokens(OrMore(left, a)), args, start)
    ensures |OrTokens(OrMore(left, a))| == |OrTokens(left)| + 1 + |AndTokens(a)|
  {
    JoinedBy(OrTokens(left), "-o", AndTokens(a), args, start);
  }

  lemma AndGoesOn(w: World, args: seq<Token>, start: nat, left: And, n: Not)
    requires AndValid(left) && StandsAt(AndTokens(left), args, start) && AndValue(w, left).Ok? && NotValid(n)
    requires Peek(args, start + |AndTokens(left)|, "-a")
    requires StandsAt(NotTokens(n), args, start + |AndTokens(left)| + 1)
    requires ParseNot(w, args, start + |AndTokens(left)| + 1)
             == From(NotValue(w, n), start + |AndTokens(left)| + 1 + |NotTokens(n)|)
    ensures var t := AndMore(left, n);
      && AndValid(t) && StandsAt(AndTokens(t), args, start)
      && |AndTokens(t)| == |AndTokens(left)| + 1 + |NotTokens(n)|
      && AndLoopFrom(w, args, AndValue(w, left), start + |AndTokens(left)|)
         == AndLoopFrom(w, args, AndValue(w, t), start + |AndTokens(t)|)
      && (AndLoopFrom(w, args, AndValue(w, left), start + |AndTokens(left)|).At? ==> AndValue(w, t).Ok?)
  {
    var pos := start + |AndTokens(left)|;
    AndMoreStandsThere(args, start, left, n);
    AndLoopStep(w, args, AndValue(w, left), NotValue(w, n), pos, pos + 1 + |NotTokens(n)|);
  }

  lemma AndMoreStandsThere(args: seq<Token>, start: nat, left: And, n: Not)
    requires StandsAt(AndTokens(left), args, start) && Peek(args, start + |AndTokens(left)|, "-a")
    requires StandsAt(NotTokens(n), args, start + |AndTokens(left)| + 1)
    ensures StandsAt(AndTokens(AndMore(left, n)), args, start)
    ensures |AndTokens(AndMore(left, n))| == |AndTokens(left)| + 1 + |NotTokens(n)|
  {
    JoinedBy(AndTokens(left), "-a", NotTokens(n), args, start);
  }

  lemma OrLoopNeedsAnd(w: World, args: seq<Token>, v: Value, pos: nat)
    requires pos <= |args| && OrLoopFrom(w, args, v, pos).At? && Peek(args, pos, "-o")
    ensures ParseAnd(w, args, pos + 1).At?
  {
  }

  lemma AndLoopNeedsNot(w: World, args: seq<Token>, v: Value, pos: nat)
    requires pos <= |args| && AndLoopFrom(w, args, v, pos).At? && Peek(args, pos, "-a")
    ensures ParseNot(w, args, pos + 1).At?
  {
  }

  lemma {:induction false} OrSound(w: World, args: seq<Token>, pos: nat) returns (t: Or)
    requires pos <= |args| && ParseOr(w, args, pos).At?
    ensures OrValid(t) && StandsAt(OrTokens(t), args, pos)
    ensures ParseOr(w, args, pos) == From(OrValue(w, t), pos + |OrTokens(t)|)
    decreases |args| - pos, 3
  {
    var a := AndSound(w, args, pos);
    t := OrLoopSound(w, args, pos, OneAnd(a), ParseOr(w, args, pos));
  }

  /** The loop goes on from a tree that ends where it stands, and ends with `p`. */
  lemma {:induction false} OrLoopSound(w: World, args: seq<Token>, start: nat, left: Or, p: Parsed) returns (t: Or)
    requires OrValid(left) && StandsAt(OrTokens(left), args, start) && OrValue(w, left).Ok?
    requires p.At? && p == OrLoopFrom(w, args, OrValue(w, left), start + |OrTokens(left)|)
    ensures OrValid(t) && StandsAt(OrTokens(t), args, start)
    ensures p == From(OrValue(w, t), start + |OrTokens(t)|)
    decreases |args| - (start + |OrTokens(left)|), 0
  {
    var pos := start + |OrTokens(left)|;
    if Peek(args, pos, "-o") {
      var more := OrNext(w, args, start, left, p);
      t := OrLoopSound(w, args, start, more, p);
    } else {
      OrLoopEnds(w, args, OrValue(w, left), pos);
      t := left;
    }
  }

  /** The tree with the next operand. */
  lemma {:induction false} OrNext(w: World, args: seq<Token>, start: nat, left: Or, p: Parsed) returns (more: Or)
    requires OrValid(left) && StandsAt(OrTokens(left), args, start) && OrValue(w, left).Ok?
    requires p.At? && p == OrLoopFrom(w, args, OrValue(w, left), start + |OrTokens(left)|)
    requires Peek(args, start + |OrTokens(left)|, "-o")
    ensures OrValid(more) && StandsAt(OrTokens(more), args, start) && OrValue(w, more).Ok?
    ensures p == OrLoopFrom(w, args, OrValue(w, more), start + |OrTokens(more)|)
    ensures |OrTokens(more)| > |OrTokens(left)|
    decreases |args| - (start + |OrTokens(left)|) - 1, 4
  {
    var pos := start + |OrTokens(left)|;
    OrLoopNeedsAnd(w, args, OrValue(w, left), pos);
    var a := AndSound(w, args, pos + 1);
    OrGoesOn(w, args, start, left, a);
    more := OrMore(left, a);
  }

  lemma {:induction false} AndSound(w: World, args: seq<Token>, pos: nat) returns (t: And)
    requires pos <= |args| && ParseAnd(w, args, pos).At?
    ensures AndValid(t) && StandsAt(AndTokens(t), args, pos)
    ensures ParseAnd(w, args, pos) == From(AndValue(w, t), pos + |AndTokens(t)|)
    decreases |args| - pos, 2
  {
    var n := NotSound(w, args, pos);
    t := AndLoopSound(w, args, pos, OneNot(n), ParseAnd(w, args, pos));
  }

  lemma {:induction false} AndLoopSound(w: World, args: seq<Token>, start: nat, left: And, p: Parsed) returns (t: And)
    requires AndValid(left) && StandsAt(AndTokens(left), args, start) && AndValue(w, left).Ok?
    requires p.At? && p == AndLoopFrom(w, args, AndValue(w, left), start + |AndTokens(left)|)
    ensures AndValid(t) && StandsAt(AndTokens(t), args, start)
    ensures p == From(AndValue(w, t), start + |AndTokens(t)|)
    decreases |args| - (start + |AndTokens(left)|), 0
  {
    var pos := start + |AndTokens(left)|;
    if Peek(args, pos, "-a") {
      var more := AndNext(w, args, start, left, p);
      t := AndLoopSound(w, args, start, more, p);
    } else {
      AndLoopEnds(w, args, AndValue(w, left), pos);
      t := left;
    }
  }

  lemma {:induction false} AndNext(w: World, args: seq<Token>, start: nat, left: And, p: Parsed) returns (more: And)
    requires AndValid(left) && StandsAt(AndTokens(left), args, start) && AndValue(w, left).Ok?
    requires p.At? && p == AndLoopFrom(w, args, AndValue(w, left), start + |AndTokens(left)|)
    requires Peek(args, start + |AndTokens(left)|, "-a")
    ensures AndValid(more) && StandsAt(AndTokens(more), args, start) && AndValue(w, more).Ok?
    ensures p == AndLoopFrom(w, args, AndValue(w, more), start + |AndTokens(more)|)
    ensures |AndTokens(more)| > |AndTokens(left)|
    decreases |args| - (start + |AndTokens(left)|) - 1, 4
  {
    var pos := start + |AndTokens(left)|;
    AndLoopNeedsNot(w, args, AndValue(w, left), pos);
    var n := NotSound(w, args, pos + 1);
    AndGoesOn(w, args, start, left, n);
    more := AndMore(left, n);
  }

  lemma {:induction false} NotSound(w: World, args: seq<Token>, pos: nat) returns (t: Not)
    requires pos <= |args| && ParseNot(w, args, pos).At?
    ensures NotValid(t) && StandsAt(NotTokens(t), args, pos)
    ensures ParseNot(w, args, pos) == From(NotValue(w, t), pos + |NotTokens(t)|)
    decreases |args| - pos, 1
  {
    if Peek(args, pos, "!") {
      var n := NotSound(w, args, pos + 1);
      Joined(["!"], NotTokens(n), args, pos);
      t := Bang(n);
    } else {
      var p := PrimarySound(w, args, pos);
      t := Plain(p);
    }
  }

  lemma {:induction false} PrimarySound(w: World, args: seq<Token>, pos: nat) returns (t: Primary)
    requires pos <= |args| && ParsePrimary(w, args, pos).At? && !Peek(args, pos, "!")
    ensures PrimaryValid(t) && StandsAt(PrimaryTokens(t), args, pos)
    ensures ParsePrimary(w, args, pos) == From(PrimaryValue(w, t), pos + |PrimaryTokens(t)|)
    decreases |args| - pos, 0
  {
    if Peek(args, pos, "(") {
      var o := OrSound(w, args, pos + 1);
      t := Group(o);
      Joined(["("], OrTokens(o), args, pos);
      Joined(["("] + OrTokens(o), [")"], args, pos);
    } else if IsUnaryOp(args[pos]) {
      t := UnaryTest(args[pos], args[pos + 1]);
      assert args[pos..pos + 2] == [args[pos], args[pos + 1]];
    } else if pos + 1 < |args| && IsBinaryOp(args[pos + 1]) {
      t := BinaryTest(args[pos], args[pos + 1], args[pos + 2]);
      assert args[pos..pos + 3] == [args[pos], args[pos + 1], args[pos + 2]];
    } else {
      t := Word(args[pos]);
      assert args[pos..pos + 1] == [args[pos]];
    }
  }

  // ----- eval and the grammar

  /** The evaluation of the tokens of any tree is the value of the tree. */
  lemma EvalComplete(w: World, t: Or)
    requires OrValid(t)
    ensures Eval(w, OrTokens(t)) == OrValue(w, t)
  {
    var args := OrTokens(t);
    assert args[0..|args|] == args;
    OrComplete(w, t, args, 0);
  }

  /** A value only ever comes from a derivation of all the arguments, and is its value. */
  lemma EvalSound(w: World, args: seq<Token>) returns (t: Or)
    requires args != [] && Eval(w, args).Ok?
    ensures OrValid(t) && OrTokens(t) == args && Eval(w, args) == OrValue(w, t)
  {
    t := OrSound(w, args, 0);
    assert args[0..|args|] == args;
  }

  /** So `eval` gives a value exactly to the derivable token lists whose tree has one. */
  lemma EvalOkIffDerivable(w: World, args: seq<Token>, v: bool)
    requires args != []
    ensures Eval(w, args) == Ok(v) <==> exists t :: OrValid(t) && OrTokens(t) == args && OrValue(w, t) == Ok(v)
  {
    if Eval(w, args) == Ok(v) {
      var t := EvalSound(w, args);
      assert OrValid(t) && OrTokens(t) == args && OrValue(w, t) == Ok(v);
    }
    forall t | OrValid(t) && OrTokens(t) == args && OrValue(w, t) == Ok(v) ensures Eval(w, args) == Ok(v) {
      EvalComplete(w, t);
    }
  }

  // ----- expressions printed with the parentheses that precedence asks for

  datatype Expr =
    | Either(l: Expr, r: Expr)
    | Both(l: Expr, r: Expr)
    | Opposite(e: Expr)
    | Atom(p: Primary)

  predicate AtomsValid(e: Expr) {
    match e
    case Either(l, r) => AtomsValid(l) && AtomsValid(r)
    case Both(l, r) => AtomsValid(l) && AtomsValid(r)
    case Opposite(x) => AtomsValid(x)
    case Atom(p) => !p.Group? && PrimaryValid(p)
  }

  function ExprValue(w: World, e: Expr): Value {
    match e
    case Either(l, r) => OrElse(ExprValue(w, l), ExprValue(w, r))
    case Both(l, r) => AndAlso(ExprValue(w, l), ExprValue(w, r))
    case Opposite(x) => Negate(ExprValue(w, x))
    case Atom(p) => PrimaryValue(w, p)
  }

  /** How many levels down the grammar lies the one that fits the expression. */
  function Below(e: Expr, level: nat): nat {
    (level + match e case Atom(_) => 0 case Opposite(_) => 3 case Both(_, _) => 2 case Either(_, _) => 1) % 4
  }

  function AsOr(e: Expr): Or
    decreases e, Below(e, 3)
  {
    match e
    case Either(l, r) => OrMore(AsOr(l), AsAnd(r))
    case _ => OneAnd(AsAnd(e))
  }

  function AsAnd(e: Expr): And
    decreases e, Below(e, 2)
  {
    match e
    case Both(l, r) => AndMore(AsAnd(l), AsNot(r))
    case _ => OneNot(AsNot(e))
  }

  function AsNot(e: Expr): Not
    decreases e, Below(e, 1)
  {
    match e
    case Opposite(x) => Bang(AsNot(x))
    case _ => Plain(AsPrimary(e))
  }

  function AsPrimary(e: Expr): Primary
    decreases e, Below(e, 0)
  {
    match e
    case Atom(p) => p
    case _ => Group(AsOr(e))
  }

  lemma {:induction false} AsOrMeans(w: World, e: Expr)
    requires AtomsValid(e)
    ensures OrValid(AsOr(e)) && OrValue(w, AsOr(e)) == ExprValue(w, e)
    decreases e, Below(e, 3)
  {
    match e
    case Either(l, r) => AsOrMeans(w, l); AsAndMeans(w, r);
    case _ => AsAndMeans(w, e);
  }

  lemma {:induction false} AsAndMeans(w: World, e: Expr)
    requires AtomsValid(e)
    ensures AndValid(AsAnd(e)) && AndValue(w, AsAnd(e)) == ExprValue(w, e)
    decreases e, Below(e, 2)
  {
    match e
    case Both(l, r) => AsAndMeans(w, l); AsNotMeans(w, r);
    case _ => AsNotMeans(w, e);
  }

  lemma {:induction false} AsNotMeans(w: World, e: Expr)
    requires AtomsValid(e)
    ensures NotValid(AsNot(e)) && NotValue(w, AsNot(e)) == ExprValue(w, e)
    decreases e, Below(e, 1)
  {
    match e
    case Opposite(x) => AsNotMeans(w, x);
    case _ => AsPrimaryMeans(w, e);
  }

  lemma {:induction false} AsPrimaryMeans(w: World, e: Expr)
    requires AtomsValid(e)
    ensures PrimaryValid(AsPrimary(e)) && PrimaryValue(w, AsPrimary(e)) == ExprValue(w, e)
    decreases e, Below(e, 0)
  {
    match e
    case Atom(p) =>
    case _ => AsOrMeans(w, e);
  }

  /** Printing an expression and evaluating the tokens gives the expression's value, first error
      from the left included. */
  lemma PrintedEvaluates(w: World, e: Expr)
    requires AtomsValid(e)
    ensures Eval(w, OrTokens(AsOr(e))) == ExprValue(w, e)
  {
    AsOrMeans(w, e);
    EvalComplete(w, AsOr(e));
  }

  // ----- the parser as the program has it

  class Parser {
    const args: seq<Token>
    const w: World
    var pos: nat

    constructor (w: World, args: seq<Token>)
      ensures this.w == w && this.args == args && pos == 0
    {
      this.w, this.args, pos := w, args, 0;
    }

    /** The outcome of a method is what the function gives at the position it started from. */
    ghost predicate Agrees(r: Value, p: Parsed)
      reads this
    {
      r == (match p case At(v, _) => Ok(v) case Failed(e) => Err(e)) && (p.At? ==> pos == p.pos)
    }

    method Next() returns (token: Option<Token>)
      requires pos <= |args|
      modifies this
      ensures pos <= |args|
      ensures token == if old(pos) < |args| then Some(args[old(pos)]) else None
      ensures pos == if token.Some? then old(pos) + 1 else old(pos)
    {
      if pos < |args| {
        token := Some(args[pos]);
        pos := pos + 1;
      } else {
        token := None;
      }
    }

    method DoOr() returns (r: Value)
      requires pos <= |args|
      modifies this
      ensures old(pos) <= pos <= |args| && Agrees(r, ParseOr(w, args, old(pos)))
      decreases |args| - pos, 3
    {
      r := DoAnd();
      while r.Ok? && Peek(args, pos, "-o")
        invariant old(pos) <= pos <= |args|
        invariant r.Ok? ==> pos > old(pos)
        invariant if r.Ok? then OrLoop(w, args, r.value, pos) == ParseOr(w, args, old(pos))
                  else Agrees(r, ParseOr(w, args, old(pos)))
        decreases r.Ok?, |args| - pos
      {
        var _ := Next();
        var right := DoAnd();
        r := OrElse(r, right);
      }
    }

    method DoAnd() returns (r: Value)
      requires pos <= |args|
      modifies this
      ensures old(pos) <= pos <= |args| && Agrees(r, ParseAnd(w, args, old(pos)))
      decreases |args| - pos, 2
    {
      r := DoNot();
      while r.Ok? && Peek(args, pos, "-a")
        invariant old(pos) <= pos <= |args|
        invariant r.Ok? ==> pos > old(pos)
        invariant if r.Ok? then AndLoop(w, args, r.value, pos) == ParseAnd(w, args, old(pos))
                  else Agrees(r, ParseAnd(w, args, old(pos)))
        decreases r.Ok?, |args| - pos
      {
        var _ := Next();
        var right := DoNot();
        r := AndAlso(r, right);
      }
    }

    method DoNot() returns (r: Value)
      requires pos <= |args|
      modifies this
      ensures old(pos) <= pos <= |args| && Agrees(r, ParseNot(w, args, old(pos)))
      decreases |args| - pos, 1
    {
      if Peek(args, pos, "!") {
        var _ := Next();
        r := DoNot();
        r := Negate(r);
      } else {
        r := DoPrimary();
      }
    }

    method DoPrimary() returns (r: Value)
      requires pos <= |args|
      modifies this
      ensures old(pos) <= pos <= |args| && Agrees(r, ParsePrimary(w, args, old(pos)))
      decreases |args| - pos, 0
    {
      if Peek(args, pos, "(") {
        var _ := Next();
        r := DoOr();
        if r.Err? {
          return;
        }
        var close := Next();
        if close != Some(")") {
          r := Err(MissingParen);
        }
        return;
      }
      var first := Next();
      if first.None? {
        return Err(ArgumentExpected);
      }
      if IsUnaryOp(first.value) {
        var arg := Next();
        if arg.None? {
          return Err(OperandExpected(first.value));
        }
        return OrUnknown(Unary(w, first.value, arg.value), first.value);
      }
      if pos < |args| && IsBinaryOp(args[pos]) {
        var op := Next();
        var rhs := Next();
        if rhs.None? {
          return Err(OperandExpected(op.value));
        }
        return OrUnknown(Binary(w, op.value, first.value, rhs.value), op.value);
      }
      r := Ok(first.value != "");
    }
  }

  method EvalArgs(w: World, args: seq<Token>) returns (r: Value)
    ensures r == Eval(w, args)
  {
    if args == [] {
      return Ok(false);
    }
    var p := new Parser(w, args);
    r := p.DoOr();
    if r.Ok? && p.pos != |args| {
      r := Err(UnexpectedArgument(args[p.pos]));
    }
  }

  /** Operators that the parser recognizes are never unknown to the evaluation. */
  lemma OperatorsAreKnown(w: World, op: Token, a: Token, b: Token)
    ensures IsUnaryOp(op) <==> Unary(w, op, a).Some?
    ensures IsBinaryOp(op) <==> Binary(w, op, a, b).Some?
  {
  }

  // ----- what the operators mean

  lemma EvalLone(w: World, p: Primary)
    requires PrimaryValid(p)
    ensures Eval(w, PrimaryTokens(p)) == PrimaryValue(w, p)
  {
    var n := Plain(p);
    var a := OneNot(n);
    var t := OneAnd(a);
    assert NotValid(n) && NotTokens(n) == PrimaryTokens(p) && NotValue(w, n) == PrimaryValue(w, p);
    assert AndValid(a) && AndTokens(a) == NotTokens(n) && AndValue(w, a) == NotValue(w, n);
    EvalComplete(w, t);
  }

  lemma EvalUnary(w: World, op: Token, arg: Token)
    requires IsUnaryOp(op)
    ensures Eval(w, [op, arg]) == OrUnknown(Unary(w, op, arg), op)
  {
    EvalLone(w, UnaryTest(op, arg));
  }

  lemma EvalBinary(w: World, a: Token, op: Token, b: Token)
    requires PlainWord(a) && IsBinaryOp(op)
    ensures Eval(w, [a, op, b]) == OrUnknown(Binary(w, op, a, b), op)
  {
    EvalLone(w, BinaryTest(a, op, b));
  }

  /** A word alone is true unless it is empty; `-n` and `-z` ask for that. */
  lemma StringsTested(w: World, a: Token)
    ensures PlainWord(a) ==> Eval(w, [a]) == Ok(a != "")
    ensures Eval(w, ["-n", a]) == Ok(a != "") && Eval(w, ["-z", a]) == Ok(a == "")
    ensures Eval(w, []) == Ok(false)
  {
    if PlainWord(a) {
      EvalLone(w, Word(a));
    }
    EvalUnary(w, "-n", a);
    EvalUnary(w, "-z", a);
  }

  lemma StringsCompared(w: World, a: Token, b: Token)
    requires PlainWord(a)
    ensures Eval(w, [a, "=", b]) == Ok(a == b) && Eval(w, [a, "==", b]) == Ok(a == b)
    ensures Eval(w, [a, "!=", b]) == Ok(a != b)
  {
    EvalBinary(w, a, "=", b);
    EvalBinary(w, a, "==", b);
    EvalBinary(w, a, "!=", b);
  }

  /** The integer operators compare as their names say. */
  lemma NumbersCompared(w: World, a: Token, b: Token, x: int, y: int)
    requires PlainWord(a) && w.parseInt(a) == Some(x) && w.parseInt(b) == Some(y)
    ensures Eval(w, [a, "-eq", b]) == Ok(x == y) && Eval(w, [a, "-ne", b]) == Ok(x != y)
    ensures Eval(w, [a, "-lt", b]) == Ok(x < y) && Eval(w, [a, "-ge", b]) == Ok(x >= y)
    ensures Eval(w, [a, "-gt", b]) == Ok(x > y) && Eval(w, [a, "-le", b]) == Ok(x <= y)
  {
    EvalBinary(w, a, "-eq", b);
    EvalBinary(w, a, "-ne", b);
    EvalBinary(w, a, "-lt", b);
    EvalBinary(w, a, "-ge", b);
    EvalBinary(w, a, "-gt", b);
    EvalBinary(w, a, "-le", b);
  }

  /** They are an error, and not false, on what is no number. */
  lemma NoNumberIsError(w: World, a: Token, op: Token, b: Token)
    requires PlainWord(a) && op in {"-eq", "-ne", "-lt", "-le", "-gt", "-ge"}
    requires w.parseInt(a).None? || w.parseInt(b).None?
    ensures Eval(w, [a, op, b]) == Err(IntegerExpected(a, op))
  {
    EvalBinary(w, a, op, b);
  }

  /** `-nt` asks whether the first file is newer, `-ot` whether the second is, `-ef` whether they are
      one; a file test is asked of the operand, and a descriptor that is no number is an error. */
  lemma FilesTested(w: World, a: Token, b: Token)
    ensures PlainWord(a) ==>
      && Eval(w, [a, "-nt", b]) == Ok(w.newer(a, b)) && Eval(w, [a, "-ot", b]) == Ok(w.newer(b, a))
      && Eval(w, [a, "-ef", b]) == Ok(w.sameFile(a, b))
    ensures forall op :: op in {"-e", "-f", "-d", "-r", "-w", "-x", "-s", "-L", "-h", "-b", "-c", "-p", "-S"} ==>
      Eval(w, [op, a]) == Ok(w.fileTest(op, a))
    ensures Eval(w, ["-t", a]) == match w.isTty(a) case Some(v) => Ok(v) case None => Err(InvalidFd(a))
  {
    if PlainWord(a) {
      EvalBinary(w, a, "-nt", b);
      EvalBinary(w, a, "-ot", b);
      EvalBinary(w, a, "-ef", b);
    }
    forall op | op in {"-e", "-f", "-d", "-r", "-w", "-x", "-s", "-L", "-h", "-b", "-c", "-p", "-S"}
      ensures Eval(w, [op, a]) == Ok(w.fileTest(op, a))
    {
      EvalUnary(w, op, a);
    }
    EvalUnary(w, "-t", a);
  }

  // ----- what is no expression

  /** Each incomplete expression has its own error: an operator without its operand, a negation of
      nothing, a group without its end, and an argument too many. */
  lemma ErrorsTold(w: World, a: Token, b: Token, op: Token)
    requires PlainWord(a)
    ensures IsUnaryOp(op) ==> Eval(w, [op]) == Err(OperandExpected(op))
    ensures IsBinaryOp(op) ==> Eval(w, [a, op]) == Err(OperandExpected(op))
    ensures Eval(w, ["!"]) == Err(ArgumentExpected)
    ensures Eval(w, ["(", a]) == Err(MissingParen)
    ensures !IsBinaryOp(b) && b != "-a" && b != "-o" ==> Eval(w, [a, b]) == Err(UnexpectedArgument(b))
  {
    if IsUnaryOp(op) { FailsAtOnce(w, [op], OperandExpected(op)); }
    if IsBinaryOp(op) { FailsAtOnce(w, [a, op], OperandExpected(op)); }
    BangAlone(w);
    OpenGroup(w, a);
    if !IsBinaryOp(b) && b != "-a" && b != "-o" { OneTooMany(w, a, b); }
  }

  lemma FailsAtOnce(w: World, args: seq<Token>, e: Error)
    requires args != [] && args[0] != "!" && ParsePrimary(w, args, 0) == Failed(e)
    ensures Eval(w, args) == Err(e)
  {
    assert ParseNot(w, args, 0) == Failed(e);
    assert ParseAnd(w, args, 0) == Failed(e);
    assert ParseOr(w, args, 0) == Failed(e);
  }

  lemma BangAlone(w: World)
    ensures Eval(w, ["!"]) == Err(ArgumentExpected)
  {
    var args := ["!"];
    assert ParsePrimary(w, args, 1) == Failed(ArgumentExpected);
    assert ParseNot(w, args, 1) == Failed(ArgumentExpected);
    assert ParseNot(w, args, 0) == Failed(ArgumentExpected);
    assert ParseAnd(w, args, 0) == Failed(ArgumentExpected);
    assert ParseOr(w, args, 0) == Failed(ArgumentExpected);
  }

  lemma WordParsed(w: World, args: seq<Token>, pos: nat)
    requires pos < |args| && PlainWord(args[pos])
    requires pos + 1 < |args| ==> !IsBinaryOp(args[pos + 1]) && args[pos + 1] != "-a" && args[pos + 1] != "-o"
    ensures ParseOr(w, args, pos) == At(args[pos] != "", pos + 1)
  {
    var v: Value := Ok(args[pos] != "");
    assert ParsePrimary(w, args, pos) == From(v, pos + 1);
    assert ParseNot(w, args, pos) == From(v, pos + 1);
    AndStarts(w, args, v, pos, pos + 1);
    AndLoopEnds(w, args, v, pos + 1);
    OrStarts(w, args, v, pos, pos + 1);
    OrLoopEnds(w, args, v, pos + 1);
  }

  lemma OpenGroup(w: World, a: Token)
    requires PlainWord(a)
    ensures Eval(w, ["(", a]) == Err(MissingParen)
  {
    WordParsed(w, ["(", a], 1);
    FailsAtOnce(w, ["(", a], MissingParen);
  }

  lemma OneTooMany(w: World, a: Token, b: Token)
    requires PlainWord(a) && !IsBinaryOp(b) && b != "-a" && b != "-o"
    ensures Eval(w, [a, b]) == Err(UnexpectedArgument(b))
  {
    WordParsed(w, [a, b], 0);
  }
}
