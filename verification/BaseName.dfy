/**
Base names of demangled functions (include/frameReconcile.h): the two scans over the text, what they promise
for any text, and a printer of demangled names that they undo.
*/
module BaseName {
  import opened Common

  const KEYWORD: string := "operator"
  const CALL: string := "()"
  const SCOPE: string := "::"

  /** `x` stands at `i` in `name`. */
  predicate At(name: string, i: nat, x: string) {
    && i + |x| <= |name|
    && (x != "" ==> name[i] == x[0])
    && forall k {:trigger x[k]} | 0 <= k < |x| :: name[i + k] == x[k]
  }

  // ---------- what the loops compute ----------

  /** The index of the bracket that brings `depth` open ones down to none, from `i` on. */
  function MatchFrom(name: string, i: nat, depth: int, open: char, close: char): (r: Option<nat>)
    ensures r.Some? ==> i <= r.value < |name| && name[r.value] == close
    decreases |name| - i
  {
    if i >= |name| then None
    else if name[i] == open then MatchFrom(name, i + 1, depth + 1, open, close)
    else if name[i] == close then (if depth == 1 then Some(i) else MatchFrom(name, i + 1, depth - 1, open, close))
    else MatchFrom(name, i + 1, depth, open, close)
  }

  /** The keyword of an operator name, at the start of a component. */
  predicate KeywordAt(name: string, i: nat) {
    At(name, i, KEYWORD) && (i == 0 || name[i - 1] == ':' || name[i - 1] == ' ')
  }

  function SeekParen(name: string, i: nat): (r: nat)
    requires i <= |name|
    ensures i <= r <= |name| && (r < |name| ==> name[r] == '(') && (forall k | i <= k < r :: name[k] != '(')
    decreases |name| - i
  {
    if i < |name| && name[i] != '(' then SeekParen(name, i + 1) else i
  }

  /** Where an operator's own symbol, whose keyword stands at `i`, ends. */
  function OperatorEnd(name: string, i: nat): (r: nat)
    requires At(name, i, KEYWORD)
    ensures i + |KEYWORD| <= r <= |name|
  {
    var after := i + |KEYWORD|;
    SeekParen(name, if At(name, after, CALL) then after + |CALL| else after)
  }

  /** Where the first scan cuts the name. */
  function CutAt(name: string, i: nat, depth: int): (r: nat)
    ensures r <= |name|
    decreases |name| - i
  {
    if i >= |name| then |name|
    else if name[i] == '{' then
      match MatchFrom(name, i, 0, '{', '}')
      case None => |name|
      case Some(close) => CutAt(name, close + 1, depth)
    else if KeywordAt(name, i) then OperatorEnd(name, i)
    else if name[i] == '<' then CutAt(name, i + 1, depth + 1)
    else if name[i] == '>' then CutAt(name, i + 1, depth - 1)
    else if name[i] == '(' && depth == 0 then
      match MatchFrom(name, i, 0, '(', ')')
      case None => i
      case Some(close) => if At(name, close + 1, SCOPE) then CutAt(name, close + 2, depth) else i
    else CutAt(name, i + 1, depth)
  }

  /** Where the second scan sees the last component start. */
  function LastScope(name: string, i: nat, depth: int, last: nat): (r: nat)
    requires last <= |name|
    ensures r <= |name|
    decreases |name| - i
  {
    if i + 1 >= |name| then last
    else if name[i] == '{' then
      match MatchFrom(name, i, 0, '{', '}')
      case None => last
      case Some(close) => LastScope(name, close + 1, depth, last)
    else if name[i] == '<' then LastScope(name, i + 1, depth + 1, last)
    else if name[i] == '>' then LastScope(name, i + 1, depth - 1, last)
    else if name[i] == ':' && name[i + 1] == ':' && depth == 0 then LastScope(name, i + 1, depth, i + 2)
    else LastScope(name, i + 1, depth, last)
  }

  /** `name` from its last component on. */
  function Unscoped(name: string): string {
    name[LastScope(name, 0, 0, 0)..]
  }

  function Base(name: string): string {
    Unscoped(name[..CutAt(name, 0, 0)])
  }

  // ---------- the loops ----------

  method MatchingBracket(name: string, open: nat, openChar: char, closeChar: char) returns (r: Option<nat>)
    ensures r == MatchFrom(name, open, 0, openChar, closeChar)
  {
    var depth := 0;
    var i := open;
    while i < |name|
      invariant MatchFrom(name, open, 0, openChar, closeChar) == MatchFrom(name, i, depth, openChar, closeChar)
      decreases |name| - i
    {
      if name[i] == openChar {
        depth := depth + 1;
      } else if name[i] == closeChar {
        depth := depth - 1;
        if depth == 0 {
          return Some(i);
        }
      }
      i := i + 1;
    }
    return None;
  }

  /** The operator branch of the first loop. */
  method SkipOperator(name: string, keyword: nat) returns (i: nat)
    requires At(name, keyword, KEYWORD)
    ensures i == OperatorEnd(name, keyword)
  {
    i := keyword + |KEYWORD|;
    if At(name, i, CALL) {
      i := i + |CALL|;
    }
    while i < |name| && name[i] != '('
      invariant i <= |name| && SeekParen(name, i) == OperatorEnd(name, keyword)
    {
      i := i + 1;
    }
  }

  method Cut(name: string) returns (cut: nat)
    ensures cut == CutAt(name, 0, 0)
  {
    var i, depth := 0, 0;
    while i < |name|
      invariant CutAt(name, 0, 0) == CutAt(name, i, depth)
      decreases |name| - i
    {
      var c := name[i];
      if c == '{' {
        var close := MatchingBracket(name, i, '{', '}');
        if close == None {
          return |name|;
        }
        i := close.value + 1;
        continue;
      }
      if KeywordAt(name, i) {
        cut := SkipOperator(name, i);
        return;
      }
      if c == '<' {
        depth := depth + 1;
      } else if c == '>' {
        depth := depth - 1;
      } else if c == '(' && depth == 0 {
        var close := MatchingBracket(name, i, '(', ')');
        if close == None || !At(name, close.value + 1, SCOPE) {
          return i;
        }
        i := close.value + 1;
      }
      i := i + 1;
    }
    return |name|;
  }

  /**
  function_base_name(): it ends on every text, and the result is a piece of it: the part before the cut, from
  the last component on.
  */
  method FunctionBaseName(name: string) returns (base: string)
    ensures base == Base(name)
    ensures exists a, b :: 0 <= a <= b <= |name| && base == name[a..b]
  {
    var cut := Cut(name);
    var kept := name[..cut];
    var i, depth, lastScope := 0, 0, 0;
    while i + 1 < |kept|
      invariant lastScope <= |kept|
      invariant LastScope(kept, 0, 0, 0) == LastScope(kept, i, depth, lastScope)
      decreases |kept| - i
    {
      var c := kept[i];
      if c == '{' {
        var close := MatchingBracket(kept, i, '{', '}');
        if close == None {
          break;
        }
        i := close.value + 1;
        continue;
      }
      if c == '<' {
        depth := depth + 1;
      } else if c == '>' {
        depth := depth - 1;
      } else if c == ':' && kept[i + 1] == ':' && depth == 0 {
        lastScope := i + 2;
      }
      i := i + 1;
    }
    base := kept[lastScope..];
    assert base == name[lastScope..cut];
  }

  // ---------- a printer of demangled names ----------

  /** Text whose angle brackets nest and whose brace blocks are closed: template arguments, parameters, types. */
  datatype Text =
    | Done
    | Letter(c: char, rest: Text)
    | Angles(inner: Text, rest: Text)
    | Braces(block: string, rest: Text)
    | Parens(inner: Text, rest: Text)

  /** A component's own name: an identifier, perhaps with template arguments, or an operator and its symbol. */
  datatype Symbol =
    | Plain(id: string, args: Option<Text>)
    | Operator(symbol: string)

  /** A function: its parameters (none for a name printed without them) and what follows them (" const"). */
  datatype Function = Function(symbol: Symbol, params: Option<Text>, quals: string)

  /** What may stand before "::". */
  datatype Scope =
    | Space(id: string, args: Option<Text>)  // a namespace or a class
    | Group(text: Text)                      // "(anonymous namespace)"
    | Block(block: string)                   // "{lambda(int)#1}"
    | Enclosing(f: Function)                 // "host(int)", the function around a local entity

  /** `result` is the return type printed before a template function. */
  datatype Name = Name(result: Option<Text>, scopes: seq<Scope>, f: Function)

  function PrintText(t: Text): string {
    match t
    case Done => ""
    case Letter(c, rest) => [c] + PrintText(rest)
    case Angles(inner, rest) => "<" + PrintText(inner) + ">" + PrintText(rest)
    case Braces(block, rest) => "{" + block + "}" + PrintText(rest)
    case Parens(inner, rest) => "(" + PrintText(inner) + ")" + PrintText(rest)
  }

  function PrintArgs(args: Option<Text>): string {
    match args case None => "" case Some(t) => "<" + PrintText(t) + ">"
  }

  function PrintSymbol(s: Symbol): string {
    match s
    case Plain(id, args) => id + PrintArgs(args)
    case Operator(symbol) => KEYWORD + symbol
  }

  function PrintParams(params: Option<Text>): string {
    match params case None => "" case Some(t) => "(" + PrintText(t) + ")"
  }

  function PrintFunction(f: Function): string {
    PrintSymbol(f.symbol) + PrintParams(f.params) + f.quals
  }

  function PrintScope(s: Scope): string {
    match s
    case Space(id, args) => id + PrintArgs(args)
    case Group(text) => "(" + PrintText(text) + ")"
    case Block(block) => "{" + block + "}"
    case Enclosing(f) => PrintFunction(f)
  }

  function PrintScopes(scopes: seq<Scope>): string {
    if scopes == [] then "" else PrintScope(scopes[0]) + SCOPE + PrintScopes(scopes[1..])
  }

  function PrintResult(result: Option<Text>): string {
    match result case None => "" case Some(t) => PrintText(t) + " "
  }

  function Print(n: Name): string {
    PrintResult(n.result) + PrintScopes(n.scopes) + PrintFunction(n.f)
  }

  // ---------- the grammar's own conditions ----------

  /** Brackets in `x` nest, from `depth` open ones down to none. */
  predicate Nests(x: string, open: char, close: char, depth: nat) {
    if x == "" then depth == 0
    else if x[0] == open then Nests(x[1..], open, close, depth + 1)
    else if x[0] == close then depth > 0 && Nests(x[1..], open, close, depth - 1)
    else Nests(x[1..], open, close, depth)
  }

  predicate TextOk(t: Text) {
    match t
    case Done => true
    case Letter(c, rest) => !Bracket(c) && TextOk(rest)
    case Angles(inner, rest) => TextOk(inner) && TextOk(rest)
    case Braces(block, rest) => Nests(block, '{', '}', 0) && TextOk(rest)
    case Parens(inner, rest) => TextOk(inner) && TextOk(rest)
  }

  /** Outside angle brackets and brace blocks every opening parenthesis is written as a pair. */
  predicate Grouped(t: Text) {
    match t
    case Done => true
    case Letter(c, rest) => c != '(' && Grouped(rest)
    case Angles(_, rest) => Grouped(rest)
    case Braces(_, rest) => Grouped(rest)
    case Parens(inner, rest) => Nests(PrintText(inner), '(', ')', 0) && Grouped(rest)
  }

  /** The keyword's letters never start a component of `x`, which `before` precedes. */
  predicate NoKeyword(x: string, before: char) {
    forall i | 0 <= i < |x| && At(x, i, KEYWORD) :: var p := if i == 0 then before else x[i - 1]; p != ':' && p != ' '
  }

  predicate Bracket(c: char) { c == '<' || c == '>' || c == '{' || c == '}' }

  predicate IdChar(c: char) { !Bracket(c) && c != '(' && c != ')' && c != ':' && c != ' ' }

  /** An identifier; one that begins with the keyword's letters is not told from an operator. */
  predicate IdOk(id: string) {
    id != "" && (forall k | 0 <= k < |id| :: IdChar(id[k])) && !At(id, 0, KEYWORD)
  }

  predicate ArgsOk(args: Option<Text>) {
    args.Some? ==> TextOk(args.value) && NoKeyword(PrintText(args.value), '<')
  }

  predicate ParamsOk(params: Option<Text>) {
    params.Some? ==> TextOk(params.value) && Nests(PrintText(params.value), '(', ')', 0)
  }

  predicate SymbolOk(s: Symbol) {
    match s
    case Plain(id, args) => IdOk(id) && ArgsOk(args)
    case Operator(symbol) => symbol != "" && (symbol[0] == '(' ==> At(symbol, 0, CALL))
  }

  predicate FunctionOk(f: Function) {
    && SymbolOk(f.symbol) && ParamsOk(f.params)
    && (f.params == None ==> f.quals == "")
    && (f.quals != "" ==> f.quals[0] != ':')
  }

  predicate ScopeOk(s: Scope) {
    match s
    case Space(id, args) => IdOk(id) && ArgsOk(args)
    case Group(text) => TextOk(text) && Nests(PrintText(text), '(', ')', 0)
    case Block(block) => Nests(block, '{', '}', 0)
    case Enclosing(f) => FunctionOk(f) && f.params.Some?
  }

  predicate ResultOk(result: Option<Text>) {
    result.Some? ==> TextOk(result.value) && NoKeyword(PrintText(result.value), ' ') && Grouped(result.value)
  }

  predicate NameOk(n: Name) {
    ResultOk(n.result) && (forall s | s in n.scopes :: ScopeOk(s)) && FunctionOk(n.f)
  }

  // ---------- where the first scan stops ----------

  /** `front` before what is already kept. */
  function Joined(front: string, kept: Option<string>): Option<string> {
    match kept case None => None case Some(s) => Some(front + s)
  }

  /**
  Where the first scan stops inside a return type: at a parenthesis outside angle brackets and brace blocks whose
  closing one has no "::" behind it. The text in front of it, if there is one.
  */
  function StopIn(t: Text): Option<string> {
    match t
    case Done => None
    case Letter(c, rest) => Joined([c], StopIn(rest))
    case Angles(inner, rest) => Joined("<" + PrintText(inner) + ">", StopIn(rest))
    case Braces(block, rest) => Joined("{" + block + "}", StopIn(rest))
    case Parens(inner, rest) =>
      if At(PrintText(rest), 0, SCOPE) then Joined("(" + PrintText(inner) + ")", StopIn(rest)) else Some("")
  }

  function StopInResult(n: Name): Option<string> {
    match n.result case None => None case Some(t) => StopIn(t)
  }

  predicate Passes(t: Text) {
    Grouped(t) && StopIn(t) == None
  }

  /** An enclosing function the first scan does not get past: an operator, or one with a qualifier behind it. */
  predicate Stops(s: Scope) {
    s.Enclosing? && (s.f.symbol.Operator? || s.f.quals != "")
  }

  /** The function whose parameter list the scan takes for the name's own. */
  function Target(scopes: seq<Scope>, f: Function): Function {
    if scopes == [] then f else if Stops(scopes[0]) then scopes[0].f else Target(scopes[1..], f)
  }

  /** The scopes it has got past by then. */
  function Passed(scopes: seq<Scope>): seq<Scope> {
    if scopes == [] || Stops(scopes[0]) then [] else [scopes[0]] + Passed(scopes[1..])
  }

  /** An operator's symbol up to a parenthesis in it, the "()" of the call operator excepted. */
  function OperatorKept(symbol: string): string {
    KEYWORD + symbol[..SeekParen(symbol, if At(symbol, 0, CALL) then |CALL| else 0)]
  }

  /** What is kept of a symbol. */
  function Kept(s: Symbol): string {
    match s
    case Plain(_, _) => PrintSymbol(s)
    case Operator(symbol) => OperatorKept(symbol)
  }

  // ---------- the first scan gets past what is printed ----------

  lemma AtParts(name: string, i: nat, x: string, y: string)
    requires At(name, i, x + y)
    ensures At(name, i, x) && At(name, i + |x|, y)
  {
    assert name[i..i + |x|] == (x + y)[..|x|];
    assert name[i + |x|..i + |x| + |y|] == (x + y)[|x|..];
  }

  lemma AtChar(name: string, i: nat, x: string, k: nat)
    requires At(name, i, x) && k < |x|
    ensures name[i + k] == x[k]
  {
    assert name[i..i + |x|][k] == x[k];
  }

  /** A bracket pair around text that nests: the match is its end. */
  lemma {:induction false} MatchPast(name: string, i: nat, x: string, depth: nat, open: char, close: char)
    requires open != close && At(name, i, x + [close]) && Nests(x, open, close, depth)
    ensures MatchFrom(name, i, depth + 1, open, close) == Some(i + |x|)
    decreases |x|
  {
    AtChar(name, i, x + [close], 0);
    if x != "" {
      assert x + [close] == [x[0]] + (x[1..] + [close]);
      AtParts(name, i, [x[0]], x[1..] + [close]);
      if x[0] == open {
        MatchPast(name, i + 1, x[1..], depth + 1, open, close);
      } else if x[0] == close {
        MatchPast(name, i + 1, x[1..], depth - 1, open, close);
      } else {
        MatchPast(name, i + 1, x[1..], depth, open, close);
      }
    }
  }

  lemma MatchPair(name: string, i: nat, x: string, open: char, close: char)
    requires open != close && At(name, i, [open] + x + [close]) && Nests(x, open, close, 0)
    ensures MatchFrom(name, i, 0, open, close) == Some(i + 1 + |x|)
  {
    assert [open] + x + [close] == [open] + (x + [close]);
    AtParts(name, i, [open], x + [close]);
    AtChar(name, i, [open], 0);
    MatchPast(name, i + 1, x, 0, open, close);
  }

  predicate NoKeywordIn(name: string, i: nat, j: nat) {
    forall k | i <= k < j :: !KeywordAt(name, k)
  }

  lemma CutPastLetter(name: string, i: nat, depth: nat)
    requires i < |name| && !Bracket(name[i]) && (depth > 0 || name[i] != '(') && !KeywordAt(name, i)
    ensures CutAt(name, i, depth) == CutAt(name, i + 1, depth)
  {
  }

  lemma CutPastAngle(name: string, i: nat, depth: int)
    requires i < |name| && (name[i] == '<' || name[i] == '>')
    ensures CutAt(name, i, depth) == CutAt(name, i + 1, if name[i] == '<' then depth + 1 else depth - 1)
  {
  }

  lemma CutPastBlock(name: string, i: nat, block: string, depth: nat)
    requires At(name, i, "{" + block + "}") && Nests(block, '{', '}', 0)
    ensures CutAt(name, i, depth) == CutAt(name, i + |block| + 2, depth)
  {
    AtChar(name, i, "{" + block + "}", 0);
    MatchPair(name, i, block, '{', '}');
  }

  /** Where `inner` and `rest` stand in "<inner>rest". */
  lemma AtAngles(name: string, i: nat, inner: string, rest: string)
    requires At(name, i, "<" + inner + ">" + rest)
    ensures At(name, i, "<") && name[i] == '<' && At(name, i + 1, inner)
    ensures At(name, i + 1 + |inner|, ">") && name[i + 1 + |inner|] == '>' && At(name, i + 2 + |inner|, rest)
  {
    AtParts(name, i, "<" + inner + ">", rest);
    AtParts(name, i, "<" + inner, ">");
    AtParts(name, i, "<", inner);
    AtChar(name, i, "<", 0);
    AtChar(name, i + 1 + |inner|, ">", 0);
  }

  /** Without keywords, and with no parenthesis that stops it, the scan goes on to the end of the text. */
  lemma {:induction false} CutPastText(name: string, i: nat, t: Text, depth: nat)
    requires TextOk(t) && At(name, i, PrintText(t)) && NoKeywordIn(name, i, i + |PrintText(t)|)
    requires depth > 0 || Passes(t)
    ensures CutAt(name, i, depth) == CutAt(name, i + |PrintText(t)|, depth)
    decreases t, 1
  {
    match t
    case Done =>
    case Letter(c, rest) => CutPastLetters(name, i, c, rest, depth);
    case Angles(inner, rest) => CutPastAngles(name, i, inner, rest, depth);
    case Braces(block, rest) => CutPastBraces(name, i, block, rest, depth);
    case Parens(inner, rest) => CutPastPair(name, i, inner, rest, depth);
  }

  lemma {:induction false} CutPastLetters(name: string, i: nat, c: char, rest: Text, depth: nat)
    requires !Bracket(c) && TextOk(rest) && At(name, i, [c] + PrintText(rest))
    requires NoKeywordIn(name, i, i + 1 + |PrintText(rest)|)
    requires depth > 0 || (c != '(' && Passes(rest))
    ensures CutAt(name, i, depth) == CutAt(name, i + 1 + |PrintText(rest)|, depth)
    decreases Text.Letter(c, rest), 0
  {
    AtParts(name, i, [c], PrintText(rest));
    AtChar(name, i, [c], 0);
    CutPastLetter(name, i, depth);
    CutPastText(name, i + 1, rest, depth);
  }

  lemma {:induction false} CutPastBraces(name: string, i: nat, block: string, rest: Text, depth: nat)
    requires Nests(block, '{', '}', 0) && TextOk(rest) && At(name, i, "{" + block + "}" + PrintText(rest))
    requires NoKeywordIn(name, i, i + |block| + 2 + |PrintText(rest)|)
    requires depth > 0 || Passes(rest)
    ensures CutAt(name, i, depth) == CutAt(name, i + |block| + 2 + |PrintText(rest)|, depth)
    decreases Text.Braces(block, rest), 0
  {
    AtParts(name, i, "{" + block + "}", PrintText(rest));
    CutPastBlock(name, i, block, depth);
    CutPastText(name, i + |block| + 2, rest, depth);
  }

  lemma {:induction false} CutPastAngles(name: string, i: nat, inner: Text, rest: Text, depth: nat)
    requires TextOk(inner) && TextOk(rest)
    requires At(name, i, "<" + PrintText(inner) + ">" + PrintText(rest))
    requires NoKeywordIn(name, i, i + |PrintText(inner)| + |PrintText(rest)| + 2)
    requires depth > 0 || Passes(rest)
    ensures CutAt(name, i, depth) == CutAt(name, i + |PrintText(inner)| + |PrintText(rest)| + 2, depth)
    decreases Text.Angles(inner, rest), 0
  {
    AtAngles(name, i, PrintText(inner), PrintText(rest));
    CutPastText(name, i + 1, inner, depth + 1);
    CutPastText(name, i + 2 + |PrintText(inner)|, rest, depth);
  }

  /** Where `inner` and `rest` stand in "(inner)rest". */
  lemma AtParens(name: string, i: nat, inner: string, rest: string)
    requires At(name, i, "(" + inner + ")" + rest)
    ensures At(name, i, "(" + inner + ")") && name[i] == '(' && At(name, i + 1, inner)
    ensures name[i + 1 + |inner|] == ')' && At(name, i + 2 + |inner|, rest)
  {
    AtParts(name, i, "(" + inner + ")", rest);
    AtPair(name, i, '(', inner, ')');
  }

  /** A pair of parentheses: letters inside angle brackets, a scope outside. */
  lemma {:induction false} CutPastPair(name: string, i: nat, inner: Text, rest: Text, depth: nat)
    requires TextOk(inner) && TextOk(rest)
    requires At(name, i, "(" + PrintText(inner) + ")" + PrintText(rest))
    requires NoKeywordIn(name, i, i + |PrintText(inner)| + |PrintText(rest)| + 2)
    requires depth > 0 || (Nests(PrintText(inner), '(', ')', 0) && At(PrintText(rest), 0, SCOPE) && Passes(rest))
    ensures CutAt(name, i, depth) == CutAt(name, i + |PrintText(inner)| + |PrintText(rest)| + 2, depth)
    decreases Text.Parens(inner, rest), 0
  {
    AtParens(name, i, PrintText(inner), PrintText(rest));
    if depth > 0 {
      CutPastLetter(name, i, depth);
      CutPastText(name, i + 1, inner, depth);
      CutPastLetter(name, i + 1 + |PrintText(inner)|, depth);
    } else {
      CutPastScopePair(name, i, PrintText(inner), PrintText(rest));
    }
    CutPastText(name, i + 2 + |PrintText(inner)|, rest, depth);
  }

  /** A pair with "::" behind it is a scope. */
  lemma CutPastScopePair(name: string, i: nat, x: string, rest: string)
    requires At(name, i, "(" + x + ")" + rest) && Nests(x, '(', ')', 0) && At(rest, 0, SCOPE)
    ensures CutAt(name, i, 0) == CutAt(name, i + |x| + 2, 0)
  {
    AtParens(name, i, x, rest);
    AtInside(name, i + |x| + 2, rest, 0, SCOPE);
    MatchPair(name, i, x, '(', ')');
    AtChar(name, i + |x| + 2, SCOPE, 0);
    CutPastLetter(name, i + |x| + 2, 0);
  }

  /** A pair with something else behind it ends the scan. */
  lemma CutAtPair(name: string, i: nat, x: string, rest: string)
    requires At(name, i, "(" + x + ")" + rest) && Nests(x, '(', ')', 0) && !At(rest, 0, SCOPE)
    requires i + |x| + 2 + |rest| < |name| ==> name[i + |x| + 2 + |rest|] != ':'
    ensures CutAt(name, i, 0) == i
  {
    AtParens(name, i, x, rest);
    var behind := i + |x| + 2;
    if At(name, behind, SCOPE) {
      AtChar(name, behind, SCOPE, 1);
    }
    MatchPair(name, i, x, '(', ')');
    CutAtParen(name, i, behind - 1);
  }

  /** The scan in a return type with such a pair. */
  lemma {:induction false} CutInText(name: string, i: nat, t: Text)
    requires TextOk(t) && Grouped(t) && StopIn(t).Some? && At(name, i, PrintText(t))
    requires NoKeywordIn(name, i, i + |PrintText(t)|)
    requires i + |PrintText(t)| < |name| ==> name[i + |PrintText(t)|] != ':'
    ensures CutAt(name, i, 0) == i + |StopIn(t).value|
    decreases t, 1
  {
    match t
    case Done =>
    case Letter(c, rest) => CutInLetters(name, i, c, rest);
    case Angles(inner, rest) => CutInAngles(name, i, inner, rest);
    case Braces(block, rest) => CutInBraces(name, i, block, rest);
    case Parens(inner, rest) => CutInPair(name, i, inner, rest);
  }

  lemma {:induction false} CutInLetters(name: string, i: nat, c: char, rest: Text)
    requires !Bracket(c) && c != '(' && TextOk(rest) && Grouped(rest) && StopIn(rest).Some?
    requires At(name, i, [c] + PrintText(rest)) && NoKeywordIn(name, i, i + 1 + |PrintText(rest)|)
    requires i + 1 + |PrintText(rest)| < |name| ==> name[i + 1 + |PrintText(rest)|] != ':'
    ensures CutAt(name, i, 0) == i + 1 + |StopIn(rest).value|
    decreases Text.Letter(c, rest), 0
  {
    CutPastFirst(name, i, c, PrintText(rest));
    CutInText(name, i + 1, rest);
  }

  lemma {:induction false} CutInAngles(name: string, i: nat, inner: Text, rest: Text)
    requires TextOk(inner) && TextOk(rest) && Grouped(rest) && StopIn(rest).Some?
    requires At(name, i, "<" + PrintText(inner) + ">" + PrintText(rest))
    requires NoKeywordIn(name, i, i + 2 + |PrintText(inner)| + |PrintText(rest)|)
    requires i + 2 + |PrintText(inner)| + |PrintText(rest)| < |name|
             ==> name[i + 2 + |PrintText(inner)| + |PrintText(rest)|] != ':'
    ensures CutAt(name, i, 0) == i + 2 + |PrintText(inner)| + |StopIn(rest).value|
    decreases Text.Angles(inner, rest), 0
  {
    CutPastInnerAngles(name, i, inner, PrintText(rest));
    CutInText(name, i + 2 + |PrintText(inner)|, rest);
  }

  lemma {:induction false} CutInBraces(name: string, i: nat, block: string, rest: Text)
    requires Nests(block, '{', '}', 0) && TextOk(rest) && Grouped(rest) && StopIn(rest).Some?
    requires At(name, i, "{" + block + "}" + PrintText(rest))
    requires NoKeywordIn(name, i, i + 2 + |block| + |PrintText(rest)|)
    requires i + 2 + |block| + |PrintText(rest)| < |name| ==> name[i + 2 + |block| + |PrintText(rest)|] != ':'
    ensures CutAt(name, i, 0) == i + 2 + |block| + |StopIn(rest).value|
    decreases Text.Braces(block, rest), 0
  {
    CutPastInnerBlock(name, i, block, PrintText(rest));
    CutInText(name, i + |block| + 2, rest);
  }

  lemma {:induction false} CutInPair(name: string, i: nat, inner: Text, rest: Text)
    requires TextOk(rest) && Nests(PrintText(inner), '(', ')', 0) && Grouped(rest)
    requires At(PrintText(rest), 0, SCOPE) ==> StopIn(rest).Some?
    requires At(name, i, "(" + PrintText(inner) + ")" + PrintText(rest))
    requires NoKeywordIn(name, i, i + 2 + |PrintText(inner)| + |PrintText(rest)|)
    requires i + 2 + |PrintText(inner)| + |PrintText(rest)| < |name|
             ==> name[i + 2 + |PrintText(inner)| + |PrintText(rest)|] != ':'
    ensures CutAt(name, i, 0)
            == if At(PrintText(rest), 0, SCOPE) then i + 2 + |PrintText(inner)| + |StopIn(rest).value| else i
    decreases Text.Parens(inner, rest), 0
  {
    if At(PrintText(rest), 0, SCOPE) {
      AtParens(name, i, PrintText(inner), PrintText(rest));
      CutPastScopePair(name, i, PrintText(inner), PrintText(rest));
      CutInText(name, i + 2 + |PrintText(inner)|, rest);
    } else {
      CutAtPair(name, i, PrintText(inner), PrintText(rest));
    }
  }

  lemma CutPastFirst(name: string, i: nat, c: char, rest: string)
    requires !Bracket(c) && c != '(' && At(name, i, [c] + rest) && !KeywordAt(name, i)
    ensures At(name, i + 1, rest) && CutAt(name, i, 0) == CutAt(name, i + 1, 0)
  {
    AtParts(name, i, [c], rest);
    AtChar(name, i, [c], 0);
    CutPastLetter(name, i, 0);
  }

  lemma CutPastInnerBlock(name: string, i: nat, block: string, rest: string)
    requires At(name, i, "{" + block + "}" + rest) && Nests(block, '{', '}', 0)
    ensures At(name, i + |block| + 2, rest) && CutAt(name, i, 0) == CutAt(name, i + |block| + 2, 0)
  {
    AtParts(name, i, "{" + block + "}", rest);
    CutPastBlock(name, i, block, 0);
  }

  lemma CutPastInnerAngles(name: string, i: nat, inner: Text, rest: string)
    requires TextOk(inner) && At(name, i, "<" + PrintText(inner) + ">" + rest)
    requires NoKeywordIn(name, i, i + |PrintText(inner)| + 2)
    ensures At(name, i + 2 + |PrintText(inner)|, rest)
            && CutAt(name, i, 0) == CutAt(name, i + 2 + |PrintText(inner)|, 0)
  {
    AtAngles(name, i, PrintText(inner), rest);
    CutPastAngle(name, i, 0);
    CutPastText(name, i + 1, inner, 1);
    CutPastAngle(name, i + 1 + |PrintText(inner)|, 1);
  }

  /** What is kept of a return type is its front. */
  lemma {:induction false} StopIsPrefix(t: Text)
    ensures StopIn(t).Some? ==> StopIn(t).value <= PrintText(t)
    decreases t
  {
    match t
    case Done =>
    case Letter(c, rest) => StopIsPrefix(rest);
    case Angles(inner, rest) => StopIsPrefix(rest);
    case Braces(block, rest) => StopIsPrefix(rest);
    case Parens(inner, rest) => StopIsPrefix(rest);
  }

  /** What stands at `j` is not one of the keyword's letters. */
  predicate Delimited(name: string, j: nat) {
    j >= |name| || name[j] !in KEYWORD
  }

  lemma AtInside(name: string, i: nat, x: string, k: nat, y: string)
    requires At(name, i, x) && k + |y| <= |x|
    ensures At(name, i + k, y) <==> At(x, k, y)
  {
    var there, here := name[i + k..i + k + |y|], x[k..k + |y|];
    forall m | 0 <= m < |y|
      ensures there[m] == here[m]
    {
      AtChar(name, i, x, k + m);
    }
    assert there == here;
  }

  /** The keyword cannot start inside `x` and end behind a delimiter. */
  lemma KeywordApart(name: string, i: nat, x: string, k: nat)
    requires At(name, i, x) && k < |x| && !At(x, k, KEYWORD) && Delimited(name, i + |x|)
    ensures !At(name, i + k, KEYWORD)
  {
    if k + |KEYWORD| <= |x| {
      AtInside(name, i, x, k, KEYWORD);
    } else if At(name, i + k, KEYWORD) {
      AtChar(name, i + k, KEYWORD, |x| - k);
    }
  }

  lemma {:induction false} CutPastIdFrom(name: string, i: nat, id: string, k: nat, depth: nat)
    requires IdOk(id) && At(name, i, id) && Delimited(name, i + |id|) && k <= |id|
    ensures CutAt(name, i + k, depth) == CutAt(name, i + |id|, depth)
    decreases |id| - k
  {
    if k < |id| {
      AtChar(name, i, id, k);
      if k == 0 {
        KeywordApart(name, i, id, 0);
      } else {
        AtChar(name, i, id, k - 1);
      }
      CutPastLetter(name, i + k, depth);
      CutPastIdFrom(name, i, id, k + 1, depth);
    }
  }

  /** What precedes text that stands at `i`, a blank where the name begins. */
  function Preceding(name: string, i: nat): char
    requires i <= |name|
  {
    if i == 0 then ' ' else name[i - 1]
  }

  lemma NoKeywordAt(name: string, i: nat, x: string, k: nat)
    requires At(name, i, x) && NoKeyword(x, Preceding(name, i)) && Delimited(name, i + |x|) && k < |x|
    ensures !KeywordAt(name, i + k)
  {
    if At(x, k, KEYWORD) {
      if k > 0 {
        AtChar(name, i, x, k - 1);
      }
    } else {
      KeywordApart(name, i, x, k);
    }
  }

  lemma TextWithoutKeyword(name: string, i: nat, x: string)
    requires At(name, i, x) && NoKeyword(x, Preceding(name, i)) && Delimited(name, i + |x|)
    ensures NoKeywordIn(name, i, i + |x|)
  {
    forall k | i <= k < i + |x|
      ensures !KeywordAt(name, k)
    {
      NoKeywordAt(name, i, x, k - i);
    }
  }

  lemma AtPair(name: string, i: nat, open: char, x: string, close: char)
    requires At(name, i, [open] + x + [close])
    ensures i + 1 + |x| < |name| && name[i] == open && At(name, i + 1, x) && name[i + 1 + |x|] == close
  {
    AtChar(name, i, [open] + x + [close], 0);
    AtChar(name, i, [open] + x + [close], |x| + 1);
    AtParts(name, i, [open] + x, [close]);
    AtParts(name, i, [open], x);
  }

  lemma CutPastBracketed(name: string, i: nat, t: Text)
    requires TextOk(t) && NoKeyword(PrintText(t), '<') && At(name, i, "<" + PrintText(t) + ">")
    ensures CutAt(name, i, 0) == CutAt(name, i + |PrintText(t)| + 2, 0)
  {
    AtPair(name, i, '<', PrintText(t), '>');
    CutPastAngle(name, i, 0);
    CutPastAngle(name, i + 1 + |PrintText(t)|, 1);
    TextWithoutKeyword(name, i + 1, PrintText(t));
    CutPastText(name, i + 1, t, 1);
  }

  lemma CutPastArgs(name: string, i: nat, args: Option<Text>)
    requires ArgsOk(args) && At(name, i, PrintArgs(args))
    ensures CutAt(name, i, 0) == CutAt(name, i + |PrintArgs(args)|, 0)
    ensures args.Some? ==> name[i] == '<'
  {
    if args.Some? {
      AtPair(name, i, '<', PrintText(args.value), '>');
      CutPastBracketed(name, i, args.value);
    }
  }

  /** An identifier and its arguments, with something other than the keyword's letters behind them. */
  lemma CutPastPlain(name: string, i: nat, id: string, args: Option<Text>)
    requires IdOk(id) && ArgsOk(args) && At(name, i, id + PrintArgs(args))
             && Delimited(name, i + |id + PrintArgs(args)|)
    ensures CutAt(name, i, 0) == CutAt(name, i + |id + PrintArgs(args)|, 0)
  {
    AtParts(name, i, id, PrintArgs(args));
    CutPastArgs(name, i + |id|, args);
    CutPastIdFrom(name, i, id, 0, 0);
  }

  /** A parenthesized part with "::" behind it. */
  lemma CutPastParens(name: string, i: nat, x: string)
    requires At(name, i, "(" + x + ")" + SCOPE) && Nests(x, '(', ')', 0)
    ensures CutAt(name, i, 0) == CutAt(name, i + |x| + 2, 0)
  {
    AtParts(name, i, "(" + x + ")", SCOPE);
    MatchPair(name, i, x, '(', ')');
    AtChar(name, i, "(" + x + ")", 0);
    var colon := i + |x| + 2;
    AtChar(name, colon, SCOPE, 0);
    AtChar(name, colon, SCOPE, 1);
    CutPastLetter(name, colon, 0);
  }

  lemma CutPastScopeMark(name: string, i: nat)
    requires At(name, i, SCOPE)
    ensures CutAt(name, i, 0) == CutAt(name, i + |SCOPE|, 0)
  {
    AtChar(name, i, SCOPE, 0);
    AtChar(name, i, SCOPE, 1);
    CutPastLetter(name, i, 0);
    CutPastLetter(name, i + 1, 0);
  }

  lemma CutPastSpace(name: string, i: nat, id: string, args: Option<Text>)
    requires IdOk(id) && ArgsOk(args) && At(name, i, id + PrintArgs(args) + SCOPE)
    ensures CutAt(name, i, 0) == CutAt(name, i + |id + PrintArgs(args)| + 2, 0)
  {
    AtParts(name, i, id + PrintArgs(args), SCOPE);
    AtChar(name, i + |id + PrintArgs(args)|, SCOPE, 0);
    CutPastPlain(name, i, id, args);
    CutPastScopeMark(name, i + |id + PrintArgs(args)|);
  }

  lemma CutPastGroup(name: string, i: nat, x: string)
    requires At(name, i, "(" + x + ")" + SCOPE) && Nests(x, '(', ')', 0)
    ensures CutAt(name, i, 0) == CutAt(name, i + |x| + 4, 0)
  {
    CutPastParens(name, i, x);
    AtParts(name, i, "(" + x + ")", SCOPE);
    CutPastScopeMark(name, i + |x| + 2);
  }

  lemma CutPastBlockScope(name: string, i: nat, block: string)
    requires At(name, i, "{" + block + "}" + SCOPE) && Nests(block, '{', '}', 0)
    ensures CutAt(name, i, 0) == CutAt(name, i + |block| + 4, 0)
  {
    AtParts(name, i, "{" + block + "}", SCOPE);
    CutPastBlock(name, i, block, 0);
    CutPastScopeMark(name, i + |block| + 2);
  }

  lemma CutPastSignature(name: string, i: nat, id: string, args: Option<Text>, x: string)
    requires IdOk(id) && ArgsOk(args) && Nests(x, '(', ')', 0)
    requires At(name, i, id + PrintArgs(args) + ("(" + x + ")" + SCOPE))
    ensures CutAt(name, i, 0) == CutAt(name, i + |id + PrintArgs(args)| + |x| + 4, 0)
  {
    AtParts(name, i, id + PrintArgs(args), "(" + x + ")" + SCOPE);
    AtChar(name, i + |id + PrintArgs(args)|, "(" + x + ")" + SCOPE, 0);
    CutPastPlain(name, i, id, args);
    CutPastGroup(name, i + |id + PrintArgs(args)|, x);
  }

  lemma CutPastEnclosing(name: string, i: nat, f: Function)
    requires FunctionOk(f) && f.symbol.Plain? && f.params.Some? && f.quals == ""
             && At(name, i, PrintFunction(f) + SCOPE)
    ensures CutAt(name, i, 0) == CutAt(name, i + |PrintFunction(f)| + 2, 0)
  {
    var plain, params := PrintSymbol(f.symbol), PrintParams(f.params);
    assert plain + params + "" == plain + params;
    assert plain + params + SCOPE == plain + (params + SCOPE);
    CutPastSignature(name, i, f.symbol.id, f.symbol.args, PrintText(f.params.value));
  }

  lemma CutPastScope(name: string, i: nat, s: Scope)
    requires ScopeOk(s) && !Stops(s) && At(name, i, PrintScope(s) + SCOPE)
    ensures CutAt(name, i, 0) == CutAt(name, i + |PrintScope(s)| + 2, 0)
  {
    match s
    case Space(id, args) => CutPastSpace(name, i, id, args);
    case Group(text) => CutPastGroup(name, i, PrintText(text));
    case Block(block) => CutPastBlockScope(name, i, block);
    case Enclosing(f) => CutPastEnclosing(name, i, f);
  }

  predicate ScopesOk(scopes: seq<Scope>) {
    forall s | s in scopes :: ScopeOk(s)
  }

  predicate AllPassed(scopes: seq<Scope>) {
    forall s | s in scopes :: ScopeOk(s) && !Stops(s)
  }

  lemma FirstScope(scopes: seq<Scope>)
    requires scopes != []
    ensures PrintScopes(scopes) == PrintScope(scopes[0]) + SCOPE + PrintScopes(scopes[1..])
  {
  }

  lemma CutPastOne(name: string, i: nat, s: Scope, next: nat)
    requires ScopeOk(s) && !Stops(s) && At(name, i, PrintScope(s) + SCOPE) && next == i + |PrintScope(s)| + 2
    ensures CutAt(name, i, 0) == CutAt(name, next, 0)
  {
    CutPastScope(name, i, s);
  }

  lemma {:induction false} CutPastScopes(name: string, i: nat, scopes: seq<Scope>, end: nat)
    requires AllPassed(scopes) && At(name, i, PrintScopes(scopes)) && end == i + |PrintScopes(scopes)|
    ensures CutAt(name, i, 0) == CutAt(name, end, 0)
    decreases |scopes|
  {
    if scopes != [] {
      var next := i + |PrintScope(scopes[0])| + 2;
      FirstScope(scopes);
      CutPastNext(name, i, scopes[0], PrintScopes(scopes[1..]), next);
      CutPastScopes(name, next, scopes[1..], end);
    }
  }

  lemma CutPastNext(name: string, i: nat, s: Scope, rest: string, next: nat)
    requires ScopeOk(s) && !Stops(s) && At(name, i, PrintScope(s) + SCOPE + rest) && next == i + |PrintScope(s)| + 2
    ensures At(name, next, rest) && CutAt(name, i, 0) == CutAt(name, next, 0)
  {
    AtParts(name, i, PrintScope(s) + SCOPE, rest);
    CutPastOne(name, i, s, next);
  }

  lemma {:induction false} PassedOk(scopes: seq<Scope>)
    requires ScopesOk(scopes)
    ensures AllPassed(Passed(scopes))
  {
    if scopes != [] && !Stops(scopes[0]) {
      PassedOk(scopes[1..]);
    }
  }

  // ---------- where it cuts ----------

  lemma {:induction false} SeekParenWithin(name: string, i: nat, x: string, k: nat)
    requires At(name, i, x) && k <= |x| && (i + |x| < |name| ==> name[i + |x|] == '(')
    ensures SeekParen(name, i + k) == i + SeekParen(x, k)
    decreases |x| - k
  {
    if k < |x| {
      AtChar(name, i, x, k);
      if x[k] != '(' {
        SeekParenWithin(name, i, x, k + 1);
      }
    }
  }

  /** An operator's symbol ends where its parameter list, or the name, does, or at a parenthesis in it. */
  lemma CutAtOperator(name: string, i: nat, symbol: string)
    requires SymbolOk(Operator(symbol)) && At(name, i, KEYWORD + symbol)
    requires i == 0 || name[i - 1] == ':' || name[i - 1] == ' '
    requires i + |KEYWORD + symbol| < |name| ==> name[i + |KEYWORD + symbol|] == '('
    ensures CutAt(name, i, 0) == i + |OperatorKept(symbol)|
  {
    var after := i + |KEYWORD|;
    AtParts(name, i, KEYWORD, symbol);
    AtChar(name, i, KEYWORD, 0);
    AtChar(name, after, symbol, 0);
    if symbol[0] == '(' {
      AtInside(name, after, symbol, 0, CALL);
    }
    assert At(name, after, CALL) <==> At(symbol, 0, CALL);
    SeekParenWithin(name, after, symbol, if At(symbol, 0, CALL) then |CALL| else 0);
  }

  lemma CutAtParen(name: string, i: nat, close: nat)
    requires i < |name| && name[i] == '('
    requires MatchFrom(name, i, 0, '(', ')') == Some(close) && !At(name, close + 1, SCOPE)
    ensures CutAt(name, i, 0) == i
  {
  }

  /** A parameter list with no "::" behind it. */
  lemma CutAtParams(name: string, i: nat, x: string)
    requires At(name, i, "(" + x + ")") && Nests(x, '(', ')', 0)
    requires i + |x| + 2 < |name| ==> name[i + |x| + 2] != ':'
    ensures CutAt(name, i, 0) == i
  {
    MatchPair(name, i, x, '(', ')');
    AtPair(name, i, '(', x, ')');
    CutAtParen(name, i, i + |x| + 1);
  }

  lemma CutAtParamsBefore(name: string, i: nat, x: string, tail: string)
    requires Nests(x, '(', ')', 0) && (tail != "" ==> tail[0] != ':')
    requires At(name, i, "(" + x + ")" + tail) && i + |x| + 2 + |tail| == |name|
    ensures CutAt(name, i, 0) == i
  {
    AtParts(name, i, "(" + x + ")", tail);
    if tail != "" {
      AtChar(name, i + |x| + 2, tail, 0);
    }
    CutAtParams(name, i, x);
  }

  /** A symbol the scan gets past, and a parameter list it does not. */
  lemma CutBehind(name: string, i: nat, paren: nat, x: string, tail: string)
    requires CutAt(name, i, 0) == CutAt(name, paren, 0)
    requires Nests(x, '(', ')', 0) && (tail != "" ==> tail[0] != ':')
    requires At(name, paren, "(" + x + ")" + tail) && paren + |x| + 2 + |tail| == |name|
    ensures CutAt(name, i, 0) == paren
  {
    CutAtParamsBefore(name, paren, x, tail);
  }

  /** `f` is the last function of the name, or one the scan does not get past. */
  predicate Final(f: Function, rest: string) {
    rest != "" ==> f.params.Some? && (f.symbol.Operator? || f.quals != "")
  }

  lemma CutAtPlainFunction(name: string, i: nat, f: Function, tail: string)
    requires FunctionOk(f) && f.symbol.Plain? && (tail != "" ==> tail[0] != ':' && f.params.Some?)
    requires At(name, i, PrintSymbol(f.symbol)) && At(name, i + |PrintSymbol(f.symbol)|, PrintParams(f.params) + tail)
    requires i + |PrintSymbol(f.symbol)| + |PrintParams(f.params) + tail| == |name|
    ensures CutAt(name, i, 0) == i + |PrintSymbol(f.symbol)|
  {
    var paren := i + |PrintSymbol(f.symbol)|;
    if f.params.Some? {
      AtChar(name, paren, PrintParams(f.params) + tail, 0);
    }
    CutPastPlain(name, i, f.symbol.id, f.symbol.args);
    if f.params.Some? {
      CutBehind(name, i, paren, PrintText(f.params.value), tail);
    }
  }

  /** The scan stops behind the symbol of the function it does not get past, or of the last. */
  lemma CutAtFunction(name: string, i: nat, f: Function, rest: string)
    requires FunctionOk(f) && Final(f, rest) && At(name, i, PrintFunction(f) + rest)
    requires i + |PrintFunction(f) + rest| == |name|
    requires i == 0 || name[i - 1] == ':' || name[i - 1] == ' '
    ensures CutAt(name, i, 0) == i + |Kept(f.symbol)|
  {
    var sym, params, tail := PrintSymbol(f.symbol), PrintParams(f.params), f.quals + rest;
    assert PrintFunction(f) + rest == sym + (params + tail);
    AtParts(name, i, sym, params + tail);
    if f.symbol.Plain? {
      CutAtPlainFunction(name, i, f, tail);
    } else {
      if f.params.Some? {
        AtChar(name, i + |sym|, params + tail, 0);
      }
      CutAtOperator(name, i, f.symbol.symbol);
    }
  }

  /** What is printed behind the target. */
  function Behind(scopes: seq<Scope>, f: Function): string {
    if scopes == [] then ""
    else if Stops(scopes[0]) then SCOPE + PrintScopes(scopes[1..]) + PrintFunction(f)
    else Behind(scopes[1..], f)
  }

  lemma {:induction false} TargetIsFinal(scopes: seq<Scope>, f: Function)
    requires ScopesOk(scopes) && FunctionOk(f)
    ensures FunctionOk(Target(scopes, f)) && Final(Target(scopes, f), Behind(scopes, f))
    decreases |scopes|
  {
    if scopes != [] {
      if Stops(scopes[0]) {
        assert ScopeOk(scopes[0]);
      } else {
        TargetIsFinal(scopes[1..], f);
      }
    }
  }

  /** The printed name up to its target and from there on. */
  lemma {:induction false} SplitAtTarget(scopes: seq<Scope>, f: Function)
    ensures PrintScopes(scopes) + PrintFunction(f)
            == PrintScopes(Passed(scopes)) + (PrintFunction(Target(scopes, f)) + Behind(scopes, f))
    decreases |scopes|
  {
    if scopes == [] {
      assert Target(scopes, f) == f && PrintFunction(f) + "" == PrintFunction(f);
    } else if Stops(scopes[0]) {
      StopsAtFirst(PrintScope(scopes[0]), PrintScopes(scopes[1..]), PrintFunction(f));
    } else {
      SplitAtTarget(scopes[1..], f);
      JoinFirst(scopes, f, PrintFunction(Target(scopes, f)) + Behind(scopes, f));
    }
  }

  lemma StopsAtFirst(a: string, b: string, c: string)
    ensures a + SCOPE + b + c == "" + (a + (SCOPE + b + c))
  {
  }

  lemma JoinFirst(scopes: seq<Scope>, f: Function, end: string)
    requires scopes != [] && !Stops(scopes[0])
    requires PrintScopes(scopes[1..]) + PrintFunction(f) == PrintScopes(Passed(scopes[1..])) + end
    ensures PrintScopes(scopes) + PrintFunction(f) == PrintScopes(Passed(scopes)) + end
  {
    PassedFirst(scopes);
    Regroup(PrintScope(scopes[0]) + SCOPE, PrintScopes(scopes[1..]), PrintFunction(f),
            PrintScopes(Passed(scopes[1..])), end);
  }

  lemma PassedFirst(scopes: seq<Scope>)
    requires scopes != [] && !Stops(scopes[0])
    ensures PrintScopes(Passed(scopes)) == PrintScope(scopes[0]) + SCOPE + PrintScopes(Passed(scopes[1..]))
  {
    assert Passed(scopes)[1..] == Passed(scopes[1..]);
  }

  lemma Regroup(head: string, a: string, b: string, c: string, d: string)
    requires a + b == c + d
    ensures (head + a) + b == (head + c) + d
  {
    assert (head + a) + b == head + (a + b);
    assert (head + c) + d == head + (c + d);
  }

  lemma {:induction false} ScopesEnd(scopes: seq<Scope>)
    requires scopes != []
    ensures |PrintScopes(scopes)| >= 2 && PrintScopes(scopes)[|PrintScopes(scopes)| - 2..] == SCOPE
    decreases |scopes|
  {
    if |scopes| > 1 {
      ScopesEnd(scopes[1..]);
    }
  }

  lemma CutPastResult(name: string, result: Option<Text>)
    requires ResultOk(result) && (result.Some? ==> StopIn(result.value) == None) && At(name, 0, PrintResult(result))
    ensures CutAt(name, 0, 0) == CutAt(name, |PrintResult(result)|, 0)
  {
    if result.Some? {
      var x := PrintText(result.value);
      AtParts(name, 0, x, " ");
      AtChar(name, |x|, " ", 0);
      TextWithoutKeyword(name, 0, x);
      CutPastText(name, 0, result.value, 0);
      CutPastLetter(name, |x|, 0);
    }
  }

  /** The part of a printed name before its target. */
  function Before(n: Name): string {
    PrintResult(n.result) + PrintScopes(Passed(n.scopes))
  }

  lemma EndsInDelimiter(n: Name)
    ensures Before(n) == "" || Before(n)[|Before(n)| - 1] == ':' || Before(n)[|Before(n)| - 1] == ' '
  {
    var passed := PrintScopes(Passed(n.scopes));
    if Passed(n.scopes) != [] {
      ScopesEnd(Passed(n.scopes));
      assert passed[|passed| - 1] == passed[|passed| - 2..][1];
    }
  }

  lemma CutPastBefore(n: Name, name: string)
    requires NameOk(n) && StopInResult(n) == None && At(name, 0, Before(n))
    ensures CutAt(name, 0, 0) == CutAt(name, |Before(n)|, 0)
  {
    PassedOk(n.scopes);
    CutPastResultAndScopes(name, n.result, Passed(n.scopes), |Before(n)|);
  }

  lemma CutPastResultAndScopes(name: string, result: Option<Text>, scopes: seq<Scope>, end: nat)
    requires ResultOk(result) && (result.Some? ==> StopIn(result.value) == None) && AllPassed(scopes)
    requires At(name, 0, PrintResult(result) + PrintScopes(scopes))
    requires end == |PrintResult(result) + PrintScopes(scopes)|
    ensures CutAt(name, 0, 0) == CutAt(name, end, 0)
  {
    AtParts(name, 0, PrintResult(result), PrintScopes(scopes));
    CutPastResult(name, result);
    CutPastScopes(name, |PrintResult(result)|, scopes, end);
  }

  lemma KeptIsPrefix(s: Symbol)
    ensures |Kept(s)| <= |PrintSymbol(s)| && Kept(s) == PrintSymbol(s)[..|Kept(s)|]
  {
  }

  lemma KeptOfFunction(before: string, f: Function, rest: string)
    ensures (before + (PrintFunction(f) + rest))[..|before| + |Kept(f.symbol)|] == before + Kept(f.symbol)
  {
    KeptIsPrefix(f.symbol);
    assert PrintFunction(f)[..|PrintSymbol(f.symbol)|] == PrintSymbol(f.symbol);
  }

  lemma BeforeIn(n: Name, name: string)
    requires At(name, 0, Before(n))
    ensures |Before(n)| == 0 || name[|Before(n)| - 1] == ':' || name[|Before(n)| - 1] == ' '
  {
    EndsInDelimiter(n);
    if Before(n) != "" {
      AtChar(name, 0, Before(n), |Before(n)| - 1);
    }
  }

  lemma PrintAtTarget(n: Name)
    ensures Print(n) == Before(n) + (PrintFunction(Target(n.scopes, n.f)) + Behind(n.scopes, n.f))
  {
    SplitAtTarget(n.scopes, n.f);
    Regroup(PrintResult(n.result), PrintScopes(n.scopes), PrintFunction(n.f),
            PrintScopes(Passed(n.scopes)), PrintFunction(Target(n.scopes, n.f)) + Behind(n.scopes, n.f));
  }

  lemma CutBehindBefore(n: Name, name: string, f: Function, rest: string)
    requires NameOk(n) && StopInResult(n) == None
    requires FunctionOk(f) && Final(f, rest) && name == Before(n) + (PrintFunction(f) + rest)
    ensures CutAt(name, 0, 0) == |Before(n)| + |Kept(f.symbol)|
  {
    AtParts(name, 0, Before(n), PrintFunction(f) + rest);
    BeforeIn(n, name);
    CutPastBefore(n, name);
    CutAtEnd(name, |Before(n)|, f, rest);
  }

  lemma CutAtEnd(name: string, i: nat, f: Function, rest: string)
    requires FunctionOk(f) && Final(f, rest) && At(name, i, PrintFunction(f) + rest)
    requires i + |PrintFunction(f) + rest| == |name|
    requires i == 0 || name[i - 1] == ':' || name[i - 1] == ' '
    requires CutAt(name, 0, 0) == CutAt(name, i, 0)
    ensures CutAt(name, 0, 0) == i + |Kept(f.symbol)|
  {
    CutAtFunction(name, i, f, rest);
  }

  /** What the first scan leaves of a printed name: everything up to its target, and what is kept of that. */
  lemma FirstScan(n: Name)
    requires NameOk(n) && StopInResult(n) == None
    ensures Print(n)[..CutAt(Print(n), 0, 0)] == Before(n) + Kept(Target(n.scopes, n.f).symbol)
  {
    PrintAtTarget(n);
    TargetIsFinal(n.scopes, n.f);
    CutBehindBefore(n, Print(n), Target(n.scopes, n.f), Behind(n.scopes, n.f));
    KeptOfFunction(Before(n), Target(n.scopes, n.f), Behind(n.scopes, n.f));
  }

  lemma CutInFront(name: string, t: Text, more: string)
    requires TextOk(t) && Grouped(t) && NoKeyword(PrintText(t), ' ') && StopIn(t).Some?
    requires name == PrintText(t) + more && (more != "" ==> more[0] == ' ')
    ensures name[..CutAt(name, 0, 0)] == StopIn(t).value
  {
    assert At(name, 0, PrintText(t));
    TextWithoutKeyword(name, 0, PrintText(t));
    CutInText(name, 0, t);
    StopIsPrefix(t);
  }

  /** Or what stands in front of a parenthesis in its return type. */
  lemma FirstScanInResult(n: Name)
    requires NameOk(n) && StopInResult(n).Some?
    ensures Print(n)[..CutAt(Print(n), 0, 0)] == StopInResult(n).value
  {
    var x, rest := PrintText(n.result.value), PrintScopes(n.scopes) + PrintFunction(n.f);
    assert Print(n) == x + (" " + rest);
    CutInFront(Print(n), n.result.value, " " + rest);
  }

  // ---------- the second scan ----------

  function Letters(x: string): Text {
    if x == "" then Done else Letter(x[0], Letters(x[1..]))
  }

  function Append(t: Text, u: Text): Text {
    match t
    case Done => u
    case Letter(c, rest) => Letter(c, Append(rest, u))
    case Angles(inner, rest) => Angles(inner, Append(rest, u))
    case Braces(block, rest) => Braces(block, Append(rest, u))
    case Parens(inner, rest) => Parens(inner, Append(rest, u))
  }

  lemma {:induction false} LettersPrint(x: string)
    requires forall k | 0 <= k < |x| :: !Bracket(x[k])
    ensures TextOk(Letters(x)) && PrintText(Letters(x)) == x
  {
    if x != "" {
      LettersPrint(x[1..]);
    }
  }

  lemma {:induction false} AppendPrints(t: Text, u: Text)
    requires TextOk(t) && TextOk(u)
    ensures TextOk(Append(t, u)) && PrintText(Append(t, u)) == PrintText(t) + PrintText(u)
  {
    match t
    case Done =>
    case Letter(c, rest) =>
      AppendPrints(rest, u);
      Assoc([c], PrintText(rest), PrintText(u));
    case Angles(inner, rest) =>
      AppendPrints(rest, u);
      Assoc("<" + PrintText(inner) + ">", PrintText(rest), PrintText(u));
    case Braces(block, rest) =>
      AppendPrints(rest, u);
      Assoc("{" + block + "}", PrintText(rest), PrintText(u));
    case Parens(inner, rest) =>
      AppendPrints(rest, u);
      Assoc("(" + PrintText(inner) + ")", PrintText(rest), PrintText(u));
  }

  lemma Assoc(a: string, b: string, c: string)
    ensures a + (b + c) == a + b + c
  {
  }

  lemma ArgsText(args: Option<Text>) returns (t: Text)
    requires ArgsOk(args)
    ensures TextOk(t) && PrintText(t) == PrintArgs(args)
  {
    t := match args case None => Done case Some(inner) => Angles(inner, Done);
  }

  lemma PlainText(id: string, args: Option<Text>) returns (t: Text)
    requires IdOk(id) && ArgsOk(args)
    ensures TextOk(t) && PrintText(t) == id + PrintArgs(args)
  {
    var a := ArgsText(args);
    LettersPrint(id);
    AppendPrints(Letters(id), a);
    t := Append(Letters(id), a);
  }

  lemma GroupText(x: Text) returns (t: Text)
    requires TextOk(x)
    ensures TextOk(t) && PrintText(t) == "(" + PrintText(x) + ")"
  {
    AppendPrints(x, Letter(')', Done));
    t := Letter('(', Append(x, Letter(')', Done)));
  }

  /** What is printed of a scope is bracketed text like any other. */
  lemma ScopeText(s: Scope) returns (t: Text)
    requires ScopeOk(s) && !Stops(s)
    ensures TextOk(t) && PrintText(t) == PrintScope(s)
  {
    match s
    case Space(id, args) => t := PlainText(id, args);
    case Group(x) => t := GroupText(x);
    case Block(block) => t := Braces(block, Done);
    case Enclosing(f) =>
      var plain := PlainText(f.symbol.id, f.symbol.args);
      var params := GroupText(f.params.value);
      AppendPrints(plain, params);
      t := Append(plain, params);
  }

  lemma JoinedText(t: Text, u: Text) returns (j: Text)
    requires TextOk(t) && TextOk(u)
    ensures TextOk(j) && PrintText(j) == PrintText(t) + SCOPE + PrintText(u)
  {
    var mark := Letter(':', Letter(':', u));
    assert PrintText(mark) == SCOPE + PrintText(u);
    AppendPrints(t, mark);
    j := Append(t, mark);
  }

  lemma {:induction false} ScopesText(scopes: seq<Scope>) returns (t: Text)
    requires scopes != [] && AllPassed(scopes)
    ensures TextOk(t) && PrintScopes(scopes) == PrintText(t) + SCOPE
    decreases |scopes|
  {
    t := ScopeText(scopes[0]);
    if |scopes| == 1 {
      assert PrintScopes(scopes[1..]) == "";
    } else {
      var rest := ScopesText(scopes[1..]);
      t := JoinedText(t, rest);
    }
  }

  lemma PrefixedText(t: Text, u: Text) returns (j: Text)
    requires TextOk(t) && TextOk(u)
    ensures TextOk(j) && PrintText(j) == PrintText(t) + " " + PrintText(u)
  {
    AppendPrints(t, Letter(' ', u));
    Assoc(PrintText(t), " ", PrintText(u));
    j := Append(t, Letter(' ', u));
  }

  /** What stands before the target: text, and a scope mark behind it. */
  lemma BeforeText(n: Name) returns (t: Text)
    requires NameOk(n) && Passed(n.scopes) != []
    ensures TextOk(t) && Before(n) == PrintText(t) + SCOPE
  {
    PassedOk(n.scopes);
    t := ScopesText(Passed(n.scopes));
    match n.result
    case None =>
    case Some(result) =>
      Regroup(PrintText(result) + " ", PrintText(t), SCOPE, PrintText(t), SCOPE);
      t := PrefixedText(result, t);
  }

  /** Text in the second scan: it ends at the depth it began, and inside angle brackets nothing is a scope. */
  lemma {:induction false} ScanPastText(name: string, i: nat, t: Text, depth: nat, last: nat) returns (last': nat)
    requires TextOk(t) && At(name, i, PrintText(t)) && last <= |name|
    ensures last' <= |name| && (depth > 0 ==> last' == last) && (last' == last || last' <= i + |PrintText(t)| + 1)
    ensures LastScope(name, i, depth, last) == LastScope(name, i + |PrintText(t)|, depth, last')
    decreases t, 1
  {
    match t
    case Done => last' := last;
    case Letter(c, rest) => last' := ScanPastLetters(name, i, c, rest, depth, last);
    case Angles(inner, rest) => last' := ScanPastAngles(name, i, inner, rest, depth, last);
    case Braces(block, rest) => last' := ScanPastBraces(name, i, block, rest, depth, last);
    case Parens(inner, rest) => last' := ScanPastPair(name, i, inner, rest, depth, last);
  }

  lemma {:induction false} ScanPastBraces(name: string, i: nat, block: string, rest: Text, depth: nat, last: nat)
    returns (last': nat)
    requires Nests(block, '{', '}', 0) && TextOk(rest) && At(name, i, "{" + block + "}" + PrintText(rest))
             && last <= |name|
    ensures last' <= |name| && (depth > 0 ==> last' == last)
            && (last' == last || last' <= i + |block| + |PrintText(rest)| + 3)
    ensures LastScope(name, i, depth, last) == LastScope(name, i + |block| + 2 + |PrintText(rest)|, depth, last')
    decreases Text.Braces(block, rest), 0
  {
    AtParts(name, i, "{" + block + "}", PrintText(rest));
    ScanPastBlock(name, i, block, depth, last);
    last' := ScanPastText(name, i + |block| + 2, rest, depth, last);
  }

  lemma ScanPastBlock(name: string, i: nat, block: string, depth: int, last: nat)
    requires At(name, i, "{" + block + "}") && Nests(block, '{', '}', 0) && last <= |name|
    ensures LastScope(name, i, depth, last) == LastScope(name, i + |block| + 2, depth, last)
  {
    AtPair(name, i, '{', block, '}');
    MatchPair(name, i, block, '{', '}');
  }

  lemma ScanPastLetter(name: string, i: nat, depth: int, last: nat) returns (last': nat)
    requires i < |name| && !Bracket(name[i]) && last <= |name|
    ensures last' <= |name| && (depth > 0 ==> last' == last) && (last' == last || last' <= i + 2)
    ensures LastScope(name, i, depth, last) == LastScope(name, i + 1, depth, last')
  {
    last' := if i + 1 < |name| && name[i] == ':' && name[i + 1] == ':' && depth == 0 then i + 2 else last;
  }

  lemma {:induction false} ScanPastLetters(name: string, i: nat, c: char, rest: Text, depth: nat, last: nat)
    returns (last': nat)
    requires !Bracket(c) && TextOk(rest) && At(name, i, [c] + PrintText(rest)) && last <= |name|
    ensures last' <= |name| && (depth > 0 ==> last' == last) && (last' == last || last' <= i + |PrintText(rest)| + 2)
    ensures LastScope(name, i, depth, last) == LastScope(name, i + 1 + |PrintText(rest)|, depth, last')
    decreases Text.Letter(c, rest), 0
  {
    AtParts(name, i, [c], PrintText(rest));
    AtChar(name, i, [c], 0);
    last' := ScanPastLetter(name, i, depth, last);
    last' := ScanPastText(name, i + 1, rest, depth, last');
  }

  /** To the second scan parentheses are letters. */
  lemma {:induction false} ScanPastPair(name: string, i: nat, inner: Text, rest: Text, depth: nat, last: nat)
    returns (last': nat)
    requires TextOk(inner) && TextOk(rest) && last <= |name|
    requires At(name, i, "(" + PrintText(inner) + ")" + PrintText(rest))
    ensures last' <= |name| && (depth > 0 ==> last' == last)
    ensures last' == last || last' <= i + |PrintText(inner)| + |PrintText(rest)| + 3
    ensures LastScope(name, i, depth, last)
            == LastScope(name, i + |PrintText(inner)| + |PrintText(rest)| + 2, depth, last')
    decreases Text.Parens(inner, rest), 0
  {
    AtParens(name, i, PrintText(inner), PrintText(rest));
    last' := ScanPastLetter(name, i, depth, last);
    last' := ScanPastText(name, i + 1, inner, depth, last');
    last' := ScanPastLetter(name, i + 1 + |PrintText(inner)|, depth, last');
    last' := ScanPastText(name, i + 2 + |PrintText(inner)|, rest, depth, last');
  }

  lemma ScanPastAngle(name: string, i: nat, depth: int, last: nat)
    requires i < |name| && (name[i] == '<' || name[i] == '>') && last <= |name|
    ensures LastScope(name, i, depth, last)
            == LastScope(name, i + 1, if name[i] == '<' then depth + 1 else depth - 1, last)
  {
  }

  lemma {:induction false} ScanPastAngles(name: string, i: nat, inner: Text, rest: Text, depth: nat, last: nat)
    returns (last': nat)
    requires TextOk(inner) && TextOk(rest) && last <= |name|
    requires At(name, i, "<" + PrintText(inner) + ">" + PrintText(rest))
    ensures last' <= |name| && (depth > 0 ==> last' == last)
    ensures last' == last || last' <= i + |PrintText(inner)| + |PrintText(rest)| + 3
    ensures LastScope(name, i, depth, last)
            == LastScope(name, i + |PrintText(inner)| + |PrintText(rest)| + 2, depth, last')
    decreases Text.Angles(inner, rest), 0
  {
    AtAngles(name, i, PrintText(inner), PrintText(rest));
    ScanPastAngle(name, i, depth, last);
    last' := ScanPastText(name, i + 1, inner, depth + 1, last);
    ScanPastAngle(name, i + 1 + |PrintText(inner)|, depth + 1, last);
    last' := ScanPastText(name, i + 2 + |PrintText(inner)|, rest, depth, last);
  }

  /** A scope mark outside brackets: what stands behind it is the last component so far. */
  lemma ScanPastScopeMark(name: string, i: nat, last: nat)
    requires At(name, i, SCOPE) && last <= |name| && (i + 2 < |name| ==> name[i + 2] != ':')
    ensures LastScope(name, i, 0, last) == LastScope(name, i + 2, 0, i + 2)
  {
    AtChar(name, i, SCOPE, 0);
    AtChar(name, i, SCOPE, 1);
  }

  lemma {:induction false} MatchShift(name: string, s: nat, i: nat, depth: int, open: char, close: char)
    requires s <= |name|
    ensures MatchFrom(name, s + i, depth, open, close)
            == match MatchFrom(name[s..], i, depth, open, close) case None => None case Some(k) => Some(s + k)
    decreases |name| - s - i
  {
    if s + i < |name| {
      var deeper := if name[s + i] == open then depth + 1 else if name[s + i] == close then depth - 1 else depth;
      MatchShift(name, s, i + 1, deeper, open, close);
    }
  }

  /** The scan sees nothing of what stands before its start. */
  lemma {:induction false} ScanShift(name: string, s: nat, i: nat, depth: int, last: nat)
    requires s <= |name| && s + last <= |name|
    ensures LastScope(name, s + i, depth, s + last) == s + LastScope(name[s..], i, depth, last)
    decreases |name| - s - i
  {
    if s + i + 1 < |name| {
      var c, x := name[s + i], name[s..];
      if c == '{' {
        MatchShift(name, s, i, 0, '{', '}');
        if MatchFrom(x, i, 0, '{', '}').Some? {
          ScanShift(name, s, MatchFrom(x, i, 0, '{', '}').value + 1, depth, last);
        }
      } else if c == '<' {
        ScanShift(name, s, i + 1, depth + 1, last);
      } else if c == '>' {
        ScanShift(name, s, i + 1, depth - 1, last);
      } else if c == ':' && name[s + i + 1] == ':' && depth == 0 {
        ScanShift(name, s, i + 1, depth, i + 2);
      } else {
        ScanShift(name, s, i + 1, depth, last);
      }
    }
  }

  lemma ScanToRest(name: string, t: Text, start: nat)
    requires TextOk(t) && start == |PrintText(t)| + 2 && At(name, 0, PrintText(t)) && At(name, start - 2, SCOPE)
    requires start < |name| ==> name[start] != ':'
    ensures LastScope(name, 0, 0, 0) == start + LastScope(name[start..], 0, 0, 0)
  {
    var last := ScanPastText(name, 0, t, 0, 0);
    ScanPastScopeMark(name, start - 2, last);
    ScanShift(name, start, 0, 0, 0);
  }

  lemma DropMore(x: string, s: nat, k: nat)
    requires s + k <= |x|
    ensures x[s + k..] == x[s..][k..]
  {
  }

  /** Behind text and a scope mark only the rest of the name matters. */
  lemma UnscopedBehindScope(t: Text, kept: string)
    requires TextOk(t) && (kept != "" ==> kept[0] != ':')
    ensures Unscoped(PrintText(t) + SCOPE + kept) == Unscoped(kept)
  {
    var x := PrintText(t);
    var name := x + SCOPE + kept;
    assert At(name, 0, x) && At(name, |x|, SCOPE) && name[|x| + 2..] == kept;
    ScanToRest(name, t, |x| + 2);
    DropMore(name, |x| + 2, LastScope(kept, 0, 0, 0));
  }

  // ---------- the base name of a printed name ----------

  lemma KeptStarts(s: Symbol)
    requires SymbolOk(s)
    ensures Kept(s) != "" && Kept(s)[0] != ':'
  {
    if s.Plain? {
      assert IdChar(s.id[0]);
    }
  }

  /** Of a return type with a parenthesis that stops the first scan only what stands in front of it is looked at. */
  lemma BaseInResult(n: Name)
    requires NameOk(n) && StopInResult(n).Some?
    ensures Base(Print(n)) == Unscoped(StopInResult(n).value)
  {
    FirstScanInResult(n);
  }

  /**
  The law, for every name of the grammar: the base name is what is kept of its target's symbol, and only a
  return type with no scope behind it stays in front; or it is taken from the return type alone, if a parenthesis
  in that stops the scan.
  */
  lemma BaseOfPrinted(n: Name)
    requires NameOk(n)
    ensures var kept := Kept(Target(n.scopes, n.f).symbol);
            Base(Print(n)) == Unscoped(if StopInResult(n).Some? then StopInResult(n).value
                                       else if Passed(n.scopes) == [] then PrintResult(n.result) + kept
                                       else kept)
  {
    if StopInResult(n).Some? {
      BaseInResult(n);
    } else {
      BaseOfPassed(n);
    }
  }

  lemma BaseOfPassed(n: Name)
    requires NameOk(n) && StopInResult(n) == None
    ensures var kept := Kept(Target(n.scopes, n.f).symbol);
            Base(Print(n)) == Unscoped(if Passed(n.scopes) == [] then PrintResult(n.result) + kept else kept)
  {
    var kept := Kept(Target(n.scopes, n.f).symbol);
    FirstScan(n);
    TargetIsFinal(n.scopes, n.f);
    KeptStarts(Target(n.scopes, n.f).symbol);
    if Passed(n.scopes) == [] {
      assert Before(n) == PrintResult(n.result);
    } else {
      var t := BeforeText(n);
      UnscopedBehindScope(t, kept);
    }
  }

  lemma {:induction false} ScanPastId(name: string, id: string, k: nat)
    requires IdOk(id) && At(name, 0, id) && k <= |id|
    ensures LastScope(name, k, 0, 0) == LastScope(name, |id|, 0, 0)
    decreases |id| - k
  {
    if k < |id| {
      AtChar(name, 0, id, k);
      ScanPastId(name, id, k + 1);
    }
  }

  lemma ScanPastArgs(name: string, i: nat, args: Option<Text>)
    requires ArgsOk(args) && At(name, i, PrintArgs(args))
    ensures LastScope(name, i, 0, 0) == LastScope(name, i + |PrintArgs(args)|, 0, 0)
  {
    if args.Some? {
      var x := PrintText(args.value);
      AtPair(name, i, '<', x, '>');
      ScanPastAngle(name, i, 0, 0);
      var last := ScanPastText(name, i + 1, args.value, 1, 0);
      ScanPastAngle(name, i + 1 + |x|, 1, 0);
      assert last == 0;
    }
  }

  /** A plain symbol is one component, whatever its template arguments say. */
  lemma PlainIsOneComponent(id: string, args: Option<Text>)
    requires IdOk(id) && ArgsOk(args)
    ensures Unscoped(id + PrintArgs(args)) == id + PrintArgs(args)
  {
    var name := id + PrintArgs(args);
    assert At(name, 0, id) && At(name, |id|, PrintArgs(args));
    ScanPastId(name, id, 0);
    ScanPastArgs(name, |id|, args);
  }

  /**
  Whatever scopes, template arguments, brace blocks and signatures stand around it, the base name of a printed
  plain function is its own component: of the last one, or of the first enclosing function the scan stops at.
  */
  lemma BaseNamesTheTarget(n: Name)
    requires NameOk(n) && StopInResult(n) == None
    requires Target(n.scopes, n.f).symbol.Plain? && (n.result == None || Passed(n.scopes) != [])
    ensures Base(Print(n)) == PrintSymbol(Target(n.scopes, n.f).symbol)
  {
    var f := Target(n.scopes, n.f);
    TargetIsFinal(n.scopes, n.f);
    BaseOfPrinted(n);
    PlainIsOneComponent(f.symbol.id, f.symbol.args);
    assert PrintResult(None) + Kept(f.symbol) == Kept(f.symbol);
  }

  /** The second scan stays where it began or ends behind a colon. */
  lemma {:induction false} ScanEndsBehindColon(x: string, i: nat, depth: int, last: nat)
    requires last <= |x|
    ensures var r := LastScope(x, i, depth, last); r == last || (r > 0 && x[r - 1] == ':')
    decreases |x| - i
  {
    if i + 1 < |x| {
      if x[i] == '{' {
        if MatchFrom(x, i, 0, '{', '}').Some? {
          ScanEndsBehindColon(x, MatchFrom(x, i, 0, '{', '}').value + 1, depth, last);
        }
      } else if x[i] == '<' {
        ScanEndsBehindColon(x, i + 1, depth + 1, last);
      } else if x[i] == '>' {
        ScanEndsBehindColon(x, i + 1, depth - 1, last);
      } else if x[i] == ':' && x[i + 1] == ':' && depth == 0 {
        ScanEndsBehindColon(x, i + 1, depth, i + 2);
      } else {
        ScanEndsBehindColon(x, i + 1, depth, last);
      }
    }
  }

  /** A return type in front is never cut off whole: it ends in a blank. */
  lemma ResultStays(result: string, kept: string)
    ensures Unscoped(result + " " + kept) != kept
  {
    var x := result + " " + kept;
    ScanEndsBehindColon(x, 0, 0, 0);
    assert x[|result|] == ' ';
  }

  /**
  What the scans make of the return type: nothing, if there is none, or if it ends in front of a scope without
  stopping the first of them; otherwise `symbol` is found only where that very text stands in the return type.
  */
  predicate ResultGone(n: Name, symbol: string) {
    if StopInResult(n).Some? then Unscoped(StopInResult(n).value) == symbol
    else n.result == None || Passed(n.scopes) != []
  }

  /**
  The exact condition for a plain target: the base name of a printed name is its target's own component if and only
  if no return type stands in front, or a scope stands between and no parenthesis stops the scan before it.
  */
  lemma BaseNamesTheTargetIff(n: Name)
    requires NameOk(n) && Target(n.scopes, n.f).symbol.Plain?
    ensures var symbol := PrintSymbol(Target(n.scopes, n.f).symbol);
            Base(Print(n)) == symbol <==> ResultGone(n, symbol)
  {
    if StopInResult(n).Some? {
      BaseInResult(n);
    } else if n.result == None || Passed(n.scopes) != [] {
      BaseNamesTheTarget(n);
    } else {
      BaseOfPrinted(n);
      ResultStays(PrintText(n.result.value), PrintSymbol(Target(n.scopes, n.f).symbol));
    }
  }

  lemma PlainEndsInNoBlank(id: string, args: Option<Text>)
    requires IdOk(id)
    ensures var x := id + PrintArgs(args); x != "" && x[|x| - 1] != ' '
  {
    assert IdChar(id[|id| - 1]);
  }

  /**
  With nothing or a blank in front of the parenthesis, as in "decltype (x)", the base name is not that of any plain
  function.
  */
  lemma StoppedResultNamesNobody(n: Name, symbol: Symbol)
    requires NameOk(n) && StopInResult(n).Some? && SymbolOk(symbol) && symbol.Plain?
    requires var front := StopInResult(n).value; front == "" || front[|front| - 1] == ' '
    ensures Base(Print(n)) != PrintSymbol(symbol)
  {
    var front := StopInResult(n).value;
    BaseInResult(n);
    PlainEndsInNoBlank(symbol.id, symbol.args);
    var start := LastScope(front, 0, 0, 0);
    assert start < |front| ==> front[start..][|front| - start - 1] == ' ';
  }

  lemma {:induction false} NoStopTarget(scopes: seq<Scope>, f: Function)
    requires forall s | s in scopes :: !Stops(s)
    ensures Target(scopes, f) == f && Passed(scopes) == scopes
    decreases |scopes|
  {
    if scopes != [] {
      NoStopTarget(scopes[1..], f);
    }
  }

  /**
  The base name undoes the printer: behind scopes the scan gets past, it is the printed last component, if and only
  if no return type stands in front of a name without scopes, and none has a parenthesis that stops the scan.
  */
  lemma BaseUndoesThePrinterIff(n: Name)
    requires NameOk(n) && n.f.symbol.Plain? && (forall s | s in n.scopes :: !Stops(s))
    ensures Base(Print(n)) == PrintSymbol(n.f.symbol) <==> ResultGone(n, PrintSymbol(n.f.symbol))
  {
    NoStopTarget(n.scopes, n.f);
    BaseNamesTheTargetIff(n);
  }

  // ---------- operators ----------

  /** How many braces are open before `k`. */
  function BracesBefore(x: string, k: nat): int
    requires k <= |x|
  {
    if k == 0 then 0
    else BracesBefore(x, k - 1) + (if x[k - 1] == '{' then 1 else if x[k - 1] == '}' then -1 else 0)
  }

  /** How many angle brackets are open before `k`, those inside brace blocks aside. */
  function AnglesBefore(x: string, k: nat): int
    requires k <= |x|
  {
    if k == 0 then 0
    else if BracesBefore(x, k - 1) != 0 then AnglesBefore(x, k - 1)
    else AnglesBefore(x, k - 1) + (if x[k - 1] == '<' then 1 else if x[k - 1] == '>' then -1 else 0)
  }

  lemma AtScopeMark(x: string, i: nat)
    ensures At(x, i, SCOPE) <==> i + 1 < |x| && x[i] == ':' && x[i + 1] == ':'
  {
    if At(x, i, SCOPE) {
      AtChar(x, i, SCOPE, 1);
    }
  }

  /** "::" outside angle brackets and brace blocks, from `i` on. */
  ghost predicate ScopeMarkFrom(x: string, i: nat) {
    exists k :: i <= k < |x| && At(x, k, SCOPE) && BracesBefore(x, k) == 0 && AnglesBefore(x, k) == 0
  }

  /** Up to `close` the brace block that is open at `i` stays open. */
  predicate BlockUpTo(x: string, i: nat, close: int) {
    && i <= close < |x|
    && (forall j | i <= j <= close :: BracesBefore(x, j) >= 1)
    && BracesBefore(x, close + 1) == 0 && AnglesBefore(x, close + 1) == AnglesBefore(x, i)
    && Nests(x[close + 1..], '{', '}', 0)
  }

  lemma BlockGrows(x: string, i: nat, close: nat)
    requires i < |x| && BlockUpTo(x, i + 1, close)
    requires BracesBefore(x, i) >= 1 && AnglesBefore(x, i + 1) == AnglesBefore(x, i)
    ensures BlockUpTo(x, i, close)
  {
  }

  /** One more character inside a block. */
  lemma InsideBlock(x: string, i: nat, depth: nat)
    requires i < |x| && depth >= 1 && Nests(x[i..], '{', '}', depth) && BracesBefore(x, i) == depth
    ensures var after := if x[i] == '{' then depth + 1 else if x[i] == '}' then depth - 1 else depth;
            Nests(x[i + 1..], '{', '}', after) && BracesBefore(x, i + 1) == after
    ensures AnglesBefore(x, i + 1) == AnglesBefore(x, i)
  {
    assert x[i..][1..] == x[i + 1..];
  }

  /** The bracket found for an open brace closes its block. */
  lemma {:induction false} MatchEndsBlock(x: string, i: nat, depth: nat)
    requires i <= |x| && depth >= 1 && Nests(x[i..], '{', '}', depth) && BracesBefore(x, i) == depth
    ensures var close := MatchFrom(x, i, depth, '{', '}'); close.Some? && BlockUpTo(x, i, close.value)
    decreases |x| - i
  {
    assert x[i..] != "";
    InsideBlock(x, i, depth);
    if x[i] != '}' || depth > 1 {
      var after := if x[i] == '{' then depth + 1 else if x[i] == '}' then depth - 1 else depth;
      MatchEndsBlock(x, i + 1, after);
      BlockGrows(x, i, MatchFrom(x, i + 1, after, '{', '}').value);
    }
  }

  /** A brace block holds no mark, and the second scan leaps over it. */
  lemma NoMarkInBlock(x: string, i: nat, last: nat) returns (next: nat)
    requires i < |x| && x[i] == '{' && BracesBefore(x, i) == 0 && Nests(x[i..], '{', '}', 0) && last <= |x|
    ensures i + 1 < next <= |x| && BracesBefore(x, next) == 0 && Nests(x[next..], '{', '}', 0)
    ensures ScopeMarkFrom(x, i) <==> ScopeMarkFrom(x, next)
    ensures LastScope(x, i, AnglesBefore(x, i), last) == LastScope(x, next, AnglesBefore(x, next), last)
  {
    assert x[i..][1..] == x[i + 1..];
    MatchEndsBlock(x, i + 1, 1);
    AtScopeMark(x, i);
    next := MatchFrom(x, i, 0, '{', '}').value + 1;
  }

  /** Nor is there one at any other index that is not one. */
  lemma NoMarkAt(x: string, i: nat, last: nat)
    requires i < |x| && x[i] != '{' && BracesBefore(x, i) == 0 && Nests(x[i..], '{', '}', 0) && last <= |x|
    ensures BracesBefore(x, i + 1) == 0 && Nests(x[i + 1..], '{', '}', 0)
    ensures !(At(x, i, SCOPE) && AnglesBefore(x, i) == 0) ==>
              && (ScopeMarkFrom(x, i) <==> ScopeMarkFrom(x, i + 1))
              && (i + 1 < |x| ==>
                    LastScope(x, i, AnglesBefore(x, i), last) == LastScope(x, i + 1, AnglesBefore(x, i + 1), last))
  {
    assert x[i..][0] == x[i] && x[i..][1..] == x[i + 1..];
    AtScopeMark(x, i);
  }

  lemma {:induction false} ScanFindsMarks(x: string, i: nat, last: nat)
    requires i <= |x| && last <= i + 1 && last <= |x| && BracesBefore(x, i) == 0 && Nests(x[i..], '{', '}', 0)
    ensures LastScope(x, i, AnglesBefore(x, i), last) == last <==> !ScopeMarkFrom(x, i)
    decreases |x| - i
  {
    if i + 1 >= |x| {
      return;
    }
    if x[i] == '{' {
      var next := NoMarkInBlock(x, i, last);
      ScanFindsMarks(x, next, last);
    } else {
      NoMarkAt(x, i, last);
      if At(x, i, SCOPE) && AnglesBefore(x, i) == 0 {
        ScanMoves(x, i, last);
      } else {
        ScanFindsMarks(x, i + 1, last);
      }
    }
  }

  /** At a mark the last component moves on for good. */
  lemma ScanMoves(x: string, i: nat, last: nat)
    requires At(x, i, SCOPE) && AnglesBefore(x, i) == 0 && last <= i + 1 && last <= |x|
    ensures LastScope(x, i, AnglesBefore(x, i), last) > last
  {
    AtScopeMark(x, i);
    ScanGrows(x, i + 1, AnglesBefore(x, i), i + 2);
  }

  lemma {:induction false} ScanGrows(x: string, i: nat, depth: int, last: nat)
    requires last <= i + 1 && last <= |x|
    ensures LastScope(x, i, depth, last) >= last
    decreases |x| - i
  {
    if i + 1 < |x| {
      if x[i] == '{' {
        if MatchFrom(x, i, 0, '{', '}').Some? {
          ScanGrows(x, MatchFrom(x, i, 0, '{', '}').value + 1, depth, last);
        }
      } else if x[i] == '<' {
        ScanGrows(x, i + 1, depth + 1, last);
      } else if x[i] == '>' {
        ScanGrows(x, i + 1, depth - 1, last);
      } else if x[i] == ':' && x[i + 1] == ':' && depth == 0 {
        ScanGrows(x, i + 1, depth, i + 2);
      } else {
        ScanGrows(x, i + 1, depth, last);
      }
    }
  }

  /** A parenthesis in an operator's symbol, besides the "()" of the call operator. */
  predicate ParenInside(symbol: string) {
    exists k | (if At(symbol, 0, CALL) then 2 else 0) <= k < |symbol| :: symbol[k] == '('
  }

  /**
  An operator printed behind scopes the scan gets past keeps its whole symbol if and only if there is neither a
  further parenthesis in it ("operator()<void ()>") nor a scope mark ("operator std::string").
  */
  lemma OperatorKeptIff(n: Name)
    requires NameOk(n) && n.f.symbol.Operator? && Nests(n.f.symbol.symbol, '{', '}', 0)
    requires (forall s | s in n.scopes :: !Stops(s)) && StopInResult(n) == None && (n.result == None || n.scopes != [])
    ensures Base(Print(n)) == PrintSymbol(n.f.symbol)
            <==> !ParenInside(n.f.symbol.symbol) && !ScopeMarkFrom(PrintSymbol(n.f.symbol), 0)
  {
    NoStopTarget(n.scopes, n.f);
    BaseOfPrinted(n);
    assert PrintResult(None) + Kept(n.f.symbol) == Kept(n.f.symbol);
    UnscopedOperator(n.f.symbol.symbol);
  }

  lemma {:induction false} NestsBehind(a: string, b: string)
    requires '{' !in a && '}' !in a && Nests(b, '{', '}', 0)
    ensures Nests(a + b, '{', '}', 0)
  {
    if a == "" {
      assert a + b == b;
    } else {
      NestsBehind(a[1..], b);
      assert (a + b)[1..] == a[1..] + b;
    }
  }

  lemma UnscopedOperator(symbol: string)
    requires Nests(symbol, '{', '}', 0)
    ensures Unscoped(OperatorKept(symbol)) == KEYWORD + symbol
            <==> !ParenInside(symbol) && !ScopeMarkFrom(KEYWORD + symbol, 0)
  {
    if !ParenInside(symbol) {
      assert OperatorKept(symbol) == KEYWORD + symbol;
      NestsBehind(KEYWORD, symbol);
      assert (KEYWORD + symbol)[0..] == KEYWORD + symbol;
      ScanFindsMarks(KEYWORD + symbol, 0, 0);
    } else {
      assert |OperatorKept(symbol)| < |KEYWORD + symbol|;
    }
  }

  // ---------- names the scan reads differently ----------

  /** "A::f() const::{lambda()#1}::operator()() const". */
  function LambdaInConstMember(): Name {
    Name(None, [Space("A", None), Enclosing(ConstMember()), Block("lambda()#1")],
         Function(Operator("()"), Some(Done), " const"))
  }

  function ConstMember(): Function { Function(Plain("f", None), Some(Done), " const") }

  lemma {:induction false} NestsWithout(x: string, open: char, close: char)
    requires forall k | 0 <= k < |x| :: x[k] != open && x[k] != close
    ensures Nests(x, open, close, 0)
  {
    if x != "" {
      NestsWithout(x[1..], open, close);
    }
  }

  lemma LambdaInConstMemberOk()
    ensures NameOk(LambdaInConstMember())
  {
    var n := LambdaInConstMember();
    ShortIdOk("A");
    ShortIdOk("f");
    BlockOk();
    CallOperatorOk();
    assert ScopeOk(Enclosing(ConstMember()));
    assert forall s | s in n.scopes ::
        s == Space("A", None) || s == Enclosing(ConstMember()) || s == Block("lambda()#1");
  }

  lemma BlockOk()
    ensures ScopeOk(Block("lambda()#1"))
  {
    NestsWithout("lambda()#1", '{', '}');
  }

  lemma CallOperatorOk()
    ensures FunctionOk(Function(Operator("()"), Some(Done), " const"))
  {
  }

  lemma ShortIdOk(id: string)
    requires |id| == 1 && IdChar(id[0])
    ensures IdOk(id)
  {
  }

  /** The lambda is given the name of the const member function around it. */
  lemma QualifiedHostTakesTheName()
    ensures NameOk(LambdaInConstMember()) && Base(Print(LambdaInConstMember())) == "f"
  {
    var n := LambdaInConstMember();
    LambdaInConstMemberOk();
    assert Target(n.scopes, n.f) == Target(n.scopes[1..], n.f) == ConstMember();
    BaseNamesTheTarget(n);
  }

  lemma JoinedTwice(c: char, x: string, kept: Option<string>)
    ensures Joined([c], Joined(x, kept)) == Joined([c] + x, kept)
  {
    if kept.Some? {
      assert [c] + (x + kept.value) == [c] + x + kept.value;
    }
  }

  lemma {:induction false} StopBehindLetters(x: string, t: Text)
    requires '(' !in x && Grouped(t)
    ensures Grouped(Append(Letters(x), t)) && StopIn(Append(Letters(x), t)) == Joined(x, StopIn(t))
  {
    if x == "" {
      assert StopIn(t).Some? ==> x + StopIn(t).value == StopIn(t).value;
    } else {
      StopBehindLetters(x[1..], t);
      JoinedTwice(x[0], x[1..], StopIn(t));
      assert [x[0]] + x[1..] == x;
    }
  }

  /** A word and a parenthesis: "decltype (x)". */
  function WordAndParens(front: string, inner: Text): Text {
    Append(Letters(front), Parens(inner, Done))
  }

  /** It is a return type of the grammar, and the scan stops behind the word. */
  lemma WordAndParensOk(front: string, inner: Text)
    requires '(' !in front && (forall k | 0 <= k < |front| :: !Bracket(front[k]))
    requires TextOk(inner) && Nests(PrintText(inner), '(', ')', 0)
    ensures var t := WordAndParens(front, inner);
            && TextOk(t) && PrintText(t) == front + "(" + PrintText(inner) + ")"
            && Grouped(t) && StopIn(t) == Some(front)
  {
    ParensAlone(inner);
    LettersPrint(front);
    AppendPrints(Letters(front), Parens(inner, Done));
    StopBehindLetters(front, Parens(inner, Done));
    Assoc(front, "(" + PrintText(inner), ")");
    Assoc(front, "(", PrintText(inner));
    assert front + "" == front;
  }

  lemma ParensAlone(inner: Text)
    ensures PrintText(Parens(inner, Done)) == "(" + PrintText(inner) + ")" && StopIn(Parens(inner, Done)) == Some("")
  {
    assert PrintText(Done) == "";
    assert "(" + PrintText(inner) + ")" + "" == "(" + PrintText(inner) + ")";
  }

  /**
  "decltype (x) n::f()": whatever function stands behind a return type that is a word and a parenthesis, the word is
  what it is given as its name.
  */
  lemma WordOfTheResultIsTheName(n: Name, front: string, inner: Text)
    requires NameOk(n) && n.result == Some(WordAndParens(front, inner))
    requires '(' !in front && ':' !in front && Nests(PrintText(inner), '(', ')', 0)
    ensures Base(Print(n)) == front
  {
    ParensAlone(inner);
    StopBehindLetters(front, Parens(inner, Done));
    assert front + "" == front;
    BaseInResult(n);
    ScanEndsBehindColon(front, 0, 0, 0);
  }

  /** A stretch without marks has none for whatever was found before it. */
  lemma {:induction false} NoMarkHere(x: string, i: nat, depth: int, a: nat, b: nat)
    requires a <= i + 1 && a <= |x| && b <= |x| && LastScope(x, i, depth, a) == a
    ensures LastScope(x, i, depth, b) == b
    decreases |x| - i
  {
    if i + 1 < |x| {
      if x[i] == '{' {
        if MatchFrom(x, i, 0, '{', '}').Some? {
          NoMarkHere(x, MatchFrom(x, i, 0, '{', '}').value + 1, depth, a, b);
        }
      } else if x[i] == '<' {
        NoMarkHere(x, i + 1, depth + 1, a, b);
      } else if x[i] == '>' {
        NoMarkHere(x, i + 1, depth - 1, a, b);
      } else if x[i] == ':' && x[i + 1] == ':' && depth == 0 {
        ScanGrows(x, i + 1, depth, i + 2);
      } else {
        NoMarkHere(x, i + 1, depth, a, b);
      }
    }
  }

  /** One component at the end of a name moves nothing found before it. */
  lemma OneComponentAtEnd(x: string, start: nat, last: nat)
    requires start <= |x| && last <= |x| && LastScope(x[start..], 0, 0, 0) == 0
    ensures LastScope(x, start, 0, last) == last
  {
    ScanShift(x, start, 0, 0, 0);
    NoMarkHere(x, start, 0, start, last);
  }

  lemma ScanPastResult(x: string, t: Text) returns (r: nat)
    requires TextOk(t) && At(x, 0, PrintText(t)) && |PrintText(t)| < |x| && x[|PrintText(t)|] == ' '
    ensures r <= |PrintText(t)| + 1 <= |x| && LastScope(x, 0, 0, 0) == LastScope(x, |PrintText(t)| + 1, 0, r)
  {
    r := ScanPastText(x, 0, t, 0, 0);
    assert LastScope(x, |PrintText(t)|, 0, r) == LastScope(x, |PrintText(t)| + 1, 0, r);
  }

  /** In a type, a blank and one component the last component starts in the type. */
  lemma LastScopeInResult(t: Text, kept: string) returns (r: nat)
    requires TextOk(t) && LastScope(kept, 0, 0, 0) == 0
    ensures r == LastScope(PrintText(t) + " " + kept, 0, 0, 0) <= |PrintText(t)| + 1
  {
    var x := PrintText(t) + " " + kept;
    assert x[|PrintText(t)| + 1..] == kept;
    r := ScanPastResult(x, t);
    OneComponentAtEnd(x, |PrintText(t)| + 1, r);
  }

  /**
  "void foo<int>(int)": with no scope behind it the return type of a function stays in front, at most without its
  own scopes.
  */
  lemma ReturnTypeStays(n: Name) returns (r: nat)
    requires NameOk(n) && n.result.Some? && StopInResult(n) == None
    requires Passed(n.scopes) == [] && Target(n.scopes, n.f).symbol.Plain?
    ensures r <= |PrintText(n.result.value)| && (r > 0 ==> PrintResult(n.result)[r - 1] == ':')
    ensures Base(Print(n)) == PrintResult(n.result)[r..] + PrintSymbol(Target(n.scopes, n.f).symbol)
  {
    var symbol := Target(n.scopes, n.f).symbol;
    TargetIsFinal(n.scopes, n.f);
    BaseOfPrinted(n);
    PlainIsOneComponent(symbol.id, symbol.args);
    r := UnscopedResult(n.result.value, PrintSymbol(symbol));
  }

  lemma UnscopedResult(t: Text, kept: string) returns (r: nat)
    requires TextOk(t) && LastScope(kept, 0, 0, 0) == 0
    ensures r <= |PrintText(t)| && (r > 0 ==> (PrintText(t) + " ")[r - 1] == ':')
    ensures Unscoped(PrintText(t) + " " + kept) == (PrintText(t) + " ")[r..] + kept
  {
    var x := PrintText(t) + " " + kept;
    r := LastScopeInResult(t, kept);
    ScanEndsBehindColon(x, 0, 0, 0);
    assert x[|PrintText(t)|] == ' ';
    assert x[r..] == (PrintText(t) + " ")[r..] + kept;
  }

  // ---------- texts that end in the middle ----------

  lemma {:induction false} NeverMatched(name: string, i: nat, depth: int, open: char, close: char)
    requires forall k | i <= k < |name| :: name[k] != close
    ensures MatchFrom(name, i, depth, open, close).None?
    decreases |name| - i
  {
    if i < |name| {
      NeverMatched(name, i + 1, if name[i] == open then depth + 1 else depth, open, close);
    }
  }

  lemma FrontPasses(name: string, front: Text, rest: string)
    requires TextOk(front) && Passes(front) && name == PrintText(front) + rest
    requires NoKeywordIn(name, 0, |PrintText(front)|)
    ensures CutAt(name, 0, 0) == CutAt(name, |PrintText(front)|, 0)
  {
    assert At(name, 0, PrintText(front));
    CutPastText(name, 0, front, 0);
  }

  /** A brace that nothing closes hides nothing: the scan keeps the whole text. */
  lemma UnclosedBraceKeepsAll(front: Text, rest: string)
    requires TextOk(front) && Passes(front) && '}' !in rest
    requires NoKeywordIn(PrintText(front) + ("{" + rest), 0, |PrintText(front)|)
    ensures Base(PrintText(front) + ("{" + rest)) == Unscoped(PrintText(front) + ("{" + rest))
  {
    var name := PrintText(front) + ("{" + rest);
    FrontPasses(name, front, "{" + rest);
    NeverMatched(name, |PrintText(front)|, 0, '{', '}');
    assert name[..|name|] == name;
  }

  /** A parenthesis that nothing closes ends the name as a parameter list does. */
  lemma UnclosedParenIsCut(front: Text, rest: string)
    requires TextOk(front) && Passes(front) && ')' !in rest
    requires NoKeywordIn(PrintText(front) + ("(" + rest), 0, |PrintText(front)| + 1)
    ensures Base(PrintText(front) + ("(" + rest)) == Unscoped(PrintText(front))
  {
    var name := PrintText(front) + ("(" + rest);
    FrontPasses(name, front, "(" + rest);
    NeverMatched(name, |PrintText(front)|, 0, '(', ')');
    assert name[..|PrintText(front)|] == PrintText(front);
  }
}
