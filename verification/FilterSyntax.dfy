/** The filter language: tokens, syntax trees, what the recursive-descent parser accepts, and the
    parser object that advances over a token buffer. */
module FilterSyntax {
  import opened Values

  const MAXIMUM_FILTER_DEPTH := 32

  datatype Token = End | Word(text: string) | Literal(value: Value)
                 | LeftParen | RightParen | LeftBracket | RightBracket

  datatype Filter =
    | And(left: Filter, right: Filter)
    | Or(left: Filter, right: Filter)
    | Not(child: Filter)
    | ValuePath(attribute: string, child: Filter)
    | Present(attribute: string)
    | Compare(operator: string, attribute: string, value: Value)

  /** Case folding for keywords, lower-casing for operators, and the depth limit. */
  datatype Words = Words(fold: string -> string, lower: string -> string, limit: nat)

  const COMPARISONS := ["eq", "ne", "co", "sw", "ew", "gt", "ge", "lt", "le"]

  // ---------- concrete syntax: "or" binds weakest, "not" strongest, both chains lean left ----------

  datatype OrTree = OneAnd(only: AndTree) | OrMore(left: OrTree, word: string, right: AndTree)

  datatype AndTree = OneUnary(only: UnaryTree) | AndMore(left: AndTree, word: string, right: UnaryTree)

  datatype UnaryTree = Negated(word: string, child: OrTree) | Grouped(child: OrTree) | Plain(attribute: AttributeTree)

  datatype AttributeTree =
    | Bracketed(name: string, child: OrTree)
    | Presence(name: string, operator: string)
    | Comparison(name: string, operator: string, value: Value)

  function OrAst(lower: string -> string, t: OrTree): Filter {
    match t
    case OneAnd(a) => AndAst(lower, a)
    case OrMore(left, _, right) => Or(OrAst(lower, left), AndAst(lower, right))
  }

  function AndAst(lower: string -> string, t: AndTree): Filter {
    match t
    case OneUnary(u) => UnaryAst(lower, u)
    case AndMore(left, _, right) => And(AndAst(lower, left), UnaryAst(lower, right))
  }

  function UnaryAst(lower: string -> string, t: UnaryTree): Filter {
    match t
    case Negated(_, child) => Not(OrAst(lower, child))
    case Grouped(child) => OrAst(lower, child)
    case Plain(a) => AttributeAst(lower, a)
  }

  function AttributeAst(lower: string -> string, t: AttributeTree): Filter {
    match t
    case Bracketed(name, child) => ValuePath(name, OrAst(lower, child))
    case Presence(name, _) => Present(name)
    case Comparison(name, operator, value) => Compare(lower(operator), name, value)
  }

  // ---------- the parser as a function of the remaining tokens ----------

  datatype Parsed<T> = Failure | Success(value: T, rest: seq<Token>)

  /** Token buffers end with the end token and contain it nowhere else. */
  ghost predicate Terminated(ts: seq<Token>) {
    |ts| > 0 && ts[|ts| - 1].End? && forall i | 0 <= i < |ts| - 1 :: !ts[i].End?
  }

  predicate IsWord(w: Words, t: Token, keyword: string) {
    t.Word? && w.fold(t.text) == w.fold(keyword)
  }

  function ParseOr(w: Words, ts: seq<Token>, depth: nat): (r: Parsed<OrTree>)
    requires Terminated(ts)
    ensures r.Success? ==> Terminated(r.rest) && |r.rest| < |ts|
    decreases |ts|, 4
  {
    match ParseAnd(w, ts, depth + 1)
    case Failure => Failure
    case Success(left, rest) => OrLoop(w, OneAnd(left), rest, depth)
  }

  function OrLoop(w: Words, left: OrTree, ts: seq<Token>, depth: nat): (r: Parsed<OrTree>)
    requires Terminated(ts)
    ensures r.Success? ==> Terminated(r.rest) && |r.rest| <= |ts|
    decreases |ts|, 0
  {
    if !IsWord(w, ts[0], "or") then Success(left, ts)
    else
      match ParseAnd(w, ts[1..], depth + 1)
      case Failure => Failure
      case Success(right, rest) => OrLoop(w, OrMore(left, ts[0].text, right), rest, depth)
  }

  function ParseAnd(w: Words, ts: seq<Token>, depth: nat): (r: Parsed<AndTree>)
    requires Terminated(ts)
    ensures r.Success? ==> Terminated(r.rest) && |r.rest| < |ts|
    decreases |ts|, 3
  {
    match ParseUnary(w, ts, depth + 1)
    case Failure => Failure
    case Success(left, rest) => AndLoop(w, OneUnary(left), rest, depth)
  }

  function AndLoop(w: Words, left: AndTree, ts: seq<Token>, depth: nat): (r: Parsed<AndTree>)
    requires Terminated(ts)
    ensures r.Success? ==> Terminated(r.rest) && |r.rest| <= |ts|
    decreases |ts|, 0
  {
    if !IsWord(w, ts[0], "and") then Success(left, ts)
    else
      match ParseUnary(w, ts[1..], depth + 1)
      case Failure => Failure
      case Success(right, rest) => AndLoop(w, AndMore(left, ts[0].text, right), rest, depth)
  }

  function ParseUnary(w: Words, ts: seq<Token>, depth: nat): (r: Parsed<UnaryTree>)
    requires Terminated(ts)
    ensures r.Success? ==> Terminated(r.rest) && |r.rest| < |ts|
    decreases |ts|, 2
  {
    if depth > w.limit then Failure
    else if IsWord(w, ts[0], "not") then
      if !ts[1].LeftParen? then Failure
      else
        match ParseOr(w, ts[2..], depth + 1)
        case Failure => Failure
        case Success(child, rest) =>
          if !rest[0].RightParen? then Failure else Success(Negated(ts[0].text, child), rest[1..])
    else if ts[0].LeftParen? then
      match ParseOr(w, ts[1..], depth + 1)
      case Failure => Failure
      case Success(child, rest) =>
        if !rest[0].RightParen? then Failure else Success(Grouped(child), rest[1..])
    else
      match ParseAttribute(w, ts, depth + 1)
      case Failure => Failure
      case Success(a, rest) => Success(Plain(a), rest)
  }

  function ParseAttribute(w: Words, ts: seq<Token>, depth: nat): (r: Parsed<AttributeTree>)
    requires Terminated(ts)
    ensures r.Success? ==> Terminated(r.rest) && |r.rest| < |ts|
    decreases |ts|, 1
  {
    if depth > w.limit || !ts[0].Word? then Failure
    else if ts[1].LeftBracket? then
      match ParseOr(w, ts[2..], depth + 1)
      case Failure => Failure
      case Success(child, rest) =>
        if !rest[0].RightBracket? then Failure else Success(Bracketed(ts[0].text, child), rest[1..])
    else if !ts[1].Word? then Failure
    else if w.lower(ts[1].text) == "pr" then Success(Presence(ts[0].text, ts[1].text), ts[2..])
    else if w.lower(ts[1].text) !in COMPARISONS || !ts[2].Literal? then Failure
    else Success(Comparison(ts[0].text, ts[1].text, ts[2].value), ts[3..])
  }

  /** A whole filter: one expression and then the end. */
  function ParseTree(w: Words, ts: seq<Token>): Option<OrTree>
    requires Terminated(ts)
  {
    match ParseOr(w, ts, 0)
    case Failure => None
    case Success(tree, rest) => if rest[0].End? then Some(tree) else None
  }

  function ParseFilter(w: Words, ts: seq<Token>): Option<Filter>
    requires Terminated(ts)
  {
    match ParseTree(w, ts) case None => None case Some(tree) => Some(OrAst(w.lower, tree))
  }

  // ---------- the parser object ----------

  class FilterParser {
    const tokens: seq<Token>
    const words: Words
    var index: nat

    constructor (words: Words, tokens: seq<Token>)
      requires Terminated(tokens)
      ensures Valid() && this.words == words && this.tokens == tokens && index == 0
    {
      this.words, this.tokens, index := words, tokens, 0;
    }

    ghost predicate Valid()
      reads this
    {
      Terminated(tokens) && index < |tokens|
    }

    function Rest(): (ts: seq<Token>)
      requires Valid()
      reads this
      ensures Terminated(ts)
    {
      tokens[index..]
    }

    function Peek(): Token
      requires Valid()
      reads this
    {
      tokens[index]
    }

    /** The end token is never passed. */
    method Take() returns (t: Token)
      requires Valid()
      modifies this
      ensures Valid() && t == old(Peek())
      ensures index == if t.End? then old(index) else old(index) + 1
      ensures !t.End? ==> Rest() == old(Rest())[1..]
    {
      t := tokens[index];
      if index < |tokens| - 1 {
        index := index + 1;
      }
    }

    method Or(depth: nat) returns (r: Option<Filter>)
      requires Valid()
      modifies this
      ensures Valid()
      ensures match ParseOr(words, old(Rest()), depth)
              case Failure => r == None
              case Success(tree, rest) => r == Some(OrAst(words.lower, tree)) && Rest() == rest
      decreases |tokens| - index, 5
    {
      hide ParseAnd, AndAst;
      var left := And(depth + 1);
      if left.None? {
        return None;
      }
      ghost var start := old(Rest());
      ghost var first := ParseAnd(words, start, depth + 1);
      ghost var tree := OneAnd(first.value);
      while IsWord(words, Peek(), "or")
        invariant Valid() && old(index) < index
        invariant left == Some(OrAst(words.lower, tree))
        invariant ParseOr(words, start, depth) == OrLoop(words, tree, Rest(), depth)
        decreases |tokens| - index
      {
        ghost var before := Rest();
        var word := Take();
        var right := And(depth + 1);
        if right.None? {
          return None;
        }
        tree := OrMore(tree, word.text, ParseAnd(words, before[1..], depth + 1).value);
        left := Some(Filter.Or(left.value, right.value));
      }
      return left;
    }

    method And(depth: nat) returns (r: Option<Filter>)
      requires Valid()
      modifies this
      ensures Valid()
      ensures match ParseAnd(words, old(Rest()), depth)
              case Failure => r == None
              case Success(tree, rest) => r == Some(AndAst(words.lower, tree)) && Rest() == rest
      decreases |tokens| - index, 4
    {
      hide ParseUnary, UnaryAst;
      var left := Unary(depth + 1);
      if left.None? {
        return None;
      }
      ghost var start := old(Rest());
      ghost var first := ParseUnary(words, start, depth + 1);
      ghost var tree := OneUnary(first.value);
      while IsWord(words, Peek(), "and")
        invariant Valid() && old(index) < index
        invariant left == Some(AndAst(words.lower, tree))
        invariant ParseAnd(words, start, depth) == AndLoop(words, tree, Rest(), depth)
        decreases |tokens| - index
      {
        ghost var before := Rest();
        var word := Take();
        var right := Unary(depth + 1);
        if right.None? {
          return None;
        }
        tree := AndMore(tree, word.text, ParseUnary(words, before[1..], depth + 1).value);
        left := Some(Filter.And(left.value, right.value));
      }
      return left;
    }

    /** An expression and the token that closes it. */
    method Nested(depth: nat, close: Token) returns (r: Option<Filter>)
      requires Valid() && !close.End?
      modifies this
      ensures Valid()
      ensures match ParseOr(words, old(Rest()), depth)
              case Failure => r == None
              case Success(tree, rest) =>
                if rest[0] == close then r == Some(OrAst(words.lower, tree)) && Rest() == rest[1..] else r == None
      decreases |tokens| - index, 6
    {
      hide ParseOr, OrAst;
      r := Or(depth);
      if r.Some? {
        var token := Take();
        if token != close {
          r := None;
        }
      }
    }

    /** "not" and its parenthesised operand. */
    method Negation(depth: nat) returns (r: Option<Filter>)
      requires Valid() && depth <= words.limit && IsWord(words, Peek(), "not")
      modifies this
      ensures Valid()
      ensures match ParseUnary(words, old(Rest()), depth)
              case Failure => r == None
              case Success(tree, rest) => r == Some(UnaryAst(words.lower, tree)) && Rest() == rest
      decreases |tokens| - index, 2
    {
      hide ParseOr, ParseAttribute, OrAst, AttributeAst;
      var _ := Take();
      var open := Take();
      if !open.LeftParen? {
        return None;
      }
      assert Rest() == old(Rest())[2..];
      var child := Nested(depth + 1, RightParen);
      r := if child.Some? then Some(Not(child.value)) else None;
    }

    method Unary(depth: nat) returns (r: Option<Filter>)
      requires Valid()
      modifies this
      ensures Valid()
      ensures match ParseUnary(words, old(Rest()), depth)
              case Failure => r == None
              case Success(tree, rest) => r == Some(UnaryAst(words.lower, tree)) && Rest() == rest
      decreases |tokens| - index, 3
    {
      hide ParseOr, ParseAttribute, OrAst, AttributeAst;
      if depth > words.limit {
        return None;
      }
      if IsWord(words, Peek(), "not") {
        r := Negation(depth);
        return;
      }
      if Peek().LeftParen? {
        var _ := Take();
        r := Nested(depth + 1, RightParen);
        return;
      }
      r := Attribute(depth + 1);
    }

    method Attribute(depth: nat) returns (r: Option<Filter>)
      requires Valid()
      modifies this
      ensures Valid()
      ensures match ParseAttribute(words, old(Rest()), depth)
              case Failure => r == None
              case Success(tree, rest) => r == Some(AttributeAst(words.lower, tree)) && Rest() == rest
      decreases |tokens| - index, 1
    {
      hide ParseOr, OrAst;
      ghost var start := Rest();
      if depth > words.limit || !Peek().Word? {
        return None;
      }
      var name := Take();
      if Peek().LeftBracket? {
        var _ := Take();
        assert Rest() == start[2..];
        var child := Nested(depth + 1, RightBracket);
        return if child.Some? then Some(ValuePath(name.text, child.value)) else None;
      }
      r := Test(name.text, start, depth);
    }

    /** The operator behind an attribute name, and the value behind the operator. */
    method Test(name: string, ghost start: seq<Token>, depth: nat) returns (r: Option<Filter>)
      requires Valid() && Terminated(start) && start[0] == Word(name) && Rest() == start[1..]
      requires depth <= words.limit && !start[1].LeftBracket?
      modifies this
      ensures Valid()
      ensures match ParseAttribute(words, start, depth)
              case Failure => r == None
              case Success(tree, rest) => r == Some(AttributeAst(words.lower, tree)) && Rest() == rest
    {
      hide ParseOr, OrAst;
      if !Peek().Word? {
        return None;
      }
      var operator := Take();
      assert Rest() == start[2..];
      if words.lower(operator.text) == "pr" {
        return Some(Present(name));
      }
      if words.lower(operator.text) !in COMPARISONS {
        return None;
      }
      var value := Take();
      if !value.Literal? {
        return None;
      }
      assert Rest() == start[3..];
      return Some(Compare(words.lower(operator.text), name, value.value));
    }
  }

  /** Parses a whole token buffer within the depth limit of the server. */
  method Parse(fold: string -> string, lower: string -> string, tokens: seq<Token>) returns (r: Option<Filter>)
    requires Terminated(tokens)
    ensures r == ParseFilter(Words(fold, lower, MAXIMUM_FILTER_DEPTH), tokens)
  {
    var words := Words(fold, lower, MAXIMUM_FILTER_DEPTH);
    var parser := new FilterParser(words, tokens);
    assert parser.Rest() == tokens;
    r := parser.Or(0);
    if r.Some? && !parser.Peek().End? {
      r := None;
    }
  }
}
