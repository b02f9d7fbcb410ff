/** The parser accepts exactly the filter grammar within its depth budget, and reads back what is printed. */
module FilterGrammar {
  import opened Values
  import opened FilterSyntax

  // ---------- the grammar ----------

  /** The tokens a tree spells. */
  function OrYield(t: OrTree): seq<Token> {
    match t
    case OneAnd(a) => AndYield(a)
    case OrMore(left, word, right) => OrYield(left) + [Word(word)] + AndYield(right)
  }

  function AndYield(t: AndTree): seq<Token> {
    match t
    case OneUnary(u) => UnaryYield(u)
    case AndMore(left, word, right) => AndYield(left) + [Word(word)] + UnaryYield(right)
  }

  function UnaryYield(t: UnaryTree): seq<Token> {
    match t
    case Negated(word, child) => [Word(word), LeftParen] + OrYield(child) + [RightParen]
    case Grouped(child) => [LeftParen] + OrYield(child) + [RightParen]
    case Plain(a) => AttributeYield(a)
  }

  function AttributeYield(t: AttributeTree): seq<Token> {
    match t
    case Bracketed(name, child) => [Word(name), LeftBracket] + OrYield(child) + [RightBracket]
    case Presence(name, operator) => [Word(name), Word(operator)]
    case Comparison(name, operator, value) => [Word(name), Word(operator), Literal(value)]
  }

  /** Keywords are where the grammar wants them, and no attribute is spelled "not". */
  predicate OrWellFormed(w: Words, t: OrTree) {
    match t
    case OneAnd(a) => AndWellFormed(w, a)
    case OrMore(left, word, right) => OrWellFormed(w, left) && w.fold(word) == w.fold("or") && AndWellFormed(w, right)
  }

  predicate AndWellFormed(w: Words, t: AndTree) {
    match t
    case OneUnary(u) => UnaryWellFormed(w, u)
    case AndMore(left, word, right) =>
      AndWellFormed(w, left) && w.fold(word) == w.fold("and") && UnaryWellFormed(w, right)
  }

  predicate UnaryWellFormed(w: Words, t: UnaryTree) {
    match t
    case Negated(word, child) => w.fold(word) == w.fold("not") && OrWellFormed(w, child)
    case Grouped(child) => OrWellFormed(w, child)
    case Plain(a) => AttributeWellFormed(w, a)
  }

  predicate AttributeWellFormed(w: Words, t: AttributeTree) {
    && w.fold(t.name) != w.fold("not")
    && match t
       case Bracketed(_, child) => OrWellFormed(w, child)
       case Presence(_, operator) => w.lower(operator) == "pr"
       case Comparison(_, operator, _) =>
         w.lower(operator) != "pr" && w.lower(operator) in ["eq", "ne", "co", "sw", "ew", "gt", "ge", "lt", "le"]
  }

  function Max(a: nat, b: nat): nat { if a < b then b else a }

  /** The largest weight of an attribute: three for each group or negation around it and four
      for each bracket. */
  function OrWeight(t: OrTree): nat {
    match t
    case OneAnd(a) => AndWeight(a)
    case OrMore(left, _, right) => Max(OrWeight(left), AndWeight(right))
  }

  function AndWeight(t: AndTree): nat {
    match t
    case OneUnary(u) => UnaryWeight(u)
    case AndMore(left, _, right) => Max(AndWeight(left), UnaryWeight(right))
  }

  function UnaryWeight(t: UnaryTree): nat {
    match t
    case Negated(_, child) => 3 + OrWeight(child)
    case Grouped(child) => 3 + OrWeight(child)
    case Plain(a) => AttributeWeight(a)
  }

  function AttributeWeight(t: AttributeTree): nat {
    match t
    case Bracketed(_, child) => 4 + OrWeight(child)
    case _ => 0
  }

  predicate Sentence(w: Words, t: OrTree) {
    OrWellFormed(w, t) && 3 + OrWeight(t) <= w.limit
  }

  // ---------- the parser only accepts sentences ----------

  lemma {:induction false} ParseOrIsSound(w: Words, ts: seq<Token>, depth: nat)
    requires Terminated(ts) && ParseOr(w, ts, depth).Success?
    ensures var r := ParseOr(w, ts, depth);
      && ts == OrYield(r.value) + r.rest && OrWellFormed(w, r.value)
      && depth + 3 + OrWeight(r.value) <= w.limit
    decreases |ts|, 4
  {
    ParseAndIsSound(w, ts, depth + 1);
    var first := ParseAnd(w, ts, depth + 1);
    OrLoopIsSound(w, OneAnd(first.value), first.rest, depth);
  }

  lemma {:induction false} OrLoopIsSound(w: Words, left: OrTree, ts: seq<Token>, depth: nat)
    requires Terminated(ts) && OrLoop(w, left, ts, depth).Success?
    requires OrWellFormed(w, left) && depth + 3 + OrWeight(left) <= w.limit
    ensures var r := OrLoop(w, left, ts, depth);
      && OrYield(left) + ts == OrYield(r.value) + r.rest && OrWellFormed(w, r.value)
      && depth + 3 + OrWeight(r.value) <= w.limit
    decreases |ts|, 0
  {
    hide ParseAnd, AndYield, AndWellFormed, AndWeight;
    if IsWord(w, ts[0], "or") {
      ParseAndIsSound(w, ts[1..], depth + 1);
      var next := ParseAnd(w, ts[1..], depth + 1);
      var more := OrMore(left, ts[0].text, next.value);
      assert OrYield(left) + ts == OrYield(more) + next.rest by {
        assert ts == [Word(ts[0].text)] + ts[1..];
      }
      OrLoopIsSound(w, more, next.rest, depth);
    }
  }

  lemma {:induction false} ParseAndIsSound(w: Words, ts: seq<Token>, depth: nat)
    requires Terminated(ts) && ParseAnd(w, ts, depth).Success?
    ensures var r := ParseAnd(w, ts, depth);
      && ts == AndYield(r.value) + r.rest && AndWellFormed(w, r.value)
      && depth + 2 + AndWeight(r.value) <= w.limit
    decreases |ts|, 3
  {
    ParseUnaryIsSound(w, ts, depth + 1);
    var first := ParseUnary(w, ts, depth + 1);
    AndLoopIsSound(w, OneUnary(first.value), first.rest, depth);
  }

  lemma {:induction false} AndLoopIsSound(w: Words, left: AndTree, ts: seq<Token>, depth: nat)
    requires Terminated(ts) && AndLoop(w, left, ts, depth).Success?
    requires AndWellFormed(w, left) && depth + 2 + AndWeight(left) <= w.limit
    ensures var r := AndLoop(w, left, ts, depth);
      && AndYield(left) + ts == AndYield(r.value) + r.rest && AndWellFormed(w, r.value)
      && depth + 2 + AndWeight(r.value) <= w.limit
    decreases |ts|, 0
  {
    hide ParseUnary, UnaryYield, UnaryWellFormed, UnaryWeight;
    if IsWord(w, ts[0], "and") {
      ParseUnaryIsSound(w, ts[1..], depth + 1);
      var next := ParseUnary(w, ts[1..], depth + 1);
      var more := AndMore(left, ts[0].text, next.value);
      assert AndYield(left) + ts == AndYield(more) + next.rest by {
        assert ts == [Word(ts[0].text)] + ts[1..];
      }
      AndLoopIsSound(w, more, next.rest, depth);
    }
  }

  lemma {:induction false} ParseUnaryIsSound(w: Words, ts: seq<Token>, depth: nat)
    requires Terminated(ts) && ParseUnary(w, ts, depth).Success?
    ensures var r := ParseUnary(w, ts, depth);
      && ts == UnaryYield(r.value) + r.rest && UnaryWellFormed(w, r.value)
      && depth + 1 + UnaryWeight(r.value) <= w.limit
    decreases |ts|, 2
  {
    hide OrWellFormed, OrWeight, OrYield, ParseOr, ParseAttribute, AttributeWellFormed, AttributeWeight, AttributeYield;
    if IsWord(w, ts[0], "not") {
      InsideIsSound(w, ts, 2, depth + 1);
      assert ts[..2] == [Word(ts[0].text), LeftParen];
    } else if ts[0].LeftParen? {
      InsideIsSound(w, ts, 1, depth + 1);
      assert ts[..1] == [LeftParen];
    } else {
      ParseAttributeIsSound(w, ts, depth + 1);
    }
  }

  /** A nested expression and the closing token behind it. */
  lemma {:induction false} InsideIsSound(w: Words, ts: seq<Token>, n: nat, depth: nat)
    requires n < |ts| && n > 0 && Terminated(ts) && Terminated(ts[n..])
    requires ParseOr(w, ts[n..], depth).Success?
    ensures var r := ParseOr(w, ts[n..], depth);
      && |r.rest| > 0 && ts == ts[..n] + OrYield(r.value) + [r.rest[0]] + r.rest[1..]
      && OrWellFormed(w, r.value) && depth + 3 + OrWeight(r.value) <= w.limit
    decreases |ts|, 0
  {
    ParseOrIsSound(w, ts[n..], depth);
    assert ts == ts[..n] + ts[n..];
  }

  lemma {:induction false} ParseAttributeIsSound(w: Words, ts: seq<Token>, depth: nat)
    requires Terminated(ts) && ParseAttribute(w, ts, depth).Success? && !IsWord(w, ts[0], "not")
    ensures var r := ParseAttribute(w, ts, depth);
      && ts == AttributeYield(r.value) + r.rest && AttributeWellFormed(w, r.value)
      && depth + AttributeWeight(r.value) <= w.limit
    decreases |ts|, 1
  {
    if ts[1].LeftBracket? {
      InsideIsSound(w, ts, 2, depth + 1);
      assert ts[..2] == [Word(ts[0].text), LeftBracket];
    } else if w.lower(ts[1].text) == "pr" {
      assert ts == [Word(ts[0].text), Word(ts[1].text)] + ts[2..];
    } else {
      assert ts == [Word(ts[0].text), Word(ts[1].text), Literal(ts[2].value)] + ts[3..];
    }
  }

  // ---------- the parser accepts every sentence ----------

  lemma YieldsHaveNoEnd(t: OrTree)
    ensures forall x | x in OrYield(t) :: !x.End?
    decreases t, 0
  {
    match t
    case OneAnd(a) => AndYieldsHaveNoEnd(a);
    case OrMore(left, _, right) =>
      YieldsHaveNoEnd(left);
      AndYieldsHaveNoEnd(right);
  }

  lemma AndYieldsHaveNoEnd(t: AndTree)
    ensures forall x | x in AndYield(t) :: !x.End?
    decreases t, 0
  {
    match t
    case OneUnary(u) => UnaryYieldsHaveNoEnd(u);
    case AndMore(left, _, right) =>
      AndYieldsHaveNoEnd(left);
      UnaryYieldsHaveNoEnd(right);
  }

  lemma UnaryYieldsHaveNoEnd(t: UnaryTree)
    ensures forall x | x in UnaryYield(t) :: !x.End?
    decreases t, 0
  {
    match t
    case Negated(_, child) => YieldsHaveNoEnd(child);
    case Grouped(child) => YieldsHaveNoEnd(child);
    case Plain(Bracketed(_, child)) => YieldsHaveNoEnd(child);
    case Plain(_) =>
  }

  lemma Prepend(front: seq<Token>, ts: seq<Token>)
    requires Terminated(ts) && forall x | x in front :: !x.End?
    ensures Terminated(front + ts)
  {
    forall i | 0 <= i < |front + ts| - 1
      ensures !(front + ts)[i].End?
    {
      if i < |front| {
        assert front[i] in front;
      }
    }
  }

  /** Keywords do not coincide. */
  predicate DistinctKeywords(w: Words) {
    w.fold("and") != w.fold("or")
  }

  lemma {:induction false} ParsesOr(w: Words, t: OrTree, rest: seq<Token>, depth: nat)
    requires DistinctKeywords(w) && OrWellFormed(w, t) && depth + 3 + OrWeight(t) <= w.limit
    requires Terminated(rest) && !IsWord(w, rest[0], "and")
    ensures Terminated(OrYield(t) + rest)
    ensures ParseOr(w, OrYield(t) + rest, depth) == OrLoop(w, t, rest, depth)
    decreases t, 2
  {
    hide ParseAnd, AndYield, AndWellFormed, AndWeight;
    YieldsHaveNoEnd(t);
    Prepend(OrYield(t), rest);
    match t
    case OneAnd(a) =>
      ParsesAnd(w, a, rest, depth + 1);
    case OrMore(left, word, right) =>
      var tail := AndYield(right) + rest;
      AndYieldsHaveNoEnd(right);
      Prepend(AndYield(right), rest);
      Prepend([Word(word)], tail);
      ParsesOr(w, left, [Word(word)] + tail, depth);
      assert OrYield(t) + rest == OrYield(left) + ([Word(word)] + tail);
      assert ([Word(word)] + tail)[1..] == tail;
      ParsesAnd(w, right, rest, depth + 1);
  }

  lemma {:induction false} ParsesAnd(w: Words, t: AndTree, rest: seq<Token>, depth: nat)
    requires DistinctKeywords(w) && AndWellFormed(w, t) && depth + 2 + AndWeight(t) <= w.limit
    requires Terminated(rest)
    ensures Terminated(AndYield(t) + rest)
    ensures ParseAnd(w, AndYield(t) + rest, depth) == AndLoop(w, t, rest, depth)
    ensures !IsWord(w, rest[0], "and") ==> ParseAnd(w, AndYield(t) + rest, depth) == Success(t, rest)
    decreases t, 2
  {
    hide ParseUnary, UnaryYield, UnaryWellFormed, UnaryWeight;
    AndYieldsHaveNoEnd(t);
    Prepend(AndYield(t), rest);
    match t
    case OneUnary(u) =>
      ParsesUnary(w, u, rest, depth + 1);
    case AndMore(left, word, right) =>
      var tail := UnaryYield(right) + rest;
      UnaryYieldsHaveNoEnd(right);
      Prepend(UnaryYield(right), rest);
      Prepend([Word(word)], tail);
      ParsesAnd(w, left, [Word(word)] + tail, depth);
      assert AndYield(t) + rest == AndYield(left) + ([Word(word)] + tail);
      assert ([Word(word)] + tail)[1..] == tail;
      ParsesUnary(w, right, rest, depth + 1);
  }

  lemma {:induction false} ParsesUnary(w: Words, t: UnaryTree, rest: seq<Token>, depth: nat)
    requires DistinctKeywords(w) && UnaryWellFormed(w, t) && depth + 1 + UnaryWeight(t) <= w.limit
    requires Terminated(rest)
    ensures Terminated(UnaryYield(t) + rest)
    ensures ParseUnary(w, UnaryYield(t) + rest, depth) == Success(t, rest)
    decreases t, 2
  {
    hide ParseOr, OrYield, OrWellFormed, OrWeight, ParseAttribute;
    UnaryYieldsHaveNoEnd(t);
    var ts := UnaryYield(t) + rest;
    Prepend(UnaryYield(t), rest);
    match t
    case Negated(word, child) =>
      ParsesInside(w, child, RightParen, rest, depth + 1);
      assert ts[2..] == OrYield(child) + ([RightParen] + rest);
      assert ([RightParen] + rest)[1..] == rest;
    case Grouped(child) =>
      ParsesInside(w, child, RightParen, rest, depth + 1);
      assert ts[1..] == OrYield(child) + ([RightParen] + rest);
      assert ([RightParen] + rest)[1..] == rest;
    case Plain(a) =>
      ParsesAttribute(w, a, rest, depth + 1);
  }

  lemma {:induction false} ParsesAttribute(w: Words, t: AttributeTree, rest: seq<Token>, depth: nat)
    requires DistinctKeywords(w) && AttributeWellFormed(w, t) && depth + AttributeWeight(t) <= w.limit
    requires Terminated(rest) && Terminated(AttributeYield(t) + rest)
    ensures ParseAttribute(w, AttributeYield(t) + rest, depth) == Success(t, rest)
    decreases t, 2
  {
    hide ParseOr, OrYield, OrWellFormed, OrWeight;
    var ts := AttributeYield(t) + rest;
    match t
    case Bracketed(name, child) =>
      ParsesInside(w, child, RightBracket, rest, depth + 1);
      assert ts[2..] == OrYield(child) + ([RightBracket] + rest);
      assert ([RightBracket] + rest)[1..] == rest;
    case Presence(name, operator) =>
      assert ts[2..] == rest;
    case Comparison(name, operator, value) =>
      assert ts[3..] == rest;
  }

  /** A nested expression ends at its closing token. */
  lemma {:induction false} ParsesInside(w: Words, child: OrTree, close: Token, rest: seq<Token>, depth: nat)
    requires DistinctKeywords(w) && OrWellFormed(w, child) && depth + 3 + OrWeight(child) <= w.limit
    requires Terminated(rest) && (close.RightParen? || close.RightBracket?)
    ensures Terminated([close] + rest) && Terminated(OrYield(child) + ([close] + rest))
    ensures ParseOr(w, OrYield(child) + ([close] + rest), depth) == Success(child, [close] + rest)
    decreases child, 3
  {
    Prepend([close], rest);
    ParsesOr(w, child, [close] + rest, depth);
  }

  // ---------- the language ----------

  lemma SentenceIsParsed(w: Words, t: OrTree)
    requires DistinctKeywords(w) && Sentence(w, t) && !IsWord(w, End, "and")
    ensures Terminated(OrYield(t) + [End])
    ensures ParseTree(w, OrYield(t) + [End]) == Some(t)
  {
    ParsesOr(w, t, [End], 0);
  }

  /** The parser accepts exactly the sentences of the grammar, and returns the tree of the
      sentence it read. */
  lemma ParserAcceptsExactlyTheGrammar(w: Words, body: seq<Token>, t: OrTree)
    requires DistinctKeywords(w) && forall x | x in body :: !x.End?
    ensures Terminated(body + [End])
    ensures ParseTree(w, body + [End]) == Some(t) <==> OrYield(t) == body && Sentence(w, t)
  {
    Prepend(body, [End]);
    var ts := body + [End];
    if ParseTree(w, ts) == Some(t) {
      ParseOrIsSound(w, ts, 0);
      var rest := ParseOr(w, ts, 0).rest;
      assert ts[|ts| - |rest|] == rest[0];
      assert |rest| == 1;
      assert body == ts[..|ts| - 1] == OrYield(t);
    }
    if OrYield(t) == body && Sentence(w, t) {
      SentenceIsParsed(w, t);
    }
  }

  /** Well-formedness does not depend on the depth limit. */
  lemma {:induction false} WellFormedAtAnyLimit(w: Words, v: Words, t: OrTree)
    requires v == w.(limit := v.limit) && OrWellFormed(w, t)
    ensures OrWellFormed(v, t)
    decreases t, 0
  {
    match t
    case OneAnd(a) => AndWellFormedAtAnyLimit(w, v, a);
    case OrMore(left, _, right) =>
      WellFormedAtAnyLimit(w, v, left);
      AndWellFormedAtAnyLimit(w, v, right);
  }

  lemma {:induction false} AndWellFormedAtAnyLimit(w: Words, v: Words, t: AndTree)
    requires v == w.(limit := v.limit) && AndWellFormed(w, t)
    ensures AndWellFormed(v, t)
    decreases t, 0
  {
    match t
    case OneUnary(u) => UnaryWellFormedAtAnyLimit(w, v, u);
    case AndMore(left, _, right) =>
      AndWellFormedAtAnyLimit(w, v, left);
      UnaryWellFormedAtAnyLimit(w, v, right);
  }

  lemma {:induction false} UnaryWellFormedAtAnyLimit(w: Words, v: Words, t: UnaryTree)
    requires v == w.(limit := v.limit) && UnaryWellFormed(w, t)
    ensures UnaryWellFormed(v, t)
    decreases t, 0
  {
    match t
    case Negated(_, child) => WellFormedAtAnyLimit(w, v, child);
    case Grouped(child) => WellFormedAtAnyLimit(w, v, child);
    case Plain(Bracketed(_, child)) => WellFormedAtAnyLimit(w, v, child);
    case Plain(_) =>
  }

  /** The grammar is unambiguous: tokens determine the tree. */
  lemma GrammarIsUnambiguous(w: Words, t: OrTree, u: OrTree)
    requires DistinctKeywords(w) && OrWellFormed(w, t) && OrWellFormed(w, u) && OrYield(t) == OrYield(u)
    ensures t == u
  {
    var v := w.(limit := 3 + Max(OrWeight(t), OrWeight(u)));
    WellFormedAtAnyLimit(w, v, t);
    WellFormedAtAnyLimit(w, v, u);
    SentenceIsParsed(v, t);
    SentenceIsParsed(v, u);
  }

  // ---------- printing ----------

  /** The tree of a filter, with parentheses only where precedence needs them. */
  function OrTreeOf(f: Filter): OrTree {
    match f
    case Or(left, right) => OrMore(OrTreeOf(left), "or", AndTreeOf(right))
    case And(left, right) => OneAnd(AndMore(AndTreeOf(left), "and", UnaryTreeOf(right)))
    case Not(child) => OneAnd(OneUnary(Negated("not", OrTreeOf(child))))
    case ValuePath(name, child) => OneAnd(OneUnary(Plain(Bracketed(name, OrTreeOf(child)))))
    case Present(name) => OneAnd(OneUnary(Plain(Presence(name, "pr"))))
    case Compare(operator, name, value) => OneAnd(OneUnary(Plain(Comparison(name, operator, value))))
  }

  function AndTreeOf(f: Filter): AndTree {
    match f
    case Or(left, right) => OneUnary(Grouped(OrMore(OrTreeOf(left), "or", AndTreeOf(right))))
    case And(left, right) => AndMore(AndTreeOf(left), "and", UnaryTreeOf(right))
    case Not(child) => OneUnary(Negated("not", OrTreeOf(child)))
    case ValuePath(name, child) => OneUnary(Plain(Bracketed(name, OrTreeOf(child))))
    case Present(name) => OneUnary(Plain(Presence(name, "pr")))
    case Compare(operator, name, value) => OneUnary(Plain(Comparison(name, operator, value)))
  }

  function UnaryTreeOf(f: Filter): UnaryTree {
    match f
    case Or(left, right) => Grouped(OrMore(OrTreeOf(left), "or", AndTreeOf(right)))
    case And(left, right) => Grouped(OneAnd(AndMore(AndTreeOf(left), "and", UnaryTreeOf(right))))
    case Not(child) => Negated("not", OrTreeOf(child))
    case ValuePath(name, child) => Plain(Bracketed(name, OrTreeOf(child)))
    case Present(name) => Plain(Presence(name, "pr"))
    case Compare(operator, name, value) => Plain(Comparison(name, operator, value))
  }

  function Print(f: Filter): seq<Token> { OrYield(OrTreeOf(f)) }

  /** Operators are spelled as the parser returns them and no attribute is spelled "not". */
  predicate Printable(w: Words, f: Filter) {
    match f
    case Or(left, right) => Printable(w, left) && Printable(w, right)
    case And(left, right) => Printable(w, left) && Printable(w, right)
    case Not(child) => Printable(w, child)
    case ValuePath(name, child) => !IsWord(w, Word(name), "not") && Printable(w, child)
    case Present(name) => !IsWord(w, Word(name), "not") && w.lower("pr") == "pr"
    case Compare(operator, name, value) =>
      !IsWord(w, Word(name), "not") && operator in COMPARISONS && w.lower(operator) == operator && operator != "pr"
  }

  lemma {:induction false} PrintedTrees(w: Words, f: Filter)
    requires Printable(w, f)
    ensures OrAst(w.lower, OrTreeOf(f)) == f && OrWellFormed(w, OrTreeOf(f))
    ensures AndAst(w.lower, AndTreeOf(f)) == f && AndWellFormed(w, AndTreeOf(f))
    ensures UnaryAst(w.lower, UnaryTreeOf(f)) == f && UnaryWellFormed(w, UnaryTreeOf(f))
    decreases f, 1
  {
    match f
    case Or(left, right) =>
      PrintedTrees(w, left);
      PrintedTrees(w, right);
      assert UnaryTreeOf(f) == Grouped(OrTreeOf(f)) && AndTreeOf(f) == OneUnary(UnaryTreeOf(f));
    case And(left, right) =>
      PrintedTrees(w, left);
      PrintedTrees(w, right);
      assert OrTreeOf(f) == OneAnd(AndTreeOf(f)) && UnaryTreeOf(f) == Grouped(OrTreeOf(f));
    case _ =>
      PrintedLeaf(w, f);
      assert AndTreeOf(f) == OneUnary(UnaryTreeOf(f)) && OrTreeOf(f) == OneAnd(AndTreeOf(f));
  }

  lemma {:induction false} PrintedLeaf(w: Words, f: Filter)
    requires Printable(w, f) && !f.Or? && !f.And?
    ensures UnaryAst(w.lower, UnaryTreeOf(f)) == f && UnaryWellFormed(w, UnaryTreeOf(f))
    decreases f, 0
  {
    match f
    case Not(child) =>
      PrintedTrees(w, child);
    case ValuePath(name, child) =>
      PrintedTrees(w, child);
      assert UnaryTreeOf(f) == Plain(Bracketed(name, OrTreeOf(child)));
    case Present(name) =>
      assert UnaryTreeOf(f) == Plain(Presence(name, "pr"));
    case Compare(operator, name, value) =>
      assert UnaryTreeOf(f) == Plain(Comparison(name, operator, value));
  }

  /** Parsing a printed filter gives it back exactly when it fits the depth budget. */
  lemma FilterRoundTrip(w: Words, f: Filter)
    requires DistinctKeywords(w) && Printable(w, f)
    ensures Terminated(Print(f) + [End])
    ensures ParseFilter(w, Print(f) + [End]) == Some(f) <==> 3 + OrWeight(OrTreeOf(f)) <= w.limit
    ensures 3 + OrWeight(OrTreeOf(f)) > w.limit ==> ParseFilter(w, Print(f) + [End]) == None
  {
    PrintedTrees(w, f);
    YieldsHaveNoEnd(OrTreeOf(f));
    var t := OrTreeOf(f);
    ParserAcceptsExactlyTheGrammar(w, Print(f), t);
    if ParseTree(w, Print(f) + [End]).Some? {
      var u := ParseTree(w, Print(f) + [End]).value;
      ParserAcceptsExactlyTheGrammar(w, Print(f), u);
      GrammarIsUnambiguous(w, t, u);
    }
  }
}
