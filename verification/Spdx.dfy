/** The licence gate: whether every licensing choice of an SPDX expression
    contains a forbidden licence, decided by a parser that never builds a tree. */
module Spdx {
  import opened Wrappers

  const FORBIDDEN := {"AGPL-3.0-only", "AGPL-3.0-or-later", "GPL-3.0-only", "GPL-3.0-or-later", "SSPL-1.0"}

  const OPERATORS := {"AND", "OR", "WITH", ")"}

  const RESERVED := {"AND", "OR", "WITH", "(", ")"}

  // ---- What an expression means ------------------------------------------

  /** An expression; `Group` is one written in parentheses. */
  datatype Expr =
    | License(name: string)
    | Group(inner: Expr)
    | With(base: Expr, exception: string)
    | And(left: Expr, right: Expr)
    | Or(left: Expr, right: Expr)

  /** The sets of licences that satisfy the expression. */
  ghost function Choices(e: Expr): set<set<string>> {
    match e
    case License(name) => {{name}}
    case Group(inner) => Choices(inner)
    case With(base, _) => Choices(base)
    case And(l, r) => set a, b | a in Choices(l) && b in Choices(r) :: a + b
    case Or(l, r) => Choices(l) + Choices(r)
  }

  ghost predicate EveryChoiceForbidden(e: Expr) {
    forall c :: c in Choices(e) ==> c * FORBIDDEN != {}
  }

  predicate Identifier(name: string) { name !in RESERVED }

  /** Names are identifiers, and no licence is used as an exception. */
  predicate Sensible(e: Expr) {
    match e
    case License(name) => Identifier(name)
    case Group(inner) => Sensible(inner)
    case With(base, exception) => Sensible(base) && Identifier(exception) && exception !in FORBIDDEN
    case And(l, r) => Sensible(l) && Sensible(r)
    case Or(l, r) => Sensible(l) && Sensible(r)
  }

  datatype Level = Primary | Exception | Conjunction | Disjunction

  function Rank(level: Level): nat {
    match level case Primary => 0 case Exception => 1 case Conjunction => 2 case Disjunction => 3
  }

  /** The tree can stand at this level without further parentheses. */
  predicate Shape(e: Expr, level: Level) {
    match e
    case License(_) => true
    case Group(inner) => Shape(inner, Disjunction)
    case With(base, _) => Rank(level) >= 1 && Shape(base, Primary)
    case And(l, r) => Rank(level) >= 2 && Shape(l, Conjunction) && Shape(r, Exception)
    case Or(l, r) => Rank(level) >= 3 && Shape(l, Disjunction) && Shape(r, Conjunction)
  }

  function Print(e: Expr): seq<string> {
    match e
    case License(name) => [name]
    case Group(inner) => ["("] + Print(inner) + [")"]
    case With(base, exception) => Print(base) + ["WITH", exception]
    case And(l, r) => Print(l) + ["AND"] + Print(r)
    case Or(l, r) => Print(l) + ["OR"] + Print(r)
  }

  /** Adds the parentheses that precedence needs. */
  function Grouped(e: Expr, level: Level): Expr {
    match e
    case License(_) => e
    case Group(inner) => Group(Grouped(inner, Disjunction))
    case With(base, x) => var p := With(Grouped(base, Primary), x); if Rank(level) >= 1 then p else Group(p)
    case And(l, r) => var p := And(Grouped(l, Conjunction), Grouped(r, Exception)); if Rank(level) >= 2 then p else Group(p)
    case Or(l, r) => var p := Or(Grouped(l, Disjunction), Grouped(r, Conjunction)); if Rank(level) >= 3 then p else Group(p)
  }

  lemma {:induction false} GroupedFits(e: Expr, level: Level)
    ensures Shape(Grouped(e, level), level)
    ensures Choices(Grouped(e, level)) == Choices(e) && Sensible(Grouped(e, level)) == Sensible(e)
  {
    match e
    case License(_) =>
    case Group(inner) => GroupedFits(inner, Disjunction);
    case With(base, _) => GroupedFits(base, Primary);
    case And(l, r) => GroupedFits(l, Conjunction); GroupedFits(r, Exception);
    case Or(l, r) => GroupedFits(l, Disjunction); GroupedFits(r, Conjunction);
  }

  // ---- The boolean the parser computes -----------------------------------

  function Required(e: Expr): bool {
    match e
    case License(name) => name in FORBIDDEN
    case Group(inner) => Required(inner)
    case With(base, _) => Required(base)
    case And(l, r) => Required(l) || Required(r)
    case Or(l, r) => Required(l) && Required(r)
  }

  /** One boolean a subexpression is enough to know about all its choices. */
  lemma {:induction false} RequiredMeansEveryChoice(e: Expr)
    ensures Choices(e) != {}
    ensures Required(e) <==> EveryChoiceForbidden(e)
  {
    match e
    case License(name) =>
      assert {name} in Choices(e);
      assert name in FORBIDDEN <==> name in {name} * FORBIDDEN;
    case Group(inner) => RequiredMeansEveryChoice(inner);
    case With(base, _) => RequiredMeansEveryChoice(base);
    case And(l, r) =>
      RequiredMeansEveryChoice(l);
      RequiredMeansEveryChoice(r);
      AndChoices(l, r);
    case Or(l, r) =>
      RequiredMeansEveryChoice(l);
      RequiredMeansEveryChoice(r);
  }

  lemma AndChoices(l: Expr, r: Expr)
    requires Choices(l) != {} && Choices(r) != {}
    ensures Choices(And(l, r)) != {}
    ensures EveryChoiceForbidden(And(l, r)) <==> EveryChoiceForbidden(l) || EveryChoiceForbidden(r)
  {
    var all := Choices(And(l, r));
    var x, y :| x in Choices(l) && y in Choices(r);
    assert x + y in all;
    if !EveryChoiceForbidden(l) && !EveryChoiceForbidden(r) {
      var a :| a in Choices(l) && a * FORBIDDEN == {};
      var b :| b in Choices(r) && b * FORBIDDEN == {};
      assert a + b in all;
      assert (a + b) * FORBIDDEN == a * FORBIDDEN + b * FORBIDDEN;
    } else {
      forall c | c in all ensures c * FORBIDDEN != {} {
        var a, b :| a in Choices(l) && b in Choices(r) && c == a + b;
        assert c * FORBIDDEN == a * FORBIDDEN + b * FORBIDDEN;
      }
    }
  }

  // ---- The parser as functions -------------------------------------------

  /** A parsed value and the offset behind it; nothing for a syntax error. */
  type Parsed = Option<(bool, nat)>

  predicate At(tokens: seq<string>, i: nat, token: string) { i < |tokens| && tokens[i] == token }

  predicate Moves(tokens: seq<string>, from: nat, p: Parsed) {
    p.Some? ==> from < p.value.1 <= |tokens|
  }

  function ParsePrimary(tokens: seq<string>, i: nat): (p: Parsed)
    ensures Moves(tokens, i, p)
    decreases |tokens| - i, 0
  {
    if i >= |tokens| then None
    else if tokens[i] == "(" then
      var inner := ParseDisjunction(tokens, i + 1);
      if inner.None? || !At(tokens, inner.value.1, ")") then None else Some((inner.value.0, inner.value.1 + 1))
    else if tokens[i] in OPERATORS then None
    else Some((tokens[i] in FORBIDDEN, i + 1))
  }

  function ParseException(tokens: seq<string>, i: nat): (p: Parsed)
    ensures Moves(tokens, i, p)
    decreases |tokens| - i, 1
  {
    var base := ParsePrimary(tokens, i);
    if base.None? || !At(tokens, base.value.1, "WITH") then base
    else
      var at := base.value.1 + 1;
      if at >= |tokens| || tokens[at] in RESERVED || tokens[at] in FORBIDDEN then None else Some((base.value.0, at + 1))
  }

  function ParseConjunction(tokens: seq<string>, i: nat): (p: Parsed)
    ensures Moves(tokens, i, p)
    decreases |tokens| - i, 2
  {
    var first := ParseException(tokens, i);
    if first.None? then None else MoreAnds(tokens, first.value.1, first.value.0)
  }

  /** The rest of a conjunction whose value so far is `value`. */
  function MoreAnds(tokens: seq<string>, i: nat, value: bool): (p: Parsed)
    requires i <= |tokens|
    ensures p.Some? ==> i <= p.value.1 <= |tokens|
    decreases |tokens| - i, 2
  {
    if !At(tokens, i, "AND") then Some((value, i))
    else
      var operand := ParseException(tokens, i + 1);
      if operand.None? then None else MoreAnds(tokens, operand.value.1, value || operand.value.0)
  }

  function ParseDisjunction(tokens: seq<string>, i: nat): (p: Parsed)
    ensures Moves(tokens, i, p)
    decreases |tokens| - i, 3
  {
    var first := ParseConjunction(tokens, i);
    if first.None? then None else MoreOrs(tokens, first.value.1, first.value.0)
  }

  function MoreOrs(tokens: seq<string>, i: nat, value: bool): (p: Parsed)
    requires i <= |tokens|
    ensures p.Some? ==> i <= p.value.1 <= |tokens|
    decreases |tokens| - i, 3
  {
    if !At(tokens, i, "OR") then Some((value, i))
    else
      var operand := ParseConjunction(tokens, i + 1);
      if operand.None? then None else MoreOrs(tokens, operand.value.1, value && operand.value.0)
  }

  // ---- Every printed tree is parsed --------------------------------------

  /** `piece` lies in the token list at `i`. */
  ghost predicate Lies(tokens: seq<string>, i: nat, piece: seq<string>) {
    i + |piece| <= |tokens| && tokens[i..i + |piece|] == piece
  }

  lemma LiesInParts(tokens: seq<string>, i: nat, a: seq<string>, b: seq<string>)
    requires Lies(tokens, i, a + b)
    ensures Lies(tokens, i, a) && Lies(tokens, i + |a|, b)
  {
    var whole := tokens[i..i + |a + b|];
    assert whole[..|a|] == tokens[i..i + |a|];
    assert whole[|a|..] == tokens[i + |a|..i + |a| + |b|];
  }

  lemma LiesHere(tokens: seq<string>, i: nat, token: string)
    requires Lies(tokens, i, [token])
    ensures At(tokens, i, token)
  {
    assert tokens[i] == tokens[i..i + 1][0];
  }

  /** Where the parts of a binary expression lie. */
  lemma BinaryParts(tokens: seq<string>, i: nat, l: Expr, op: string, r: Expr)
    requires Lies(tokens, i, Print(l) + [op] + Print(r))
    ensures Lies(tokens, i, Print(l)) && At(tokens, i + |Print(l)|, op) && Lies(tokens, i + |Print(l)| + 1, Print(r))
  {
    hide Lies, Print;
    LiesInParts(tokens, i, Print(l) + [op], Print(r));
    LiesInParts(tokens, i, Print(l), [op]);
    LiesHere(tokens, i + |Print(l)|, op);
  }

  lemma {:induction false} PrimaryIsParsed(tokens: seq<string>, i: nat, e: Expr)
    requires Lies(tokens, i, Print(e)) && Shape(e, Primary) && Sensible(e)
    ensures ParsePrimary(tokens, i) == Some((Required(e), i + |Print(e)|))
    decreases e, 0
  {
    hide Lies, Moves;
    match e
    case License(name) => LiesHere(tokens, i, name);
    case Group(inner) =>
      LiesInParts(tokens, i, ["("] + Print(inner), [")"]);
      LiesInParts(tokens, i, ["("], Print(inner));
      LiesHere(tokens, i, "(");
      LiesHere(tokens, i + 1 + |Print(inner)|, ")");
      DisjunctionIsParsed(tokens, i + 1, inner);
  }

  lemma {:induction false} ExceptionIsParsed(tokens: seq<string>, i: nat, e: Expr)
    requires Lies(tokens, i, Print(e)) && Shape(e, Exception) && Sensible(e)
    requires !At(tokens, i + |Print(e)|, "WITH")
    ensures ParseException(tokens, i) == Some((Required(e), i + |Print(e)|))
    decreases e, 1
  {
    hide Lies, Moves;
    if e.With? {
      var n := |Print(e.base)|;
      assert Print(e.base) + ["WITH", e.exception] == Print(e.base) + ["WITH"] + [e.exception];
      LiesInParts(tokens, i, Print(e.base) + ["WITH"], [e.exception]);
      LiesInParts(tokens, i, Print(e.base), ["WITH"]);
      LiesHere(tokens, i + n, "WITH");
      LiesHere(tokens, i + n + 1, e.exception);
      PrimaryIsParsed(tokens, i, e.base);
    } else {
      PrimaryIsParsed(tokens, i, e);
    }
  }

  lemma {:induction false} ConjunctionIsParsed(tokens: seq<string>, i: nat, e: Expr)
    requires Lies(tokens, i, Print(e)) && Shape(e, Conjunction) && Sensible(e)
    requires !At(tokens, i + |Print(e)|, "WITH")
    ensures i + |Print(e)| <= |tokens| && ParseConjunction(tokens, i) == MoreAnds(tokens, i + |Print(e)|, Required(e))
    decreases e, 2
  {
    hide Moves, ParseException, Identifier;
    if e.And? {
      BinaryParts(tokens, i, e.left, "AND", e.right);
      ConjunctionIsParsed(tokens, i, e.left);
      ExceptionIsParsed(tokens, i + |Print(e.left)| + 1, e.right);
    } else {
      ExceptionIsParsed(tokens, i, e);
    }
  }

  lemma {:induction false} DisjunctionIsParsed(tokens: seq<string>, i: nat, e: Expr)
    requires Lies(tokens, i, Print(e)) && Shape(e, Disjunction) && Sensible(e)
    requires !At(tokens, i + |Print(e)|, "WITH") && !At(tokens, i + |Print(e)|, "AND")
    ensures i + |Print(e)| <= |tokens| && ParseDisjunction(tokens, i) == MoreOrs(tokens, i + |Print(e)|, Required(e))
    decreases e, 3
  {
    hide Moves, ParseException, Identifier;
    if e.Or? {
      BinaryParts(tokens, i, e.left, "OR", e.right);
      DisjunctionIsParsed(tokens, i, e.left);
      ConjunctionIsParsed(tokens, i + |Print(e.left)| + 1, e.right);
    } else {
      ConjunctionIsParsed(tokens, i, e);
    }
  }

  // ---- Everything parsed is a printed tree -------------------------------

  ghost predicate Reads(tokens: seq<string>, i: nat, p: Parsed, e: Expr, level: Level) {
    && p.Some? && i <= p.value.1 <= |tokens| && Print(e) == tokens[i..p.value.1]
    && Shape(e, level) && Sensible(e) && p.value.0 == Required(e)
  }

  lemma {:induction false} ParsedPrimary(tokens: seq<string>, i: nat) returns (e: Expr)
    requires ParsePrimary(tokens, i).Some?
    ensures Reads(tokens, i, ParsePrimary(tokens, i), e, Primary)
    decreases |tokens| - i, 0
  {
    if tokens[i] == "(" {
      var inner := ParsedDisjunction(tokens, i + 1);
      e := Group(inner);
    } else {
      e := License(tokens[i]);
    }
  }

  lemma {:induction false} ParsedException(tokens: seq<string>, i: nat) returns (e: Expr)
    requires ParseException(tokens, i).Some?
    ensures Reads(tokens, i, ParseException(tokens, i), e, Exception)
    decreases |tokens| - i, 1
  {
    e := ParsedPrimary(tokens, i);
    var at := ParsePrimary(tokens, i).value.1;
    if At(tokens, at, "WITH") {
      assert tokens[i..at + 2] == tokens[i..at] + ["WITH", tokens[at + 1]];
      e := With(e, tokens[at + 1]);
    }
  }

  lemma {:induction false} ParsedAnds(tokens: seq<string>, i: nat, at: nat, left: Expr) returns (e: Expr)
    requires i <= at <= |tokens| && Reads(tokens, i, Some((Required(left), at)), left, Conjunction)
    requires MoreAnds(tokens, at, Required(left)).Some?
    ensures Reads(tokens, i, MoreAnds(tokens, at, Required(left)), e, Conjunction)
    decreases |tokens| - at, 2
  {
    if At(tokens, at, "AND") {
      var right := ParsedException(tokens, at + 1);
      var end := ParseException(tokens, at + 1).value.1;
      assert tokens[i..end] == tokens[i..at] + ["AND"] + tokens[at + 1..end];
      e := ParsedAnds(tokens, i, end, And(left, right));
    } else {
      e := left;
    }
  }

  lemma {:induction false} ParsedConjunction(tokens: seq<string>, i: nat) returns (e: Expr)
    requires ParseConjunction(tokens, i).Some?
    ensures Reads(tokens, i, ParseConjunction(tokens, i), e, Conjunction)
    decreases |tokens| - i, 3
  {
    e := ParsedException(tokens, i);
    e := ParsedAnds(tokens, i, ParseException(tokens, i).value.1, e);
  }

  lemma {:induction false} ParsedOrs(tokens: seq<string>, i: nat, at: nat, left: Expr) returns (e: Expr)
    requires i <= at <= |tokens| && Reads(tokens, i, Some((Required(left), at)), left, Disjunction)
    requires MoreOrs(tokens, at, Required(left)).Some?
    ensures Reads(tokens, i, MoreOrs(tokens, at, Required(left)), e, Disjunction)
    decreases |tokens| - at, 4
  {
    if At(tokens, at, "OR") {
      var right := ParsedConjunction(tokens, at + 1);
      var end := ParseConjunction(tokens, at + 1).value.1;
      assert tokens[i..end] == tokens[i..at] + ["OR"] + tokens[at + 1..end];
      e := ParsedOrs(tokens, i, end, Or(left, right));
    } else {
      e := left;
    }
  }

  lemma {:induction false} ParsedDisjunction(tokens: seq<string>, i: nat) returns (e: Expr)
    requires ParseDisjunction(tokens, i).Some?
    ensures Reads(tokens, i, ParseDisjunction(tokens, i), e, Disjunction)
    decreases |tokens| - i, 5
  {
    e := ParsedConjunction(tokens, i);
    e := ParsedOrs(tokens, i, ParseConjunction(tokens, i).value.1, e);
  }

  // ---- The gate ----------------------------------------------------------

  /** `tokens` is the expression `e`, parenthesized where precedence needs it. */
  ghost predicate WellFormed(tokens: seq<string>, e: Expr) {
    Print(e) == tokens && Shape(e, Disjunction) && Sensible(e)
  }

  predicate Mentions(identifiers: set<string>) { identifiers * FORBIDDEN != {} }

  lemma MentionsIff(identifiers: set<string>)
    ensures Mentions(identifiers) <==> exists name :: name in identifiers && name in FORBIDDEN
  {
    assert forall name :: name in identifiers * FORBIDDEN <==> name in identifiers && name in FORBIDDEN;
  }

  /** A well-formed list is parsed to its end, with its own value. */
  lemma WellFormedIsAccepted(tokens: seq<string>, e: Expr)
    requires WellFormed(tokens, e)
    ensures ParseDisjunction(tokens, 0) == Some((Required(e), |tokens|))
  {
    hide Print, Shape, Sensible, Required, ParseDisjunction, ParseConjunction, MoreAnds;
    assert tokens[0..|tokens|] == tokens;
    DisjunctionIsParsed(tokens, 0, e);
  }

  /** A list parsed to its end is well formed. */
  lemma AcceptedIsWellFormed(tokens: seq<string>) returns (e: Expr)
    requires var p := ParseDisjunction(tokens, 0); p.Some? && p.value.1 == |tokens|
    ensures WellFormed(tokens, e)
  {
    hide Print, Shape, Sensible, Required, ParseDisjunction;
    e := ParsedDisjunction(tokens, 0);
    assert tokens[0..|tokens|] == tokens;
  }

  /** The parser accepts exactly the well-formed token lists. */
  lemma AcceptsWellFormed(tokens: seq<string>)
    ensures var p := ParseDisjunction(tokens, 0);
            (p.Some? && p.value.1 == |tokens|) <==> exists e :: WellFormed(tokens, e)
    ensures forall e :: WellFormed(tokens, e) ==> ParseDisjunction(tokens, 0) == Some((Required(e), |tokens|))
  {
    hide WellFormed, Required, ParseDisjunction;
    forall e | WellFormed(tokens, e) ensures ParseDisjunction(tokens, 0) == Some((Required(e), |tokens|)) {
      WellFormedIsAccepted(tokens, e);
    }
    var p := ParseDisjunction(tokens, 0);
    if p.Some? && p.value.1 == |tokens| {
      var e := AcceptedIsWellFormed(tokens);
    }
  }

  /** The recursive descent, with its shared offset. */
  class Parser {
    const tokens: seq<string>
    var offset: nat

    constructor (tokens: seq<string>)
      ensures this.tokens == tokens && offset == 0
    {
      this.tokens, offset := tokens, 0;
    }

    ghost predicate Agrees(r: Option<bool>, p: Parsed)
      reads this
    {
      && (r.Some? <==> p.Some?)
      && (p.Some? ==> r.value == p.value.0 && offset == p.value.1)
    }

    method Primary() returns (r: Option<bool>)
      modifies this
      ensures Agrees(r, ParsePrimary(tokens, old(offset)))
      decreases |tokens| - offset, 0
    {
      if offset >= |tokens| {
        return None;
      }
      var token := tokens[offset];
      offset := offset + 1;
      if token == "(" {
        var value := Disjunction();
        if value.None? || offset >= |tokens| || tokens[offset] != ")" {
          return None;
        }
        offset := offset + 1;
        return value;
      }
      if token in OPERATORS {
        return None;
      }
      return Some(token in FORBIDDEN);
    }

    method WithException() returns (r: Option<bool>)
      modifies this
      ensures Agrees(r, ParseException(tokens, old(offset)))
      decreases |tokens| - offset, 1
    {
      var value := Primary();
      if value.None? {
        return None;
      }
      if offset < |tokens| && tokens[offset] == "WITH" {
        offset := offset + 1;
        if offset >= |tokens| || tokens[offset] in RESERVED {
          return None;
        }
        if tokens[offset] in FORBIDDEN {
          return None;
        }
        offset := offset + 1;
      }
      return value;
    }

    method Conjunction() returns (r: Option<bool>)
      modifies this
      ensures Agrees(r, ParseConjunction(tokens, old(offset)))
      decreases |tokens| - offset, 2
    {
      ghost var start := offset;
      var first := WithException();
      if first.None? {
        return None;
      }
      var value := first.value;
      while offset < |tokens| && tokens[offset] == "AND"
        invariant start < offset <= |tokens|
        invariant ParseConjunction(tokens, start) == MoreAnds(tokens, offset, value)
      {
        offset := offset + 1;
        var operand := WithException();
        if operand.None? {
          return None;
        }
        value := value || operand.value;
      }
      return Some(value);
    }

    method Disjunction() returns (r: Option<bool>)
      modifies this
      ensures Agrees(r, ParseDisjunction(tokens, old(offset)))
      decreases |tokens| - offset, 3
    {
      ghost var start := offset;
      var first := Conjunction();
      if first.None? {
        return None;
      }
      var value := first.value;
      while offset < |tokens| && tokens[offset] == "OR"
        invariant start < offset <= |tokens|
        invariant ParseDisjunction(tokens, start) == MoreOrs(tokens, offset, value)
      {
        offset := offset + 1;
        var operand := Conjunction();
        if operand.None? {
          return None;
        }
        value := value && operand.value;
      }
      return Some(value);
    }
  }

  // ---- The notation ------------------------------------------------------

  /** The licences that must not be required. */
  lemma ForbiddenAre(name: string)
    ensures name in FORBIDDEN <==>
              || name == "AGPL-3.0-only" || name == "AGPL-3.0-or-later" || name == "GPL-3.0-only" || name == "GPL-3.0-or-later"
              || name == "SSPL-1.0"
    ensures Identifier(name) <==> name != "AND" && name != "OR" && name != "WITH" && name != "(" && name != ")"
  {
  }

  /** Expressions are written as in SPDX 2.3 Annex D. */
  lemma PrintedAs(name: string, l: Expr, r: Expr)
    ensures Print(License(name)) == [name]
    ensures Print(Group(l)) == ["("] + Print(l) + [")"]
    ensures Print(With(l, name)) == Print(l) + ["WITH", name]
    ensures Print(And(l, r)) == Print(l) + ["AND"] + Print(r)
    ensures Print(Or(l, r)) == Print(l) + ["OR"] + Print(r)
  {
  }

  /** AND binds tighter than OR and WITH tighter than both, on either side; both
      group to the left. */
  lemma Precedence(a: string, b: string, c: string, x: string)
    requires Identifier(a) && Identifier(b) && Identifier(c) && Identifier(x) && x !in FORBIDDEN
    ensures WellFormed([a, "OR", b, "AND", c], Or(License(a), And(License(b), License(c))))
    ensures WellFormed([a, "AND", b, "OR", c], Or(And(License(a), License(b)), License(c)))
    ensures WellFormed([a, "AND", b, "WITH", x], And(License(a), With(License(b), x)))
    ensures WellFormed([a, "OR", b, "OR", c], Or(Or(License(a), License(b)), License(c)))
    ensures !WellFormed([a, "OR", b, "AND", c], And(Or(License(a), License(b)), License(c)))
    ensures !WellFormed([a, "AND", b, "OR", c], And(License(a), Or(License(b), License(c))))
  {
    assert Print(And(License(b), License(c))) == [b, "AND", c] && Print(And(License(a), License(b))) == [a, "AND", b];
    assert Print(With(License(b), x)) == [b, "WITH", x] && Print(Or(License(a), License(b))) == [a, "OR", b];
    assert Print(Or(License(a), And(License(b), License(c)))) == [a, "OR", b, "AND", c];
    assert Print(Or(And(License(a), License(b)), License(c))) == [a, "AND", b, "OR", c];
    assert Print(And(License(a), With(License(b), x))) == [a, "AND", b, "WITH", x];
    assert Print(Or(Or(License(a), License(b)), License(c))) == [a, "OR", b, "OR", c];
    assert !Shape(Or(License(a), License(b)), Conjunction) && !Shape(Or(License(b), License(c)), Exception);
  }

  /** The answer on a token list: for a well-formed expression, whether every
      choice contains a forbidden licence; for anything else, whether a
      forbidden identifier occurs in the text. */
  method RequiresForbiddenLicense(tokens: Option<seq<string>>, identifiers: set<string>) returns (r: bool)
    ensures (exists e :: tokens.Some? && WellFormed(tokens.value, e)) ==>
              forall e :: WellFormed(tokens.value, e) ==> (r <==> EveryChoiceForbidden(e))
    ensures !(exists e :: tokens.Some? && WellFormed(tokens.value, e)) ==> (r <==> exists name :: name in identifiers && name in FORBIDDEN)
  {
    MentionsIff(identifiers);
    if tokens.Some? { AcceptsWellFormed(tokens.value); }
    forall e ensures Required(e) <==> EveryChoiceForbidden(e) { RequiredMeansEveryChoice(e); }
    if tokens.None? || |tokens.value| == 0 {
      return Mentions(identifiers);
    }
    var parser := new Parser(tokens.value);
    var required := parser.Disjunction();
    if required.None? || parser.offset != |tokens.value| {
      return Mentions(identifiers);
    }
    return required.value;
  }

  /** Every expression, printed with the parentheses that precedence needs, is
      answered by its own choices. */
  lemma PrintedIsAnswered(e: Expr)
    requires Sensible(e)
    ensures WellFormed(Print(Grouped(e, Disjunction)), Grouped(e, Disjunction))
    ensures ParseDisjunction(Print(Grouped(e, Disjunction)), 0) == Some((EveryChoiceForbidden(e), |Print(Grouped(e, Disjunction))|))
  {
    GroupedFits(e, Disjunction);
    RequiredMeansEveryChoice(Grouped(e, Disjunction));
    AcceptsWellFormed(Print(Grouped(e, Disjunction)));
  }
}
