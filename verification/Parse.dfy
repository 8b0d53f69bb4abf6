/** Parsing the control structures of a body (src/compiler/parse.rs), and printing them. */
module Parse {
  import opened Forth

  datatype Tok = Word(text: string) | Int(value: int) | Comment

  datatype ParseError =
    | UnterminatedControl(opener: string)
    | UnterminatedLocals
    | StrayControlWord(word: string)
    | ExpectedName(keyword: string)
    | SeeNotModelled
    | Nothing

  /** A parse result with the tokens that remain. */
  datatype Result<T> = Ok(value: T, rest: seq<Tok>) | Err(error: ParseError)

  /** A body and the word that ended it. */
  datatype Block = Block(body: seq<Expr>, term: string)

  datatype Arms = Arms(arms: seq<Arm>, default: Else)

  // ----- the grammar as a function of the tokens -----

  const strays := {"else", "then", "until", "while", "repeat", "again", "loop", "+loop",
                   "of", "endof", "default", "other", "endcase"}

  const openers := {"if", "begin", "do", "?do", "case", "'", "to", "see", "{:"}

  function SkipComments(toks: seq<Tok>): (rest: seq<Tok>)
    ensures |rest| <= |toks|
    ensures rest != [] ==> !rest[0].Comment?
  {
    if toks != [] && toks[0].Comment? then SkipComments(toks[1..]) else toks
  }

  function ParseName(toks: seq<Tok>, keyword: string): (r: Result<string>)
    ensures r.Ok? ==> |r.rest| < |toks|
  {
    if toks != [] && toks[0].Word? then Ok(toks[0].text, toks[1..]) else Err(ExpectedName(keyword))
  }

  /** The names of a locals block up to its closing bracket. */
  function ParseLocals(toks: seq<Tok>): (r: Result<seq<string>>)
    ensures r.Ok? ==> |r.rest| < |toks|
    decreases |toks|
  {
    var t := SkipComments(toks);
    if t == [] || !t[0].Word? then Err(UnterminatedLocals)
    else if t[0].text == ":}" then Ok([], t[1..])
    else if t[0].text == ";" || t[0].text == ":" || t[0].text == "{:" then Err(UnterminatedLocals)
    else
      match ParseLocals(t[1..])
      case Ok(names, rest) => Ok([t[0].text] + names, rest)
      case Err(e) => Err(e)
  }

  function ParseExpr(toks: seq<Tok>): (r: Result<Expr>)
    ensures r.Ok? ==> |r.rest| < |toks|
    decreases |toks|, 0
  {
    if toks == [] then Err(Nothing)
    else
      match toks[0]
      case Int(v) => Ok(Lit(v), toks[1..])
      case Comment => ParseExpr(toks[1..])
      case Word(w) =>
        var lc := Lower(w);
        if lc == "if" then ParseIf(toks[1..])
        else if lc == "begin" then ParseBegin(toks[1..])
        else if lc == "do" || lc == "?do" then ParseDo(toks[1..], lc == "?do")
        else if lc == "case" then
          match ParseCase(toks[1..])
          case Ok(c, rest) => Ok(Case(c.arms, c.default), rest)
          case Err(e) => Err(e)
        else if lc == "'" then
          match ParseName(toks[1..], "'")
          case Ok(name, rest) => Ok(Tick(name), rest)
          case Err(e) => Err(e)
        else if lc == "to" then
          match ParseName(toks[1..], "TO")
          case Ok(name, rest) => Ok(To(name), rest)
          case Err(e) => Err(e)
        else if lc == "{:" then
          match ParseLocals(toks[1..])
          case Ok(names, rest) => Ok(Locals(names), rest)
          case Err(e) => Err(e)
        else if lc == "see" then Err(SeeNotModelled)
        else if lc in strays then Err(StrayControlWord(lc))
        else Ok(WordRef(w), toks[1..])
  }

  /** A body up to one of the terminators. */
  function ParseBlock(opener: string, terms: set<string>, toks: seq<Tok>): (r: Result<Block>)
    ensures r.Ok? ==> |r.rest| < |toks| && r.value.term in terms
    decreases |toks|, 1
  {
    var t := SkipComments(toks);
    if t == [] then Err(UnterminatedControl(opener))
    else if t[0].Word? && Lower(t[0].text) in terms then Ok(Block([], Lower(t[0].text)), t[1..])
    else if t[0].Word? && t[0].text == ";" then Err(UnterminatedControl(opener))
    else
      match ParseExpr(t)
      case Err(e) => Err(e)
      case Ok(e, rest) => Consed(e, ParseBlock(opener, terms, rest))
  }

  function Consed(e: Expr, r: Result<Block>): Result<Block> {
    match r
    case Ok(b, rest) => Ok(Block([e] + b.body, b.term), rest)
    case Err(err) => Err(err)
  }

  function ParseIf(toks: seq<Tok>): (r: Result<Expr>)
    ensures r.Ok? ==> |r.rest| < |toks|
    decreases |toks|, 2
  {
    match ParseBlock("if", {"else", "then"}, toks)
    case Err(e) => Err(e)
    case Ok(b, rest) =>
      if b.term == "then" then Ok(If(b.body, NoElse), rest)
      else
        match ParseBlock("else", {"then"}, rest)
        case Err(e) => Err(e)
        case Ok(f, rest1) => Ok(If(b.body, ElseBody(f.body)), rest1)
  }

  function ParseBegin(toks: seq<Tok>): (r: Result<Expr>)
    ensures r.Ok? ==> |r.rest| < |toks|
    decreases |toks|, 2
  {
    match ParseBlock("begin", {"until", "again", "while"}, toks)
    case Err(e) => Err(e)
    case Ok(b, rest) =>
      if b.term == "until" then Ok(BeginUntil(b.body), rest)
      else if b.term == "again" then Ok(BeginAgain(b.body), rest)
      else
        match ParseBlock("while", {"repeat"}, rest)
        case Err(e) => Err(e)
        case Ok(body, rest1) => Ok(BeginWhileRepeat(b.body, body.body), rest1)
  }

  function ParseDo(toks: seq<Tok>, isQdo: bool): (r: Result<Expr>)
    ensures r.Ok? ==> |r.rest| < |toks|
    decreases |toks|, 2
  {
    match ParseBlock(if isQdo then "?do" else "do", {"loop", "+loop"}, toks)
    case Err(e) => Err(e)
    case Ok(b, rest) => Ok(DoLoop(isQdo, b.body, if b.term == "loop" then Plus1 else PlusN), rest)
  }

  const caseTerms := {"of", "default", "other", "endcase"}

  /** The arms of a CASE: expressions before OF are a match; those before ENDCASE are the default. */
  function ParseCase(toks: seq<Tok>): (r: Result<Arms>)
    ensures r.Ok? ==> |r.rest| < |toks|
    decreases |toks|, 2
  {
    match ParseBlock("case", caseTerms, toks)
    case Err(e) => Err(e)
    case Ok(b, rest) =>
      if b.term == "of" then
        match ParseBlock("of", {"endof"}, rest)
        case Err(e) => Err(e)
        case Ok(body, rest1) => AddArm(Arm(b.body, body.body), ParseCase(rest1))
      else if b.term == "default" || b.term == "other" then
        match ParseBlock(b.term, {"endcase"}, rest)
        case Err(e) => Err(e)
        case Ok(d, rest1) => Ok(Arms([], ElseBody(d.body)), rest1)
      else Ok(Arms([], if b.body == [] then NoElse else ElseBody(b.body)), rest)
  }

  function AddArm(arm: Arm, r: Result<Arms>): Result<Arms> {
    match r
    case Ok(c, rest) => Ok(Arms([arm] + c.arms, c.default), rest)
    case Err(e) => Err(e)
  }

  // ----- printing -----

  /** Words that can stand for themselves in a body, and names that can stand in a locals block. */
  predicate Plain(name: string) {
    name != ";" && Lower(name) !in openers && Lower(name) !in strays
  }

  predicate PlainLocal(name: string) {
    name != ":}" && name != ";" && name != ":" && name != "{:"
  }

  predicate Printable(s: seq<Expr>)
    decreases SizeSeq(s), 1, |s|
  {
    s != [] ==> PrintableExpr(s[0]) && Printable(s[1..])
  }

  predicate PrintableExpr(e: Expr)
    decreases SizeExpr(e), 0
  {
    match e
    case WordRef(name) => Plain(name)
    case If(thenBody, elseBody) => Printable(thenBody) && PrintableElse(elseBody)
    case BeginUntil(body) => Printable(body)
    case BeginAgain(body) => Printable(body)
    case BeginWhileRepeat(pred, body) => Printable(pred) && Printable(body)
    case DoLoop(_, body, _) => Printable(body)
    case Case(arms, default) => PrintableArms(arms) && PrintableElse(default)
    case Locals(names) => forall name <- names :: PlainLocal(name)
    case Global(_, _) => false
    case _ => true
  }

  predicate PrintableElse(e: Else)
    decreases SizeElse(e), 0
  {
    e.ElseBody? ==> Printable(e.body)
  }

  predicate PrintableArms(arms: seq<Arm>)
    decreases SizeArms(arms), 0
  {
    arms != [] ==> Printable(arms[0].matchExpr) && Printable(arms[0].body) && PrintableArms(arms[1..])
  }

  /** `implicit` leaves out the word DEFAULT where the grammar allows it. */
  function Print(s: seq<Expr>, implicit: bool): seq<Tok>
    decreases SizeSeq(s), 2, |s|
  {
    if s == [] then [] else PrintExpr(s[0], implicit) + Print(s[1..], implicit)
  }

  function PrintExpr(e: Expr, implicit: bool): seq<Tok>
    decreases SizeExpr(e), 1
  {
    match e
    case Lit(v) => [Int(v)]
    case WordRef(name) => [Word(name)]
    case If(thenBody, elseBody) =>
      [Word("if")] + (Print(thenBody, implicit) + PrintElse(elseBody, implicit))
    case BeginUntil(body) => [Word("begin")] + (Print(body, implicit) + [Word("until")])
    case BeginAgain(body) => [Word("begin")] + (Print(body, implicit) + [Word("again")])
    case BeginWhileRepeat(pred, body) =>
      [Word("begin")] + (Print(pred, implicit) + ([Word("while")] + (Print(body, implicit) + [Word("repeat")])))
    case DoLoop(isQdo, body, kind) =>
      [Word(if isQdo then "?do" else "do")] +
      (Print(body, implicit) + [Word(if kind == Plus1 then "loop" else "+loop")])
    case Case(arms, default) => [Word("case")] + PrintArms(arms, default, implicit)
    case Tick(name) => [Word("'")] + [Word(name)]
    case To(name) => [Word("to")] + [Word(name)]
    case Locals(names) => [Word("{:")] + PrintNames(names)
    case Global(_, _) => []
  }

  function PrintElse(e: Else, implicit: bool): seq<Tok>
    decreases SizeElse(e), 0
  {
    match e
    case NoElse => [Word("then")]
    case ElseBody(body) => [Word("else")] + (Print(body, implicit) + [Word("then")])
  }

  function PrintArms(arms: seq<Arm>, default: Else, implicit: bool): seq<Tok>
    decreases SizeArms(arms) + SizeElse(default), 1
  {
    if arms == [] then PrintDefault(default, implicit)
    else
      Print(arms[0].matchExpr, implicit) +
      ([Word("of")] + (Print(arms[0].body, implicit) + ([Word("endof")] + PrintArms(arms[1..], default, implicit))))
  }

  function PrintDefault(e: Else, implicit: bool): seq<Tok>
    decreases SizeElse(e), 0
  {
    match e
    case NoElse => [Word("endcase")]
    case ElseBody(body) =>
      (if implicit && body != [] then [] else [Word("default")]) + (Print(body, implicit) + [Word("endcase")])
  }

  function PrintNames(names: seq<string>): seq<Tok> {
    if names == [] then [Word(":}")] else [Word(names[0])] + PrintNames(names[1..])
  }

  // ----- the cursor -----

  /** The parser of the source: a token list and a cursor that only moves forward. */
  class Parser {
    const toks: seq<Tok>
    var i: nat

    constructor (toks: seq<Tok>)
      ensures this.toks == toks && i == 0
    {
      this.toks := toks;
      i := 0;
    }

    ghost predicate Valid()
      reads this
    {
      i <= |toks|
    }

    function Left(): seq<Tok>
      requires Valid()
      reads this
    {
      toks[i..]
    }

    method Bump()
      requires Valid() && i < |toks|
      modifies this
      ensures Valid() && i == old(i) + 1 && Left() == old(Left())[1..]
    {
      i := i + 1;
    }

    method SkipCommentTokens()
      requires Valid()
      modifies this
      ensures Valid() && Left() == SkipComments(old(Left())) && i >= old(i)
    {
      while i < |toks| && toks[i].Comment?
        invariant Valid() && SkipComments(old(Left())) == SkipComments(Left()) && i >= old(i)
      {
        i := i + 1;
      }
    }

    method NameAfter(keyword: string) returns (r: Result<string>)
      requires Valid()
      modifies this
      ensures Valid() && i >= old(i) && r == ParseName(old(Left()), keyword)
      ensures r.Ok? ==> r.rest == Left() && i > old(i)
    {
      if i < |toks| && toks[i].Word? {
        var name := toks[i].text;
        Bump();
        r := Ok(name, Left());
      } else {
        r := Err(ExpectedName(keyword));
      }
    }

    method LocalsBlock() returns (r: Result<seq<string>>)
      requires Valid()
      modifies this
      ensures Valid() && i >= old(i) && r == ParseLocals(old(Left()))
      ensures r.Ok? ==> r.rest == Left() && i > old(i)
    {
      var names := [];
      assert Named(names, ParseLocals(Left())) == ParseLocals(Left()) by {
        NamedNothing(ParseLocals(Left()));
      }
      while true
        invariant Valid() && i >= old(i)
        invariant ParseLocals(old(Left())) == Named(names, ParseLocals(Left()))
        decreases |toks| - i
      {
        SkipCommentTokens();
        if i == |toks| || !toks[i].Word? {
          return Err(UnterminatedLocals);
        }
        var w := toks[i].text;
        if w == ":}" {
          Bump();
          assert names + [] == names;
          return Ok(names, Left());
        }
        if w == ";" || w == ":" || w == "{:" {
          return Err(UnterminatedLocals);
        }
        Bump();
        NamedTwice(names, w, ParseLocals(Left()));
        names := names + [w];
      }
    }

    method ExprOne() returns (r: Result<Expr>)
      requires Valid()
      modifies this
      ensures Valid() && i >= old(i) && r == ParseExpr(old(Left()))
      ensures r.Ok? ==> r.rest == Left() && i > old(i)
      decreases |toks| - i, 0
    {
      if i == |toks| {
        return Err(Nothing);
      }
      match toks[i] {
        case Int(v) =>
          Bump();
          r := Ok(Lit(v), Left());
        case Comment =>
          Bump();
          r := ExprOne();
        case Word(w) =>
          var lc := Lower(w);
          if lc in strays {
            return Err(StrayControlWord(lc));
          }
          if lc == "see" {
            return Err(SeeNotModelled);
          }
          Bump();
          if lc == "if" {
            r := IfBlock();
          } else if lc == "begin" {
            r := BeginBlock();
          } else if lc == "do" || lc == "?do" {
            r := DoBlock(lc == "?do");
          } else if lc == "case" {
            var c := CaseBlock();
            r := if c.Ok? then Ok(Case(c.value.arms, c.value.default), c.rest) else Err(c.error);
          } else if lc == "'" {
            var name := NameAfter("'");
            r := if name.Ok? then Ok(Tick(name.value), name.rest) else Err(name.error);
          } else if lc == "to" {
            var name := NameAfter("TO");
            r := if name.Ok? then Ok(To(name.value), name.rest) else Err(name.error);
          } else if lc == "{:" {
            var names := LocalsBlock();
            r := if names.Ok? then Ok(Locals(names.value), names.rest) else Err(names.error);
          } else {
            r := Ok(WordRef(w), Left());
          }
      }
    }

    method BlockUntil(opener: string, terms: set<string>) returns (r: Result<Block>)
      requires Valid()
      modifies this
      ensures Valid() && i >= old(i) && r == ParseBlock(opener, terms, old(Left()))
      ensures r.Ok? ==> r.rest == Left() && i > old(i)
      decreases |toks| - i, 1
    {
      var body := [];
      assert Appended(body, ParseBlock(opener, terms, Left())) == ParseBlock(opener, terms, Left()) by {
        AppendedNothing(ParseBlock(opener, terms, Left()));
      }
      while true
        invariant Valid() && i >= old(i)
        invariant ParseBlock(opener, terms, old(Left())) == Appended(body, ParseBlock(opener, terms, Left()))
        decreases |toks| - i
      {
        SkipCommentTokens();
        if i == |toks| {
          return Err(UnterminatedControl(opener));
        }
        if toks[i].Word? {
          var lc := Lower(toks[i].text);
          if lc in terms {
            Bump();
            assert body + [] == body;
            return Ok(Block(body, lc), Left());
          }
          if toks[i].text == ";" {
            return Err(UnterminatedControl(opener));
          }
        }
        var e := ExprOne();
        if e.Err? {
          return Err(e.error);
        }
        AppendedConsed(body, e.value, ParseBlock(opener, terms, Left()));
        body := body + [e.value];
      }
    }

    method IfBlock() returns (r: Result<Expr>)
      requires Valid()
      modifies this
      ensures Valid() && i >= old(i) && r == ParseIf(old(Left()))
      ensures r.Ok? ==> r.rest == Left() && i > old(i)
      decreases |toks| - i, 2
    {
      var b := BlockUntil("if", {"else", "then"});
      if b.Err? {
        return Err(b.error);
      }
      if b.value.term == "else" {
        var f := BlockUntil("else", {"then"});
        if f.Err? {
          return Err(f.error);
        }
        return Ok(If(b.value.body, ElseBody(f.value.body)), f.rest);
      }
      r := Ok(If(b.value.body, NoElse), b.rest);
    }

    method BeginBlock() returns (r: Result<Expr>)
      requires Valid()
      modifies this
      ensures Valid() && i >= old(i) && r == ParseBegin(old(Left()))
      ensures r.Ok? ==> r.rest == Left() && i > old(i)
      decreases |toks| - i, 2
    {
      var b := BlockUntil("begin", {"until", "again", "while"});
      if b.Err? {
        return Err(b.error);
      }
      if b.value.term == "until" {
        return Ok(BeginUntil(b.value.body), b.rest);
      }
      if b.value.term == "again" {
        return Ok(BeginAgain(b.value.body), b.rest);
      }
      var body := BlockUntil("while", {"repeat"});
      if body.Err? {
        return Err(body.error);
      }
      r := Ok(BeginWhileRepeat(b.value.body, body.value.body), body.rest);
    }

    method DoBlock(isQdo: bool) returns (r: Result<Expr>)
      requires Valid()
      modifies this
      ensures Valid() && i >= old(i) && r == ParseDo(old(Left()), isQdo)
      ensures r.Ok? ==> r.rest == Left() && i > old(i)
      decreases |toks| - i, 2
    {
      var b := BlockUntil(if isQdo then "?do" else "do", {"loop", "+loop"});
      if b.Err? {
        return Err(b.error);
      }
      r := Ok(DoLoop(isQdo, b.value.body, if b.value.term == "loop" then Plus1 else PlusN), b.rest);
    }

    method CaseBlock() returns (r: Result<Arms>)
      requires Valid()
      modifies this
      ensures Valid() && i >= old(i) && r == ParseCase(old(Left()))
      ensures r.Ok? ==> r.rest == Left() && i > old(i)
      decreases |toks| - i, 2
    {
      var arms := [];
      assert Armed(arms, ParseCase(Left())) == ParseCase(Left()) by {
        ArmedNothing(ParseCase(Left()));
      }
      while true
        invariant Valid() && i >= old(i)
        invariant ParseCase(old(Left())) == Armed(arms, ParseCase(Left()))
        decreases |toks| - i
      {
        var b := BlockUntil("case", caseTerms);
        if b.Err? {
          return Err(b.error);
        }
        var term := b.value.term;
        if term == "of" {
          var body := BlockUntil("of", {"endof"});
          if body.Err? {
            return Err(body.error);
          }
          var arm := Arm(b.value.body, body.value.body);
          ArmedAdd(arms, arm, ParseCase(Left()));
          arms := arms + [arm];
        } else if term == "default" || term == "other" {
          var d := BlockUntil(term, {"endcase"});
          if d.Err? {
            return Err(d.error);
          }
          assert arms + [] == arms;
          return Ok(Arms(arms, ElseBody(d.value.body)), d.rest);
        } else {
          assert arms + [] == arms;
          return Ok(Arms(arms, if b.value.body == [] then NoElse else ElseBody(b.value.body)), b.rest);
        }
      }
    }
  }

  // ----- results with what was read before -----

  function Named(names: seq<string>, r: Result<seq<string>>): Result<seq<string>> {
    match r
    case Ok(more, rest) => Ok(names + more, rest)
    case Err(e) => Err(e)
  }

  lemma NamedNothing(r: Result<seq<string>>)
    ensures Named([], r) == r
  {
    match r
    case Ok(more, _) => assert [] + more == more;
    case Err(_) =>
  }

  lemma NamedTwice(names: seq<string>, w: string, r: Result<seq<string>>)
    ensures Named(names, Named([w], r)) == Named(names + [w], r)
  {
    match r
    case Ok(more, _) => assert names + ([w] + more) == names + [w] + more;
    case Err(_) =>
  }

  function Appended(body: seq<Expr>, r: Result<Block>): Result<Block> {
    match r
    case Ok(b, rest) => Ok(Block(body + b.body, b.term), rest)
    case Err(e) => Err(e)
  }

  lemma AppendedNothing(r: Result<Block>)
    ensures Appended([], r) == r
  {
    match r
    case Ok(b, _) => assert [] + b.body == b.body;
    case Err(_) =>
  }

  lemma AppendedConsed(body: seq<Expr>, e: Expr, r: Result<Block>)
    ensures Appended(body, Consed(e, r)) == Appended(body + [e], r)
  {
    match r
    case Ok(b, _) => assert body + ([e] + b.body) == body + [e] + b.body;
    case Err(_) =>
  }

  function Armed(arms: seq<Arm>, r: Result<Arms>): Result<Arms> {
    match r
    case Ok(c, rest) => Ok(Arms(arms + c.arms, c.default), rest)
    case Err(e) => Err(e)
  }

  lemma ArmedNothing(r: Result<Arms>)
    ensures Armed([], r) == r
  {
    match r
    case Ok(c, _) => assert [] + c.arms == c.arms;
    case Err(_) =>
  }

  lemma ArmedAdd(arms: seq<Arm>, arm: Arm, r: Result<Arms>)
    ensures Armed(arms, AddArm(arm, r)) == Armed(arms + [arm], r)
  {
    match r
    case Ok(c, _) => assert arms + ([arm] + c.arms) == arms + [arm] + c.arms;
    case Err(_) =>
  }
}
