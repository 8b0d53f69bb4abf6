/** Parsing looks at the keyword that a word stands for, not at how it is spelled (src/compiler/parse.rs). */
module ParseSpelling {
  import opened Forth
  import opened Parse

  // ----- one spelling for each keyword -----

  predicate IsKeyword(lc: string) {
    lc in openers || lc in strays
  }

  /** Keywords in lower case, with DEFAULT for OTHER; other words as they are. */
  function Respell(w: string): string {
    var lc := Lower(w);
    if lc == "other" then "default" else if IsKeyword(lc) then lc else w
  }

  function RespellTok(t: Tok): Tok {
    if t.Word? then Word(Respell(t.text)) else t
  }

  function RespellToks(toks: seq<Tok>): (r: seq<Tok>)
    ensures |r| == |toks|
  {
    seq(|toks|, i requires 0 <= i < |toks| => RespellTok(toks[i]))
  }

  function RespellNames(names: seq<string>): (r: seq<string>)
    ensures |r| == |names|
  {
    seq(|names|, i requires 0 <= i < |names| => Respell(names[i]))
  }

  // ----- and the same for trees -----

  function RespellSeq(s: seq<Expr>): seq<Expr>
    decreases SizeSeq(s), 1, |s|
  {
    if s == [] then [] else [RespellExpr(s[0])] + RespellSeq(s[1..])
  }

  function RespellExpr(e: Expr): Expr
    decreases SizeExpr(e), 0
  {
    match e
    case WordRef(name) => WordRef(Respell(name))
    case Tick(name) => Tick(Respell(name))
    case To(name) => To(Respell(name))
    case Locals(names) => Locals(RespellNames(names))
    case If(thenBody, elseBody) => If(RespellSeq(thenBody), RespellElse(elseBody))
    case BeginUntil(body) => BeginUntil(RespellSeq(body))
    case BeginAgain(body) => BeginAgain(RespellSeq(body))
    case BeginWhileRepeat(pred, body) => BeginWhileRepeat(RespellSeq(pred), RespellSeq(body))
    case DoLoop(isQdo, body, kind) => DoLoop(isQdo, RespellSeq(body), kind)
    case Case(arms, default) => Case(RespellArms(arms), RespellElse(default))
    case _ => e
  }

  function RespellElse(e: Else): Else
    decreases SizeElse(e), 0
  {
    match e
    case NoElse => NoElse
    case ElseBody(body) => ElseBody(RespellSeq(body))
  }

  function RespellArms(arms: seq<Arm>): seq<Arm>
    decreases SizeArms(arms), 0
  {
    if arms == [] then []
    else [Arm(RespellSeq(arms[0].matchExpr), RespellSeq(arms[0].body))] + RespellArms(arms[1..])
  }

  function RespellError(e: ParseError): ParseError {
    match e
    case UnterminatedControl(opener) => UnterminatedControl(Respell(opener))
    case StrayControlWord(word) => StrayControlWord(Respell(word))
    case _ => e
  }

  function RespellBlock(b: Block): Block {
    Block(RespellSeq(b.body), Respell(b.term))
  }

  function RespellCase(c: Arms): Arms {
    Arms(RespellArms(c.arms), RespellElse(c.default))
  }

  /** A result whose value is respelled by f, its error and its rest with it. */
  function Mapped<T>(f: T -> T, r: Result<T>): Result<T> {
    match r
    case Ok(v, rest) => Ok(f(v), RespellToks(rest))
    case Err(e) => Err(RespellError(e))
  }

  // ----- spelling -----

  lemma LowerTwice(w: string)
    ensures Lower(Lower(w)) == Lower(w)
  {}

  lemma Spellings()
    ensures Lower("default") == "default" && Lower("other") == "other"
    ensures Lower(";") == ";" && Lower(":}") == ":}" && Lower(":") == ":" && Lower("{:") == "{:"
    ensures !IsKeyword(";") && !IsKeyword(":}") && !IsKeyword(":") && IsKeyword("{:")
    ensures IsKeyword("default") && IsKeyword("other")
  {}

  /** What a word is to the parser stays what it is. */
  lemma RespellKeeps(w: string)
    ensures Lower(Respell(w)) == if Lower(w) == "other" then "default" else Lower(w)
    ensures (Respell(w) == ";" <==> w == ";") && (Respell(w) == ":}" <==> w == ":}")
    ensures (Respell(w) == ":" <==> w == ":") && (Respell(w) == "{:" <==> w == "{:")
  {
    LowerTwice(w);
    Spellings();
    if Lower(w) == "{:" {
      assert |w| == 2 && Lower(w)[0] == LowerChar(w[0]) && Lower(w)[1] == LowerChar(w[1]);
      assert w == "{:";
    }
  }

  /** The tokens of a word's successor. */
  lemma RespellRest(toks: seq<Tok>)
    requires toks != []
    ensures RespellToks(toks)[0] == RespellTok(toks[0]) && RespellToks(toks)[1..] == RespellToks(toks[1..])
  {}

  lemma {:induction false} SpellComments(toks: seq<Tok>)
    ensures SkipComments(RespellToks(toks)) == RespellToks(SkipComments(toks))
  {
    if toks != [] && toks[0].Comment? {
      RespellRest(toks);
      SpellComments(toks[1..]);
    }
  }

  // ----- parsing -----

  /** Terminators are keywords, OTHER with DEFAULT. */
  predicate Terminators(terms: set<string>) {
    (forall t <- terms :: IsKeyword(t) && Lower(t) == t) && ("other" in terms <==> "default" in terms)
  }

  lemma SpellName(toks: seq<Tok>, keyword: string)
    ensures ParseName(RespellToks(toks), keyword) == Mapped(Respell, ParseName(toks, keyword))
  {
    if toks != [] {
      RespellRest(toks);
    }
  }

  lemma {:induction false} SpellLocals(toks: seq<Tok>)
    ensures ParseLocals(RespellToks(toks)) == Mapped(RespellNames, ParseLocals(toks))
    decreases |toks|
  {
    SpellComments(toks);
    var t := SkipComments(toks);
    if t != [] && t[0].Word? {
      RespellRest(t);
      RespellKeeps(t[0].text);
      SpellLocals(t[1..]);
      SpellFirst(t[0].text, ParseLocals(t[1..]));
    }
  }

  lemma SpellFirst(name: string, r: Result<seq<string>>)
    ensures Mapped(RespellNames, Named([name], r)) == Named([Respell(name)], Mapped(RespellNames, r))
  {
    match r
    case Ok(names, _) => assert RespellNames([name] + names) == [Respell(name)] + RespellNames(names);
    case Err(_) =>
  }

  lemma SpellConsed(e: Expr, r: Result<Block>)
    ensures Mapped(RespellBlock, Consed(e, r)) == Consed(RespellExpr(e), Mapped(RespellBlock, r))
  {
    match r
    case Ok(b, _) => assert ([e] + b.body)[1..] == b.body;
    case Err(_) =>
  }

  lemma {:induction false} SpellBlock(opener: string, terms: set<string>, toks: seq<Tok>)
    requires Terminators(terms)
    ensures ParseBlock(Respell(opener), terms, RespellToks(toks)) ==
            Mapped(RespellBlock, ParseBlock(opener, terms, toks))
    decreases |toks|, 1
  {
    SpellComments(toks);
    var t := SkipComments(toks);
    if t != [] {
      RespellRest(t);
      if t[0].Word? {
        SpellEnd(terms, t[0].text);
      }
      if !(t[0].Word? && (Lower(t[0].text) in terms || t[0].text == ";")) {
        SpellExpr(t);
        match ParseExpr(t)
        case Ok(e, rest) =>
          SpellBlock(opener, terms, rest);
          SpellConsed(e, ParseBlock(opener, terms, rest));
        case Err(_) =>
      }
    }
  }

  /** A word ends a block in every spelling or in none. */
  lemma SpellEnd(terms: set<string>, w: string)
    requires Terminators(terms)
    ensures Lower(Respell(w)) in terms <==> Lower(w) in terms
    ensures Lower(w) in terms ==> Lower(Respell(w)) == Respell(Lower(w))
    ensures Respell(w) == ";" <==> w == ";"
  {
    RespellKeeps(w);
    LowerTwice(w);
  }

  lemma {:induction false} SpellExpr(toks: seq<Tok>)
    ensures ParseExpr(RespellToks(toks)) == Mapped(RespellExpr, ParseExpr(toks))
    decreases |toks|, 0
  {
    if toks != [] {
      RespellRest(toks);
      match toks[0]
      case Int(_) =>
      case Comment => SpellExpr(toks[1..]);
      case Word(w) => SpellWord(w, toks);
    }
  }

  lemma {:induction false} SpellWord(w: string, toks: seq<Tok>)
    requires toks != [] && toks[0] == Word(w)
    ensures ParseExpr(RespellToks(toks)) == Mapped(RespellExpr, ParseExpr(toks))
    decreases |toks|, 0, 0
  {
    var lc, rest := Lower(w), toks[1..];
    if lc in openers {
      RespellKeeps(w);
      RespellRest(toks);
      OtherOpensNothing();
      Dispatch(w, rest);
      Dispatch(Respell(w), RespellToks(rest));
      assert toks == [Word(w)] + rest;
      assert RespellToks(toks) == [Word(Respell(w))] + RespellToks(rest);
      SpellOpened(lc, rest);
    } else {
      SpellOther(w, toks);
    }
  }

  lemma OtherOpensNothing()
    ensures "other" !in openers
  {}

  /** What the word that opens a construct makes of the tokens after it. */
  function Opened(lc: string, rest: seq<Tok>): Result<Expr>
    requires lc in openers
  {
    if lc == "if" then ParseIf(rest)
    else if lc == "begin" then ParseBegin(rest)
    else if lc == "do" || lc == "?do" then ParseDo(rest, lc == "?do")
    else if lc == "case" then
      match ParseCase(rest)
      case Ok(c, rest1) => Ok(Case(c.arms, c.default), rest1)
      case Err(e) => Err(e)
    else if lc == "{:" then
      match ParseLocals(rest)
      case Ok(names, rest1) => Ok(Locals(names), rest1)
      case Err(e) => Err(e)
    else if lc == "see" then Err(SeeNotModelled)
    else
      match ParseName(rest, if lc == "to" then "TO" else "'")
      case Ok(name, rest1) => Ok(if lc == "to" then To(name) else Tick(name), rest1)
      case Err(e) => Err(e)
  }

  /** It is the word in lower case that counts. */
  lemma Dispatch(w: string, rest: seq<Tok>)
    requires Lower(w) in openers
    ensures ParseExpr([Word(w)] + rest) == Opened(Lower(w), rest)
  {
    assert ([Word(w)] + rest)[1..] == rest;
  }

  lemma {:induction false} SpellOpened(lc: string, rest: seq<Tok>)
    requires lc in openers
    ensures Opened(lc, RespellToks(rest)) == Mapped(RespellExpr, Opened(lc, rest))
    decreases |rest|, 3
  {
    if lc == "if" {
      SpellIf(rest);
    } else if lc == "begin" {
      SpellBegin(rest);
    } else if lc == "do" || lc == "?do" {
      SpellDo(rest, lc == "?do");
    } else if lc == "case" {
      SpellCase(rest);
    } else if lc == "{:" {
      SpellLocals(rest);
    } else if lc != "see" {
      SpellName(rest, if lc == "to" then "TO" else "'");
    }
  }

  /** Words that open nothing. */
  lemma SpellOther(w: string, toks: seq<Tok>)
    requires toks != [] && toks[0] == Word(w) && Lower(w) !in openers
    ensures ParseExpr(RespellToks(toks)) == Mapped(RespellExpr, ParseExpr(toks))
  {
    RespellRest(toks);
    RespellKeeps(w);
    LowerTwice(w);
    DefaultStray();
    Plainly(w, toks);
    Plainly(Respell(w), RespellToks(toks));
    if Lower(w) in strays {
      assert Respell(Lower(w)) == Lower(Respell(w));
    } else {
      assert Respell(w) == w;
    }
  }

  lemma DefaultStray()
    ensures "default" in strays && "default" !in openers && "other" in strays
  {}

  lemma Plainly(w: string, toks: seq<Tok>)
    requires toks != [] && toks[0] == Word(w) && Lower(w) !in openers
    ensures ParseExpr(toks) ==
            if Lower(w) in strays then Err(StrayControlWord(Lower(w))) else Ok(WordRef(w), toks[1..])
  {}

  lemma {:induction false} SpellIf(toks: seq<Tok>)
    ensures ParseIf(RespellToks(toks)) == Mapped(RespellExpr, ParseIf(toks))
    decreases |toks|, 2
  {
    IfTerms();
    SpellBlock("if", {"else", "then"}, toks);
    match ParseBlock("if", {"else", "then"}, toks)
    case Ok(b, rest) =>
      if b.term == "else" {
        SpellBlock("else", {"then"}, rest);
      }
    case Err(_) =>
  }

  lemma IfTerms()
    ensures Terminators({"else", "then"}) && Terminators({"then"})
    ensures Respell("if") == "if" && Respell("else") == "else" && Respell("then") == "then"
  {
    assert Lower("if") == "if" && Lower("else") == "else" && Lower("then") == "then";
  }

  lemma {:induction false} SpellBegin(toks: seq<Tok>)
    ensures ParseBegin(RespellToks(toks)) == Mapped(RespellExpr, ParseBegin(toks))
    decreases |toks|, 2
  {
    BeginTerms();
    SpellBlock("begin", {"until", "again", "while"}, toks);
    var r := ParseBlock("begin", {"until", "again", "while"}, toks);
    if r.Err? {
      BeginFails(toks);
      BeginFails(RespellToks(toks));
    } else if r.value.term == "while" {
      SpellBlock("while", {"repeat"}, r.rest);
      SpellWhile(toks, r.value, r.rest);
    } else {
      SpellShort(toks, r.value, r.rest);
    }
  }

  lemma BeginFails(toks: seq<Tok>)
    ensures var r := ParseBlock("begin", {"until", "again", "while"}, toks);
            r.Err? ==> ParseBegin(toks) == Err(r.error)
  {}

  lemma SpellWhile(toks: seq<Tok>, b: Block, rest: seq<Tok>)
    requires ParseBlock("begin", {"until", "again", "while"}, toks) == Ok(b, rest) && b.term == "while"
    requires ParseBlock("begin", {"until", "again", "while"}, RespellToks(toks))
             == Ok(RespellBlock(b), RespellToks(rest))
    requires ParseBlock("while", {"repeat"}, RespellToks(rest))
             == Mapped(RespellBlock, ParseBlock("while", {"repeat"}, rest))
    ensures ParseBegin(RespellToks(toks)) == Mapped(RespellExpr, ParseBegin(toks))
  {
    BeginEnd(b.term);
    WhileBegun(toks, b, rest);
    WhileBegun(RespellToks(toks), RespellBlock(b), RespellToks(rest));
  }

  lemma SpellShort(toks: seq<Tok>, b: Block, rest: seq<Tok>)
    requires ParseBlock("begin", {"until", "again", "while"}, toks) == Ok(b, rest) && b.term != "while"
    requires ParseBlock("begin", {"until", "again", "while"}, RespellToks(toks))
             == Ok(RespellBlock(b), RespellToks(rest))
    ensures ParseBegin(RespellToks(toks)) == Mapped(RespellExpr, ParseBegin(toks))
  {
    BeginEnd(b.term);
    ShortBegun(toks, b, rest);
    ShortBegun(RespellToks(toks), RespellBlock(b), RespellToks(rest));
  }

  lemma WhileBegun(toks: seq<Tok>, b: Block, rest: seq<Tok>)
    requires ParseBlock("begin", {"until", "again", "while"}, toks) == Ok(b, rest) && b.term == "while"
    ensures ParseBegin(toks) ==
            match ParseBlock("while", {"repeat"}, rest)
            case Ok(body, rest1) => Ok(BeginWhileRepeat(b.body, body.body), rest1)
            case Err(e) => Err(e)
  {}

  lemma ShortBegun(toks: seq<Tok>, b: Block, rest: seq<Tok>)
    requires ParseBlock("begin", {"until", "again", "while"}, toks) == Ok(b, rest) && b.term != "while"
    ensures ParseBegin(toks) == Ok(if b.term == "until" then BeginUntil(b.body) else BeginAgain(b.body), rest)
  {}

  lemma BeginEnd(term: string)
    requires term in {"until", "again", "while"}
    ensures Respell(term) == term
  {
    BeginTerms();
  }

  lemma BeginTerms()
    ensures Terminators({"until", "again", "while"}) && Terminators({"repeat"})
    ensures Respell("begin") == "begin" && Respell("until") == "until" && Respell("again") == "again"
    ensures Respell("while") == "while" && Respell("repeat") == "repeat"
  {
    assert Lower("begin") == "begin" && Lower("until") == "until" && Lower("again") == "again";
    assert Lower("while") == "while" && Lower("repeat") == "repeat";
  }

  lemma {:induction false} SpellDo(toks: seq<Tok>, isQdo: bool)
    ensures ParseDo(RespellToks(toks), isQdo) == Mapped(RespellExpr, ParseDo(toks, isQdo))
    decreases |toks|, 2
  {
    DoTerms();
    SpellBlock(if isQdo then "?do" else "do", {"loop", "+loop"}, toks);
    DoDone(toks, isQdo);
    DoDone(RespellToks(toks), isQdo);
    SpellDone(isQdo, ParseBlock(if isQdo then "?do" else "do", {"loop", "+loop"}, toks));
  }

  function Done(isQdo: bool, r: Result<Block>): Result<Expr> {
    match r
    case Ok(b, rest) => Ok(DoLoop(isQdo, b.body, if b.term == "loop" then Plus1 else PlusN), rest)
    case Err(e) => Err(e)
  }

  lemma DoDone(toks: seq<Tok>, isQdo: bool)
    ensures ParseDo(toks, isQdo) == Done(isQdo, ParseBlock(if isQdo then "?do" else "do", {"loop", "+loop"}, toks))
  {}

  lemma SpellDone(isQdo: bool, r: Result<Block>)
    requires r.Ok? ==> r.value.term in {"loop", "+loop"}
    ensures Done(isQdo, Mapped(RespellBlock, r)) == Mapped(RespellExpr, Done(isQdo, r))
  {
    if r.Ok? {
      DoEnd(r.value.term);
    }
  }

  lemma DoEnd(term: string)
    requires term in {"loop", "+loop"}
    ensures Respell(term) == term
  {
    DoTerms();
  }

  lemma DoTerms()
    ensures Terminators({"loop", "+loop"})
    ensures Respell("do") == "do" && Respell("?do") == "?do" && Respell("loop") == "loop" && Respell("+loop") == "+loop"
  {
    assert Lower("do") == "do" && Lower("?do") == "?do" && Lower("loop") == "loop" && Lower("+loop") == "+loop";
  }

  lemma {:induction false} SpellCase(toks: seq<Tok>)
    ensures ParseCase(RespellToks(toks)) == Mapped(RespellCase, ParseCase(toks))
    decreases |toks|, 2
  {
    CaseTerms();
    SpellBlock("case", caseTerms, toks);
    match ParseBlock("case", caseTerms, toks)
    case Ok(b, rest) =>
      if b.term == "of" {
        SpellBlock("of", {"endof"}, rest);
        match ParseBlock("of", {"endof"}, rest)
        case Ok(body, rest1) =>
          SpellCase(rest1);
          SpellArm(Arm(b.body, body.body), ParseCase(rest1));
        case Err(_) =>
      } else if b.term == "default" || b.term == "other" {
        SpellBlock(b.term, {"endcase"}, rest);
      }
    case Err(_) =>
  }

  lemma SpellArm(arm: Arm, r: Result<Arms>)
    ensures Mapped(RespellCase, AddArm(arm, r)) ==
            AddArm(Arm(RespellSeq(arm.matchExpr), RespellSeq(arm.body)), Mapped(RespellCase, r))
  {
    match r
    case Ok(c, _) => assert ([arm] + c.arms)[1..] == c.arms;
    case Err(_) =>
  }

  lemma CaseTerms()
    ensures Terminators(caseTerms) && Terminators({"endof"}) && Terminators({"endcase"})
    ensures Respell("case") == "case" && Respell("of") == "of" && Respell("default") == Respell("other") == "default"
    ensures Respell("endcase") == "endcase" && Respell("endof") == "endof"
  {
    assert Lower("case") == "case" && Lower("of") == "of" && Lower("default") == "default";
    assert Lower("other") == "other" && Lower("endcase") == "endcase" && Lower("endof") == "endof";
  }

  // ----- trees without keywords for names -----

  predicate PlainName(name: string) {
    !IsKeyword(Lower(name))
  }

  /** No name, after a tick or TO or of a local, is spelled like a keyword. */
  predicate PlainNames(s: seq<Expr>)
    decreases SizeSeq(s), 1, |s|
  {
    s != [] ==> PlainNamesIn(s[0]) && PlainNames(s[1..])
  }

  predicate PlainNamesIn(e: Expr)
    decreases SizeExpr(e), 0
  {
    match e
    case WordRef(name) => PlainName(name)
    case Tick(name) => PlainName(name)
    case To(name) => PlainName(name)
    case Locals(names) => forall name <- names :: PlainName(name)
    case If(thenBody, elseBody) => PlainNames(thenBody) && PlainNamesElse(elseBody)
    case BeginUntil(body) => PlainNames(body)
    case BeginAgain(body) => PlainNames(body)
    case BeginWhileRepeat(pred, body) => PlainNames(pred) && PlainNames(body)
    case DoLoop(_, body, _) => PlainNames(body)
    case Case(arms, default) => PlainNamesArms(arms) && PlainNamesElse(default)
    case _ => true
  }

  predicate PlainNamesElse(e: Else)
    decreases SizeElse(e), 0
  {
    e.ElseBody? ==> PlainNames(e.body)
  }

  predicate PlainNamesArms(arms: seq<Arm>)
    decreases SizeArms(arms), 0
  {
    arms != [] ==> PlainNames(arms[0].matchExpr) && PlainNames(arms[0].body) && PlainNamesArms(arms[1..])
  }

  lemma {:induction false} PlainKept(s: seq<Expr>)
    requires PlainNames(s)
    ensures RespellSeq(s) == s
    decreases SizeSeq(s), 1, |s|
  {
    if s != [] {
      PlainKeptIn(s[0]);
      PlainKept(s[1..]);
    }
  }

  lemma NameKept(name: string)
    requires PlainName(name)
    ensures Respell(name) == name
  {
    Spellings();
  }

  lemma {:induction false} PlainKeptIn(e: Expr)
    requires PlainNamesIn(e)
    ensures RespellExpr(e) == e
    decreases SizeExpr(e), 0
  {
    match e
    case WordRef(name) => NameKept(name);
    case Tick(name) => NameKept(name);
    case To(name) => NameKept(name);
    case Locals(names) =>
      forall i | 0 <= i < |names|
        ensures Respell(names[i]) == names[i]
      {
        NameKept(names[i]);
      }
    case If(thenBody, elseBody) =>
      PlainKept(thenBody);
      PlainKeptElse(elseBody);
    case BeginUntil(body) => PlainKept(body);
    case BeginAgain(body) => PlainKept(body);
    case BeginWhileRepeat(pred, body) =>
      PlainKept(pred);
      PlainKept(body);
    case DoLoop(_, body, _) => PlainKept(body);
    case Case(arms, default) =>
      PlainKeptArms(arms);
      PlainKeptElse(default);
    case _ =>
  }

  lemma {:induction false} PlainKeptElse(e: Else)
    requires PlainNamesElse(e)
    ensures RespellElse(e) == e
    decreases SizeElse(e), 0
  {
    match e
    case NoElse =>
    case ElseBody(body) => PlainKept(body);
  }

  lemma {:induction false} PlainKeptArms(arms: seq<Arm>)
    requires PlainNamesArms(arms)
    ensures RespellArms(arms) == arms
    decreases SizeArms(arms), 0
  {
    if arms != [] {
      PlainKept(arms[0].matchExpr);
      PlainKept(arms[0].body);
      PlainKeptArms(arms[1..]);
    }
  }

  // ----- two spellings of one text -----

  /** Tokens that differ only in how keywords are spelled, IF or if, OTHER or DEFAULT, are parsed to the same
      body, or fail with the same error; names that are spelled like keywords keep their own spelling. */
  lemma SpellingIgnored(opener: string, terms: set<string>, toks: seq<Tok>, toks1: seq<Tok>)
    requires Terminators(terms) && RespellToks(toks) == RespellToks(toks1)
    ensures var r, r1 := ParseBlock(opener, terms, toks), ParseBlock(opener, terms, toks1);
            && Mapped(RespellBlock, r) == Mapped(RespellBlock, r1)
            && (r.Ok? && r1.Ok? && PlainNames(r.value.body) && PlainNames(r1.value.body) ==>
                  r.value.body == r1.value.body)
  {
    var r, r1 := ParseBlock(opener, terms, toks), ParseBlock(opener, terms, toks1);
    SpellBlock(opener, terms, toks);
    SpellBlock(opener, terms, toks1);
    if r.Ok? && r1.Ok? && PlainNames(r.value.body) && PlainNames(r1.value.body) {
      PlainKept(r.value.body);
      PlainKept(r1.value.body);
      assert RespellBlock(r.value) == RespellBlock(r1.value);
    }
  }

  // ----- capitals -----

  function UpperChar(c: char): char {
    if 'a' <= c <= 'z' then (c as int - 32) as char else c
  }

  function Upper(s: string): (t: string)
    ensures |t| == |s|
  {
    seq(|s|, i requires 0 <= i < |s| => UpperChar(s[i]))
  }

  /** Every keyword in capitals, everything else as it is. */
  function Capitals(toks: seq<Tok>): (r: seq<Tok>)
    ensures |r| == |toks|
  {
    seq(|toks|, i requires 0 <= i < |toks| =>
      if toks[i].Word? && IsKeyword(Lower(toks[i].text)) then Word(Upper(toks[i].text)) else toks[i])
  }

  /** Capitals and small letters have the same lower case. */
  lemma LowerUpper(s: string)
    ensures Lower(Upper(s)) == Lower(s)
  {
    forall i | 0 <= i < |s|
      ensures LowerChar(UpperChar(s[i])) == LowerChar(s[i])
    {}
  }

  /** Keywords in capitals are the same keywords. */
  lemma CapitalsIgnored(opener: string, terms: set<string>, toks: seq<Tok>)
    requires Terminators(terms)
    ensures Mapped(RespellBlock, ParseBlock(opener, terms, Capitals(toks))) ==
            Mapped(RespellBlock, ParseBlock(opener, terms, toks))
  {
    forall i | 0 <= i < |toks|
      ensures RespellTok(Capitals(toks)[i]) == RespellTok(toks[i])
    {
      if toks[i].Word? {
        LowerUpper(toks[i].text);
      }
    }
    assert RespellToks(Capitals(toks)) == RespellToks(toks);
    SpellingIgnored(opener, terms, Capitals(toks), toks);
  }
}
