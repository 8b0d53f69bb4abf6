/** Printing a body and parsing it gives it back; what the parser returns can be printed. */
module ParsePrint {
  import opened Forth
  import opened Parse

  // ----- tokens in front -----

  /** The words the printer writes are spelled in lower case. */
  lemma Spelled()
    ensures Lower("if") == "if" && Lower("begin") == "begin" && Lower("do") == "do" && Lower("?do") == "?do"
    ensures Lower("case") == "case" && Lower("'") == "'" && Lower("to") == "to" && Lower("{:") == "{:"
    ensures forall w <- strays :: Lower(w) == w
  {
    assert Lower("else") == "else" && Lower("then") == "then" && Lower("until") == "until";
    assert Lower("while") == "while" && Lower("repeat") == "repeat" && Lower("again") == "again";
    assert Lower("loop") == "loop" && Lower("+loop") == "+loop" && Lower("of") == "of" && Lower("endof") == "endof";
    assert Lower("default") == "default" && Lower("other") == "other" && Lower("endcase") == "endcase";
  }

  predicate Starts(t: Tok) {
    t.Int? || (t.Word? && t.text != ";" && Lower(t.text) !in strays)
  }

  lemma FirstToken(e: Expr, implicit: bool)
    requires PrintableExpr(e)
    ensures PrintExpr(e, implicit) != [] && Starts(PrintExpr(e, implicit)[0])
  {
    Spelled();
  }

  lemma BlockEnd(opener: string, terms: set<string>, term: string, rest: seq<Tok>)
    requires term in terms && terms <= strays
    ensures ParseBlock(opener, terms, [Word(term)] + rest) == Ok(Block([], term), rest)
  {
    Spelled();
    assert ([Word(term)] + rest)[1..] == rest;
  }

  /** One expression in front of a block. */
  lemma BlockStep(opener: string, terms: set<string>, p: seq<Tok>, e: Expr, tail: seq<Tok>)
    requires p != [] && Starts(p[0]) && terms <= strays && ParseExpr(p + tail) == Ok(e, tail)
    ensures ParseBlock(opener, terms, p + tail) == Consed(e, ParseBlock(opener, terms, tail))
  {
    assert (p + tail)[0] == p[0];
    assert SkipComments(p + tail) == p + tail;
  }

  // ----- parsing what was printed -----

  lemma {:induction false} RoundBlock(opener: string, terms: set<string>, s: seq<Expr>, implicit: bool, term: string,
                                      rest: seq<Tok>)
    requires Printable(s) && term in terms && terms <= strays
    ensures ParseBlock(opener, terms, Print(s, implicit) + ([Word(term)] + rest)) == Ok(Block(s, term), rest)
    decreases SizeSeq(s), 3, |s|
  {
    var ending := [Word(term)] + rest;
    if s == [] {
      BlockEnd(opener, terms, term, rest);
      assert [] + ending == ending;
    } else {
      var p, tail := PrintExpr(s[0], implicit), Print(s[1..], implicit) + ending;
      assert Print(s, implicit) + ending == p + tail;
      FirstToken(s[0], implicit);
      RoundExpr(s[0], implicit, tail);
      BlockStep(opener, terms, p, s[0], tail);
      RoundBlock(opener, terms, s[1..], implicit, term, rest);
      assert s == [s[0]] + s[1..];
    }
  }

  lemma {:induction false} RoundExpr(e: Expr, implicit: bool, tail: seq<Tok>)
    requires PrintableExpr(e)
    ensures ParseExpr(PrintExpr(e, implicit) + tail) == Ok(e, tail)
    decreases SizeExpr(e), 2, 0
  {
    match e
    case If(_, _) => RoundIf(e, implicit, tail);
    case BeginUntil(body) => RoundLoop(e, body, "until", implicit, tail);
    case BeginAgain(body) => RoundLoop(e, body, "again", implicit, tail);
    case BeginWhileRepeat(_, _) => RoundWhile(e, implicit, tail);
    case DoLoop(_, _, _) => RoundDo(e, implicit, tail);
    case Case(arms, default) =>
      RoundCase(arms, default, implicit, tail);
      CaseOpens(PrintArms(arms, default, implicit) + tail);
      assert PrintExpr(e, implicit) + tail == [Word("case")] + (PrintArms(arms, default, implicit) + tail);
    case Locals(names) => RoundLocals(names, implicit, tail);
    case Tick(name) => RoundNamed(e, name, implicit, tail);
    case To(name) => RoundNamed(e, name, implicit, tail);
    case Lit(_) => RoundWord(e, implicit, tail);
    case WordRef(_) => RoundWord(e, implicit, tail);
    case Global(_, _) =>
  }

  lemma CaseOpens(toks: seq<Tok>)
    ensures ParseExpr([Word("case")] + toks) ==
            match ParseCase(toks)
            case Ok(c, rest) => Ok(Case(c.arms, c.default), rest)
            case Err(e) => Err(e)
  {
    Spelled();
    assert ([Word("case")] + toks)[1..] == toks;
  }

  lemma IfOpens(toks: seq<Tok>)
    ensures ParseExpr([Word("if")] + toks) == ParseIf(toks)
  {
    Spelled();
    assert ([Word("if")] + toks)[1..] == toks;
  }

  lemma BeginOpens(toks: seq<Tok>)
    ensures ParseExpr([Word("begin")] + toks) == ParseBegin(toks)
  {
    Spelled();
    assert ([Word("begin")] + toks)[1..] == toks;
  }

  lemma DoOpens(toks: seq<Tok>, isQdo: bool)
    ensures ParseExpr([Word(if isQdo then "?do" else "do")] + toks) == ParseDo(toks, isQdo)
  {
    Spelled();
    assert ([Word(if isQdo then "?do" else "do")] + toks)[1..] == toks;
  }

  lemma RoundLocals(names: seq<string>, implicit: bool, tail: seq<Tok>)
    requires PrintableExpr(Locals(names))
    ensures ParseExpr(PrintExpr(Locals(names), implicit) + tail) == Ok(Locals(names), tail)
  {
    RoundNames(names, tail);
    LocalsOpens(PrintNames(names) + tail);
    assert PrintExpr(Locals(names), implicit) + tail == [Word("{:")] + (PrintNames(names) + tail);
  }

  lemma LocalsOpens(toks: seq<Tok>)
    ensures ParseExpr([Word("{:")] + toks) ==
            match ParseLocals(toks)
            case Ok(names, rest) => Ok(Locals(names), rest)
            case Err(e) => Err(e)
  {
    assert Lower("{:") == "{:";
    assert ([Word("{:")] + toks)[1..] == toks;
  }

  lemma RoundNamed(e: Expr, name: string, implicit: bool, tail: seq<Tok>)
    requires e == Tick(name) || e == To(name)
    ensures ParseExpr(PrintExpr(e, implicit) + tail) == Ok(e, tail)
  {
    Spelled();
    assert (PrintExpr(e, implicit) + tail)[1..] == [Word(name)] + tail;
    assert ([Word(name)] + tail)[1..] == tail;
  }

  lemma RoundWord(e: Expr, implicit: bool, tail: seq<Tok>)
    requires PrintableExpr(e) && (e.Lit? || e.WordRef?)
    ensures ParseExpr(PrintExpr(e, implicit) + tail) == Ok(e, tail)
  {
    assert (PrintExpr(e, implicit) + tail)[1..] == tail;
  }

  lemma {:induction false} RoundNames(names: seq<string>, tail: seq<Tok>)
    requires forall name <- names :: PlainLocal(name)
    ensures ParseLocals(PrintNames(names) + tail) == Ok(names, tail)
  {
    var t := PrintNames(names) + tail;
    if names == [] {
      assert t[1..] == tail;
    } else {
      assert t[1..] == PrintNames(names[1..]) + tail;
      assert names[0] in names;
      RoundNames(names[1..], tail);
      assert names == [names[0]] + names[1..];
    }
  }

  lemma {:induction false} RoundIf(e: Expr, implicit: bool, tail: seq<Tok>)
    requires e.If? && PrintableExpr(e)
    ensures ParseExpr(PrintExpr(e, implicit) + tail) == Ok(e, tail)
    decreases SizeExpr(e), 1, 0
  {
    match e
    case If(t, f) =>
      var ending := PrintElse(f, implicit) + tail;
      assert PrintExpr(e, implicit) + tail == [Word("if")] + (Print(t, implicit) + ending);
      IfOpens(Print(t, implicit) + ending);
      RoundElse(t, f, implicit, tail);
  }

  lemma {:induction false} RoundElse(t: seq<Expr>, f: Else, implicit: bool, tail: seq<Tok>)
    requires Printable(t) && PrintableElse(f)
    ensures ParseIf(Print(t, implicit) + (PrintElse(f, implicit) + tail)) == Ok(If(t, f), tail)
    decreases SizeSeq(t) + SizeElse(f), 4, 0
  {
    match f
    case NoElse => RoundBlock("if", {"else", "then"}, t, implicit, "then", tail);
    case ElseBody(body) =>
      var inner := Print(body, implicit) + ([Word("then")] + tail);
      assert PrintElse(f, implicit) + tail == [Word("else")] + inner;
      RoundBlock("if", {"else", "then"}, t, implicit, "else", inner);
      RoundBlock("else", {"then"}, body, implicit, "then", tail);
  }

  lemma {:induction false} RoundLoop(e: Expr, body: seq<Expr>, term: string, implicit: bool, tail: seq<Tok>)
    requires (e == BeginUntil(body) && term == "until") || (e == BeginAgain(body) && term == "again")
    requires Printable(body)
    ensures ParseExpr(PrintExpr(e, implicit) + tail) == Ok(e, tail)
    decreases SizeSeq(body), 4, 0
  {
    var inner := Print(body, implicit) + ([Word(term)] + tail);
    assert PrintExpr(e, implicit) + tail == [Word("begin")] + inner;
    BeginOpens(inner);
    RoundBlock("begin", {"until", "again", "while"}, body, implicit, term, tail);
  }

  lemma {:induction false} RoundWhile(e: Expr, implicit: bool, tail: seq<Tok>)
    requires e.BeginWhileRepeat? && PrintableExpr(e)
    ensures ParseExpr(PrintExpr(e, implicit) + tail) == Ok(e, tail)
    decreases SizeExpr(e), 1, 0
  {
    match e
    case BeginWhileRepeat(pred, body) =>
      var inner := Print(body, implicit) + ([Word("repeat")] + tail);
      var outer := Print(pred, implicit) + ([Word("while")] + inner);
      assert PrintExpr(e, implicit) + tail == [Word("begin")] + outer;
      BeginOpens(outer);
      RoundBlock("begin", {"until", "again", "while"}, pred, implicit, "while", inner);
      RoundBlock("while", {"repeat"}, body, implicit, "repeat", tail);
  }

  lemma {:induction false} RoundDo(e: Expr, implicit: bool, tail: seq<Tok>)
    requires e.DoLoop? && PrintableExpr(e)
    ensures ParseExpr(PrintExpr(e, implicit) + tail) == Ok(e, tail)
    decreases SizeExpr(e), 1, 0
  {
    match e
    case DoLoop(isQdo, body, kind) =>
      var term := if kind == Plus1 then "loop" else "+loop";
      DoTokens(e, implicit, tail);
      DoOpens(Print(body, implicit) + ([Word(term)] + tail), isQdo);
      RoundBlock(if isQdo then "?do" else "do", {"loop", "+loop"}, body, implicit, term, tail);
  }

  lemma DoTokens(e: Expr, implicit: bool, tail: seq<Tok>)
    requires e.DoLoop?
    ensures PrintExpr(e, implicit) + tail
         == [Word(if e.isQdo then "?do" else "do")] +
            (Print(e.body, implicit) + ([Word(if e.kind == Plus1 then "loop" else "+loop")] + tail))
  {}

  /** One arm in front of the rest of a CASE. */
  lemma ArmStep(toks: seq<Tok>, m: seq<Expr>, inner: seq<Tok>, body: seq<Expr>, later: seq<Tok>)
    requires ParseBlock("case", caseTerms, toks) == Ok(Block(m, "of"), inner)
    requires ParseBlock("of", {"endof"}, inner) == Ok(Block(body, "endof"), later)
    ensures ParseCase(toks) == AddArm(Arm(m, body), ParseCase(later))
  {}

  lemma ArmTokens(arms: seq<Arm>, default: Else, implicit: bool, tail: seq<Tok>)
    requires arms != []
    ensures PrintArms(arms, default, implicit) + tail
         == Print(arms[0].matchExpr, implicit) +
            ([Word("of")] + (Print(arms[0].body, implicit) +
                             ([Word("endof")] + (PrintArms(arms[1..], default, implicit) + tail))))
  {}

  lemma {:induction false} RoundCase(arms: seq<Arm>, default: Else, implicit: bool, tail: seq<Tok>)
    requires PrintableArms(arms) && PrintableElse(default)
    ensures ParseCase(PrintArms(arms, default, implicit) + tail) == Ok(Arms(arms, default), tail)
    decreases SizeArms(arms) + SizeElse(default), 1, 0
  {
    if arms == [] {
      RoundDefault(default, implicit, tail);
    } else {
      RoundCase(arms[1..], default, implicit, tail);
      RoundArm(arms, default, implicit, tail);
    }
  }

  lemma {:induction false} RoundArm(arms: seq<Arm>, default: Else, implicit: bool, tail: seq<Tok>)
    requires arms != [] && PrintableArms(arms)
    requires ParseCase(PrintArms(arms[1..], default, implicit) + tail) == Ok(Arms(arms[1..], default), tail)
    ensures ParseCase(PrintArms(arms, default, implicit) + tail) == Ok(Arms(arms, default), tail)
    decreases SizeArms(arms) + SizeElse(default), 0, 0
  {
    var m, body := arms[0].matchExpr, arms[0].body;
    var later := PrintArms(arms[1..], default, implicit) + tail;
    var inner := Print(body, implicit) + ([Word("endof")] + later);
    var toks := Print(m, implicit) + ([Word("of")] + inner);
    ArmTokens(arms, default, implicit, tail);
    RoundBlock("case", caseTerms, m, implicit, "of", inner);
    RoundBlock("of", {"endof"}, body, implicit, "endof", later);
    ArmStep(toks, m, inner, body, later);
    assert arms == [Arm(m, body)] + arms[1..];
  }

  lemma {:induction false} RoundDefault(default: Else, implicit: bool, tail: seq<Tok>)
    requires PrintableElse(default)
    ensures ParseCase(PrintDefault(default, implicit) + tail) == Ok(Arms([], default), tail)
    decreases SizeElse(default), 0, 0
  {
    match default
    case NoElse => BlockEnd("case", caseTerms, "endcase", tail);
    case ElseBody(body) =>
      var inner := Print(body, implicit) + ([Word("endcase")] + tail);
      if implicit && body != [] {
        assert PrintDefault(default, implicit) + tail == inner;
        RoundBlock("case", caseTerms, body, implicit, "endcase", tail);
      } else {
        assert PrintDefault(default, implicit) + tail == [Word("default")] + inner;
        BlockEnd("case", caseTerms, "default", inner);
        RoundBlock("default", {"endcase"}, body, implicit, "endcase", tail);
      }
  }

  // ----- what the parser returns -----

  lemma {:induction false} ParsedBlockPrintable(opener: string, terms: set<string>, toks: seq<Tok>)
    ensures var r := ParseBlock(opener, terms, toks); r.Ok? ==> Printable(r.value.body)
    decreases |toks|, 1
  {
    var t := SkipComments(toks);
    if t != [] && !(t[0].Word? && (Lower(t[0].text) in terms || t[0].text == ";")) {
      ParsedExprPrintable(t);
      match ParseExpr(t)
      case Ok(e, rest) =>
        ParsedBlockPrintable(opener, terms, rest);
        var r := ParseBlock(opener, terms, rest);
        if r.Ok? {
          assert ([e] + r.value.body)[1..] == r.value.body;
        }
      case Err(_) =>
    }
  }

  lemma {:induction false} ParsedExprPrintable(toks: seq<Tok>)
    requires toks != [] ==> !toks[0].Comment? && toks[0] != Word(";")
    ensures var r := ParseExpr(toks); r.Ok? ==> PrintableExpr(r.value)
    decreases |toks|, 0
  {
    if toks != [] && toks[0].Word? {
      var lc, rest := Lower(toks[0].text), toks[1..];
      if lc == "if" {
        ParsedIfPrintable(rest);
      } else if lc == "begin" {
        ParsedBeginPrintable(rest);
      } else if lc == "do" || lc == "?do" {
        ParsedBlockPrintable(if lc == "?do" then "?do" else "do", {"loop", "+loop"}, rest);
      } else if lc == "case" {
        ParsedCasePrintable(rest);
      } else if lc == "{:" {
        ParsedLocalsPrintable(rest);
      }
    }
  }

  lemma {:induction false} ParsedIfPrintable(toks: seq<Tok>)
    ensures var r := ParseIf(toks); r.Ok? ==> PrintableExpr(r.value)
    decreases |toks|, 2
  {
    ParsedBlockPrintable("if", {"else", "then"}, toks);
    match ParseBlock("if", {"else", "then"}, toks)
    case Ok(_, rest) => ParsedBlockPrintable("else", {"then"}, rest);
    case Err(_) =>
  }

  lemma {:induction false} ParsedBeginPrintable(toks: seq<Tok>)
    ensures var r := ParseBegin(toks); r.Ok? ==> PrintableExpr(r.value)
    decreases |toks|, 2
  {
    ParsedBlockPrintable("begin", {"until", "again", "while"}, toks);
    match ParseBlock("begin", {"until", "again", "while"}, toks)
    case Ok(_, rest) => ParsedBlockPrintable("while", {"repeat"}, rest);
    case Err(_) =>
  }

  lemma {:induction false} ParsedCasePrintable(toks: seq<Tok>)
    ensures var r := ParseCase(toks); r.Ok? ==> PrintableArms(r.value.arms) && PrintableElse(r.value.default)
    decreases |toks|, 2
  {
    ParsedBlockPrintable("case", caseTerms, toks);
    match ParseBlock("case", caseTerms, toks)
    case Ok(b, rest) =>
      if b.term == "of" {
        ParsedBlockPrintable("of", {"endof"}, rest);
        match ParseBlock("of", {"endof"}, rest) {
          case Ok(body, rest1) =>
            ParsedCasePrintable(rest1);
            var r := ParseCase(rest1);
            if r.Ok? {
              assert ([Arm(b.body, body.body)] + r.value.arms)[1..] == r.value.arms;
            }
          case Err(_) =>
        }
      } else {
        ParsedBlockPrintable(b.term, {"endcase"}, rest);
      }
    case Err(_) =>
  }

  lemma {:induction false} ParsedLocalsPrintable(toks: seq<Tok>)
    ensures var r := ParseLocals(toks); r.Ok? ==> forall name <- r.value :: PlainLocal(name)
    decreases |toks|
  {
    var t := SkipComments(toks);
    if t != [] {
      ParsedLocalsPrintable(t[1..]);
    }
  }

  /** Whatever a block of tokens parses to, printing and parsing that again changes nothing. */
  lemma ParsePrintParse(opener: string, terms: set<string>, toks: seq<Tok>, implicit: bool)
    requires terms <= strays && ParseBlock(opener, terms, toks).Ok?
    ensures var b := ParseBlock(opener, terms, toks).value;
            ParseBlock(opener, terms, Print(b.body, implicit) + ([Word(b.term)] + [])) == Ok(b, [])
  {
    ParsedBlockPrintable(opener, terms, toks);
    var b := ParseBlock(opener, terms, toks).value;
    RoundBlock(opener, terms, b.body, implicit, b.term, []);
  }

  // ----- what is refused -----

  /** A printed body in front of other tokens. */
  lemma {:induction false} PrintedFirst(opener: string, terms: set<string>, s: seq<Expr>, implicit: bool,
                                        tail: seq<Tok>)
    requires Printable(s) && terms <= strays
    ensures ParseBlock(opener, terms, Print(s, implicit) + tail) == Appended(s, ParseBlock(opener, terms, tail))
    decreases SizeSeq(s), 3, |s|
  {
    if s == [] {
      AppendedNothing(ParseBlock(opener, terms, tail));
      assert [] + tail == tail;
    } else {
      var p, rest := PrintExpr(s[0], implicit), Print(s[1..], implicit) + tail;
      assert Print(s, implicit) + tail == p + rest;
      ExprFirst(opener, terms, s[0], implicit, rest);
      PrintedFirst(opener, terms, s[1..], implicit, tail);
      ConsedAppended(s, ParseBlock(opener, terms, tail));
    }
  }

  lemma ConsedAppended(s: seq<Expr>, r: Result<Block>)
    requires s != []
    ensures Consed(s[0], Appended(s[1..], r)) == Appended(s, r)
  {
    match r
    case Ok(b, _) => assert s + b.body == [s[0]] + (s[1..] + b.body);
    case Err(_) =>
  }

  /** One printed expression in front of other tokens. */
  lemma ExprFirst(opener: string, terms: set<string>, e: Expr, implicit: bool, tail: seq<Tok>)
    requires PrintableExpr(e) && terms <= strays
    ensures ParseBlock(opener, terms, PrintExpr(e, implicit) + tail) == Consed(e, ParseBlock(opener, terms, tail))
  {
    FirstToken(e, implicit);
    RoundExpr(e, implicit, tail);
    BlockStep(opener, terms, PrintExpr(e, implicit), e, tail);
  }

  /** A body that ends with the text or at a semicolon is unterminated, and a control word that ends another
      construct is a stray. */
  lemma Refused(opener: string, terms: set<string>, s: seq<Expr>, implicit: bool, w: string, rest: seq<Tok>)
    requires Printable(s) && terms <= strays
    ensures ParseBlock(opener, terms, Print(s, implicit)) == Err(UnterminatedControl(opener))
    ensures ";" !in terms
    ensures ParseBlock(opener, terms, Print(s, implicit) + ([Word(";")] + rest)) == Err(UnterminatedControl(opener))
    ensures Lower(w) in strays - terms ==>
              ParseBlock(opener, terms, Print(s, implicit) + ([Word(w)] + rest)) == Err(StrayControlWord(Lower(w)))
  {
    Spelled();
    assert Lower(";") == ";" && ";" !in strays;
    PrintedFirst(opener, terms, s, implicit, []);
    assert Print(s, implicit) + [] == Print(s, implicit);
    PrintedFirst(opener, terms, s, implicit, [Word(";")] + rest);
    PrintedFirst(opener, terms, s, implicit, [Word(w)] + rest);
    if Lower(w) in strays - terms {
      StrayRefused(w, rest);
      assert SkipComments([Word(w)] + rest) == [Word(w)] + rest;
    }
  }

  lemma StrayRefused(w: string, rest: seq<Tok>)
    requires Lower(w) in strays
    ensures w != ";" && ParseExpr([Word(w)] + rest) == Err(StrayControlWord(Lower(w)))
  {
    assert Lower(";") == ";" && ";" !in strays;
    assert Lower(w) !in openers;
  }
}
