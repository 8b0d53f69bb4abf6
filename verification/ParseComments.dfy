/** Comments between the words of a body change nothing, except where a name must follow
    (src/compiler/parse.rs). */
module ParseComments {
  import opened Forth
  import opened Parse
  import opened ParseSpelling

  /** The tokens that are no comments. */
  function Strip(toks: seq<Tok>): (r: seq<Tok>)
    ensures |r| <= |toks|
  {
    if toks == [] then [] else if toks[0].Comment? then Strip(toks[1..]) else [toks[0]] + Strip(toks[1..])
  }

  function Stripped<T>(r: Result<T>): Result<T> {
    match r
    case Ok(v, rest) => Ok(v, Strip(rest))
    case Err(e) => Err(e)
  }

  /** The words that take the next token for a name. */
  predicate TakesName(t: Tok) {
    t.Word? && (Lower(t.text) == "'" || Lower(t.text) == "to")
  }

  /** No comment stands directly behind a tick or TO. */
  predicate NoGap(toks: seq<Tok>) {
    forall i :: 0 <= i < |toks| - 1 && TakesName(toks[i]) ==> !toks[i + 1].Comment?
  }

  /** Parsing did not stop for want of a name. */
  predicate GotNames<T>(r: Result<T>) {
    r.Ok? || !r.error.ExpectedName?
  }

  // ----- tokens -----

  lemma {:induction false} StripSkipped(toks: seq<Tok>)
    ensures var t := SkipComments(toks);
            && Strip(toks) == Strip(t) && SkipComments(Strip(toks)) == Strip(toks)
            && (t == [] <==> Strip(toks) == [])
            && (t != [] ==> Strip(toks) == [t[0]] + Strip(t[1..]) && Strip(toks)[1..] == Strip(t[1..]))
  {
    if toks != [] && toks[0].Comment? {
      StripSkipped(toks[1..]);
    } else if toks != [] {
      assert ([toks[0]] + Strip(toks[1..]))[1..] == Strip(toks[1..]);
    }
  }

  lemma NoGapRest(toks: seq<Tok>, k: nat)
    requires NoGap(toks) && k <= |toks|
    ensures NoGap(toks[k..])
  {}

  lemma {:induction false} SkippedIsRest(toks: seq<Tok>) returns (k: nat)
    ensures k <= |toks| && SkipComments(toks) == toks[k..]
  {
    if toks != [] && toks[0].Comment? {
      var j := SkippedIsRest(toks[1..]);
      k := j + 1;
      assert toks[k..] == toks[1..][j..];
    } else {
      k := 0;
    }
  }

  lemma NoGapSkipped(toks: seq<Tok>)
    ensures NoGap(toks) ==> NoGap(SkipComments(toks))
  {
    var k := SkippedIsRest(toks);
  }

  // ----- parsing -----

  /** A parse of tokens and one of those that are left without comments. */
  ghost predicate Alike<T(!new)>(toks: seq<Tok>, r: Result<T>, stripped: Result<T>) {
    && (NoGap(toks) || GotNames(r) ==> stripped == Stripped(r))
    && (NoGap(toks) && r.Ok? ==> NoGap(r.rest))
  }

  lemma {:induction false} CommentBlock(opener: string, terms: set<string>, toks: seq<Tok>)
    ensures Alike(toks, ParseBlock(opener, terms, toks), ParseBlock(opener, terms, Strip(toks)))
    decreases |toks|, 1
  {
    StripSkipped(toks);
    NoGapSkipped(toks);
    var t := SkipComments(toks);
    if t != [] {
      if t[0].Word? && Lower(t[0].text) in terms {
        assert NoGap(t) ==> NoGap(t[1..]);
      } else if !(t[0].Word? && t[0].text == ";") {
        CommentExpr(t);
        match ParseExpr(t)
        case Ok(_, rest) => CommentBlock(opener, terms, rest);
        case Err(_) =>
      }
    }
  }

  lemma {:induction false} CommentExpr(toks: seq<Tok>)
    ensures Alike(toks, ParseExpr(toks), ParseExpr(Strip(toks)))
    decreases |toks|, 0
  {
    if toks != [] {
      assert NoGap(toks) ==> NoGap(toks[1..]);
      match toks[0]
      case Int(_) => assert Strip(toks)[1..] == Strip(toks[1..]);
      case Comment => CommentExpr(toks[1..]);
      case Word(w) =>
        assert Strip(toks)[1..] == Strip(toks[1..]);
        CommentWord(w, toks[1..]);
        assert toks == [Word(w)] + toks[1..];
        assert Strip(toks) == [Word(w)] + Strip(toks[1..]);
    }
  }

  lemma {:induction false} CommentWord(w: string, rest: seq<Tok>)
    ensures Alike([Word(w)] + rest, ParseExpr([Word(w)] + rest), ParseExpr([Word(w)] + Strip(rest)))
    decreases |rest|, 4
  {
    var toks := [Word(w)] + rest;
    assert toks[1..] == rest && ([Word(w)] + Strip(rest))[1..] == Strip(rest);
    assert NoGap(toks) ==> NoGap(rest);
    if Lower(w) in openers {
      Dispatch(w, rest);
      Dispatch(w, Strip(rest));
      CommentOpened(w, rest);
    } else {
      Plainly(w, toks);
      Plainly(w, [Word(w)] + Strip(rest));
    }
  }

  lemma {:induction false} CommentOpened(w: string, rest: seq<Tok>)
    requires Lower(w) in openers
    ensures Alike([Word(w)] + rest, Opened(Lower(w), rest), Opened(Lower(w), Strip(rest)))
    decreases |rest|, 3
  {
    var lc := Lower(w);
    assert NoGap([Word(w)] + rest) ==> NoGap(rest) by {
      assert ([Word(w)] + rest)[1..] == rest;
    }
    if lc == "if" {
      CommentIf(rest);
    } else if lc == "begin" {
      CommentBegin(rest);
    } else if lc == "do" || lc == "?do" {
      CommentDo(rest, lc == "?do");
    } else if lc == "case" {
      CommentCase(rest);
    } else if lc == "{:" {
      CommentLocals(rest);
    } else if lc != "see" {
      CommentName(w, rest);
    }
  }

  /** A name is the next token, whatever it is. */
  lemma CommentName(w: string, rest: seq<Tok>)
    requires Lower(w) == "'" || Lower(w) == "to"
    ensures Alike([Word(w)] + rest, Opened(Lower(w), rest), Opened(Lower(w), Strip(rest)))
  {
    var toks := [Word(w)] + rest;
    if rest != [] {
      assert toks[0] == Word(w) && toks[1] == rest[0];
      assert NoGap(toks) ==> !rest[0].Comment? && NoGap(rest[1..]) by {
        assert toks[2..] == rest[1..];
      }
      assert !rest[0].Comment? ==> Strip(rest)[1..] == Strip(rest[1..]);
    }
  }

  lemma {:induction false} CommentLocals(toks: seq<Tok>)
    ensures Alike(toks, ParseLocals(toks), ParseLocals(Strip(toks)))
    decreases |toks|
  {
    StripSkipped(toks);
    NoGapSkipped(toks);
    var t := SkipComments(toks);
    if t != [] && t[0].Word? {
      assert NoGap(t) ==> NoGap(t[1..]);
      CommentLocals(t[1..]);
    }
  }

  lemma {:induction false} CommentIf(toks: seq<Tok>)
    ensures Alike(toks, ParseIf(toks), ParseIf(Strip(toks)))
    decreases |toks|, 2
  {
    CommentBlock("if", {"else", "then"}, toks);
    match ParseBlock("if", {"else", "then"}, toks)
    case Ok(_, rest) => CommentBlock("else", {"then"}, rest);
    case Err(_) =>
  }

  lemma {:induction false} CommentBegin(toks: seq<Tok>)
    ensures Alike(toks, ParseBegin(toks), ParseBegin(Strip(toks)))
    decreases |toks|, 2
  {
    CommentBlock("begin", {"until", "again", "while"}, toks);
    match ParseBlock("begin", {"until", "again", "while"}, toks)
    case Ok(_, rest) => CommentBlock("while", {"repeat"}, rest);
    case Err(_) =>
  }

  lemma {:induction false} CommentDo(toks: seq<Tok>, isQdo: bool)
    ensures Alike(toks, ParseDo(toks, isQdo), ParseDo(Strip(toks), isQdo))
    decreases |toks|, 2
  {
    CommentBlock(if isQdo then "?do" else "do", {"loop", "+loop"}, toks);
  }

  lemma {:induction false} CommentCase(toks: seq<Tok>)
    ensures Alike(toks, ParseCase(toks), ParseCase(Strip(toks)))
    decreases |toks|, 2
  {
    CommentBlock("case", caseTerms, toks);
    match ParseBlock("case", caseTerms, toks)
    case Ok(b, rest) =>
      if b.term == "of" {
        CommentBlock("of", {"endof"}, rest);
        match ParseBlock("of", {"endof"}, rest)
        case Ok(_, rest1) => CommentCase(rest1);
        case Err(_) =>
      } else if b.term == "default" || b.term == "other" {
        CommentBlock(b.term, {"endcase"}, rest);
      }
    case Err(_) =>
  }

  // ----- what it comes to -----

  /** Taking the comments out of a body changes nothing if none stands behind a tick or TO; and nothing that
      is parsed at all is parsed differently. */
  lemma CommentsIgnored(opener: string, terms: set<string>, toks: seq<Tok>)
    ensures NoGap(toks) ==> ParseBlock(opener, terms, Strip(toks)) == Stripped(ParseBlock(opener, terms, toks))
    ensures ParseBlock(opener, terms, toks).Ok? ==>
              ParseBlock(opener, terms, Strip(toks)) == Stripped(ParseBlock(opener, terms, toks))
  {
    CommentBlock(opener, terms, toks);
  }

  /** Behind a tick or TO a comment is an error, and it matters if and only if a name follows it. */
  lemma GapExactly(w: string, rest: seq<Tok>)
    requires TakesName(Word(w))
    ensures rest != [] && rest[0].Comment? ==>
              ParseExpr([Word(w)] + rest) == Err(ExpectedName(if Lower(w) == "to" then "TO" else "'"))
    ensures ParseExpr([Word(w)] + Strip(rest)) == Stripped(ParseExpr([Word(w)] + rest)) <==>
            !(rest != [] && rest[0].Comment? && Strip(rest) != [] && Strip(rest)[0].Word?)
  {
    NamesOpen(w);
    Dispatch(w, rest);
    Dispatch(w, Strip(rest));
    if rest != [] && !rest[0].Comment? {
      assert Strip(rest)[1..] == Strip(rest[1..]);
    }
  }

  lemma NamesOpen(w: string)
    requires TakesName(Word(w))
    ensures Lower(w) in openers
  {}
}
