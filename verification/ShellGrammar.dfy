/** Which lines sh.c accepts, stated without its parser: a line is a row of tokens with blanks around them, and it is
  * accepted exactly when the tokens are the written form of a command, with whatever parentheses.
  */
module ShellGrammar {
  import opened Shell

  // ----- lines as tokens

  datatype Tok = Tok(kind: Kind, text: string)

  predicate TokOk(t: Tok) {
    match t.kind
    case Word => IsWord(t.text)
    case Sym(c) => Symbol(c) && t.text == [c]
    case Append => t.text == ">>"
    case End => false
  }

  predicate Blank(g: string) {
    forall k :: 0 <= k < |g| ==> Whitespace(g[k])
  }

  /** Written next to each other these would read as something else. */
  predicate Sticks(a: Tok, b: Tok) {
    (a.kind == Word && b.kind == Word) || (a.kind == Sym('>') && b.text != "" && b.text[0] == '>')
  }

  predicate Layout(gaps: seq<string>, toks: seq<Tok>) {
    && |gaps| == |toks| + 1
    && (forall i :: 0 <= i < |gaps| ==> Blank(gaps[i]))
    && (forall i :: 0 <= i < |toks| ==> TokOk(toks[i]))
    && (forall i :: 0 < i < |toks| && gaps[i] == "" ==> !Sticks(toks[i - 1], toks[i]))
  }

  function Weave(gaps: seq<string>, toks: seq<Tok>): string
    requires |gaps| == |toks| + 1
  {
    if toks == [] then gaps[0] else gaps[0] + (toks[0].text + Weave(gaps[1..], toks[1..]))
  }

  /** The tokens gettoken finds. */
  function Tokens(s: string): seq<Tok>
    decreases |s|
  {
    var t := Gettoken(s);
    if t.kind == End then [] else [Tok(t.kind, t.text)] + Tokens(t.rest)
  }

  predicate NulFree(s: string) {
    '\0' !in s
  }

  lemma {:induction false} SkipBlank(g: string, s: string)
    requires Blank(g)
    ensures Skip(g + s) == Skip(s)
    decreases |g|
  {
    if g == "" {
      assert g + s == s;
    } else {
      assert (g + s)[1..] == g[1..] + s;
      SkipBlank(g[1..], s);
    }
  }

  lemma {:induction false} SkipSplits(s: string) returns (g: string)
    ensures Blank(g) && s == g + Skip(s)
    decreases |s|
  {
    if s != "" && Whitespace(s[0]) {
      var h := SkipSplits(s[1..]);
      g := [s[0]] + h;
      assert s == [s[0]] + s[1..];
    } else {
      g := "";
    }
  }

  lemma SkipTwice(s: string)
    ensures Skip(Skip(s)) == Skip(s) && Gettoken(Skip(s)) == Gettoken(s) && Tokens(Skip(s)) == Tokens(s)
  {
  }

  /** gettoken at the text of one token. */
  lemma OneToken(t: Tok, rest: string)
    requires TokOk(t)
    requires t.kind == Word ==> EndsWord(rest)
    requires t.kind == Sym('>') ==> rest == "" || rest[0] != '>'
    ensures Gettoken(t.text + rest) == Token(t.kind, t.text, Skip(rest))
  {
    match t.kind {
      case Word => WordToken(t.text, rest);
      case Sym(c) => SymToken(c, rest);
      case Append =>
        var s := t.text + rest;
        assert s[0] == '>' && s[1] == '>' && s[2..] == rest && Skip(s) == s;
    }
  }

  lemma GapToken(g: string, s: string)
    requires Blank(g)
    ensures Gettoken(g + s) == Gettoken(s) && Tokens(g + s) == Tokens(s)
  {
    SkipBlank(g, s);
  }

  lemma LayoutTail(gaps: seq<string>, toks: seq<Tok>)
    requires Layout(gaps, toks) && toks != []
    ensures Layout(gaps[1..], toks[1..]) && Blank(gaps[0]) && TokOk(toks[0])
    ensures var rest := Weave(gaps[1..], toks[1..]);
      && (toks[0].kind == Word ==> EndsWord(rest))
      && (toks[0].kind == Sym('>') ==> rest == "" || rest[0] != '>')
  {
    assert Blank(gaps[1]);
    if |toks| > 1 {
      assert TokOk(toks[1]) && toks[1].text != "";
      assert gaps[1] == "" ==> !Sticks(toks[0], toks[1]);
      var more := toks[1].text + Weave(gaps[1..][1..], toks[1..][1..]);
      assert Weave(gaps[1..], toks[1..]) == gaps[1] + more && more[0] == toks[1].text[0];
    }
  }

  /** gettoken finds the tokens a line is made of. */
  lemma {:induction false} TokensOfLine(gaps: seq<string>, toks: seq<Tok>)
    requires Layout(gaps, toks)
    ensures Tokens(Weave(gaps, toks)) == toks
    decreases |toks|
  {
    hide Gettoken, Blank, TokOk, EndsWord;
    if toks == [] {
      assert gaps[0] + "" == gaps[0];
      GapToken(gaps[0], "");
      NoTokens();
    } else {
      LayoutTail(gaps, toks);
      var rest := Weave(gaps[1..], toks[1..]);
      TokensOfLine(gaps[1..], toks[1..]);
      GapToken(gaps[0], toks[0].text + rest);
      OneToken(toks[0], rest);
      SkipTwice(rest);
      assert toks[0].kind != End by {
        NotEnd(toks[0]);
      }
      assert toks == [toks[0]] + toks[1..];
    }
  }

  lemma NotEnd(t: Tok)
    requires TokOk(t)
    ensures t.kind != End
  {
  }

  lemma NoTokens()
    ensures Tokens("") == []
  {
  }

  /** gettoken where a token starts. */
  lemma TokenAt(u: string)
    requires Skip(u) == u && Gettoken(u).kind != End
    ensures var t := Gettoken(u); |t.text| <= |u| && u == t.text + u[|t.text|..] && t.rest == Skip(u[|t.text|..])
    ensures TokOk(Tok(Gettoken(u).kind, Gettoken(u).text))
    ensures Gettoken(u).kind == Word ==> EndsWord(u[|Gettoken(u).text|..])
    ensures Gettoken(u).kind == Sym('>') ==> var rest := u[|Gettoken(u).text|..]; rest == "" || rest[0] != '>'
  {
    var t := Gettoken(u);
    hide Skip;
    if t.kind == Word {
      WordIsWord(u);
    }
    assert u == u[..|t.text|] + u[|t.text|..];
    assert t.text == u[..|t.text|];
  }

  lemma TokenSplits(s: string) returns (g: string, rest: string)
    requires Gettoken(s).kind != End
    ensures var t := Gettoken(s);
      && Blank(g) && s == g + (t.text + rest) && t.rest == Skip(rest) && TokOk(Tok(t.kind, t.text))
      && (t.kind == Word ==> EndsWord(rest)) && (t.kind == Sym('>') ==> rest == "" || rest[0] != '>')
  {
    g := SkipSplits(s);
    SkipTwice(s);
    TokenAt(Skip(s));
    rest := Skip(s)[|Gettoken(s).text|..];
    hide Skip, Gettoken, Blank, TokOk, EndsWord;
  }

  lemma LayoutMore(g: string, t: Tok, gaps: seq<string>, toks: seq<Tok>)
    requires Blank(g) && TokOk(t) && Layout(gaps, toks)
    requires t.kind == Word ==> EndsWord(Weave(gaps, toks))
    requires t.kind == Sym('>') ==> Weave(gaps, toks) == "" || Weave(gaps, toks)[0] != '>'
    ensures Layout([g] + gaps, [t] + toks) && Weave([g] + gaps, [t] + toks) == g + (t.text + Weave(gaps, toks))
  {
    var gaps', toks' := [g] + gaps, [t] + toks;
    assert gaps'[1..] == gaps && toks'[1..] == toks;
    forall i | 0 < i < |toks'| && gaps'[i] == ""
      ensures !Sticks(toks'[i - 1], toks'[i])
    {
      if i == 1 {
        assert TokOk(toks[0]) && Weave(gaps, toks)[0] == toks[0].text[0];
      } else {
        assert gaps[i - 1] == "" && toks'[i] == toks[i - 1] && toks'[i - 1] == toks[i - 2];
      }
    }
  }

  /** Every string, up to its end or the first NUL, is made of the tokens gettoken finds. */
  lemma {:induction false} LineOfTokens(s: string) returns (gaps: seq<string>)
    requires NulFree(s)
    ensures Layout(gaps, Tokens(s)) && Weave(gaps, Tokens(s)) == s
    decreases |s|
  {
    hide Gettoken, Layout;
    var t := Gettoken(s);
    if t.kind == End {
      gaps := [s];
      NoTokensLeft(s);
    } else {
      var g, rest := TokenSplits(s);
      gaps := LineOfTokens(rest);
      LayoutMore(g, Tok(t.kind, t.text), gaps, Tokens(rest));
      SkipTwice(rest);
      gaps := [g] + gaps;
    }
  }

  lemma NoTokensLeft(s: string)
    requires NulFree(s) && Tokens(s) == []
    ensures Skip(s) == "" && Layout([s], []) && Weave([s], []) == s
  {
    var g := SkipSplits(s);
    assert g + "" == g;
  }

  // ----- commands as they may be written

  datatype Piece = Arg(word: string) | To(op: Tok, file: string)

  /** Pieces: the arguments and redirections of a command in the order they are written. */
  datatype Cst =
    | Command(pieces: seq<Piece>)
    | Block(inner: Cst, redirs: seq<Piece>)
    | Pipeline(left: Cst, right: Cst)
    | Background(cmd: Cst)
    | Sequence(left: Cst, right: Cst)

  predicate PieceOk(p: Piece) {
    match p
    case Arg(w) => IsWord(w)
    case To(op, f) => IsWord(f) && op in {Tok(Sym('<'), "<"), Tok(Sym('>'), ">"), Tok(Append, ">>")}
  }

  function Words(ps: seq<Piece>): seq<string> {
    if ps == [] then []
    else Words(ps[..|ps| - 1]) + (if ps[|ps| - 1].Arg? then [ps[|ps| - 1].word] else [])
  }

  predicate PiecesOk(ps: seq<Piece>) {
    forall k :: 0 <= k < |ps| ==> PieceOk(ps[k])
  }

  predicate RedirsOk(ps: seq<Piece>) {
    PiecesOk(ps) && forall k :: 0 <= k < |ps| ==> ps[k].To?
  }

  function Binds(c: Cst): nat {
    match c
    case Sequence(_, _) => 0
    case Background(_) => 1
    case Pipeline(_, _) => 2
    case _ => 3
  }

  /** The order of precedence, and fewer than MAXARGS arguments to a command. */
  predicate Grammatical(c: Cst) {
    match c
    case Command(ps) => PiecesOk(ps) && |Words(ps)| < MAXARGS
    case Block(inner, rs) => Grammatical(inner) && RedirsOk(rs)
    case Pipeline(l, r) => Grammatical(l) && Grammatical(r) && Binds(l) == 3 && Binds(r) >= 2
    case Background(d) => Grammatical(d) && Binds(d) >= 1
    case Sequence(l, r) => Grammatical(l) && Grammatical(r) && Binds(l) >= 1
  }

  function PieceToks(ps: seq<Piece>): seq<Tok> {
    if ps == [] then []
    else match ps[0]
      case Arg(w) => [Tok(Word, w)] + PieceToks(ps[1..])
      case To(op, f) => [op, Tok(Word, f)] + PieceToks(ps[1..])
  }

  function SymTok(c: char): Tok {
    Tok(Sym(c), [c])
  }

  function Toks(c: Cst): seq<Tok> {
    match c
    case Command(ps) => PieceToks(ps)
    case Block(inner, rs) => [SymTok('(')] + Toks(inner) + [SymTok(')')] + PieceToks(rs)
    case Pipeline(l, r) => Toks(l) + [SymTok('|')] + Toks(r)
    case Background(d) => Toks(d) + [SymTok('&')]
    case Sequence(l, r) => Toks(l) + [SymTok(';')] + Toks(r)
  }

  /** Redirections wrap the command in the order they are written, wherever the arguments stand. */
  function Wrapped(t: Tree, ps: seq<Piece>): Tree {
    if ps == [] then t
    else match ps[|ps| - 1]
      case Arg(_) => Wrapped(t, ps[..|ps| - 1])
      case To(op, f) => Redir(Wrapped(t, ps[..|ps| - 1]), f, op.text != "<")
  }

  function Meaning(c: Cst): Tree {
    match c
    case Command(ps) => Wrapped(Exec(Words(ps)), ps)
    case Block(inner, rs) => Wrapped(Meaning(inner), rs)
    case Pipeline(l, r) => Pipe(Meaning(l), Meaning(r))
    case Background(d) => Back(Meaning(d))
    case Sequence(l, r) => List(Meaning(l), Meaning(r))
  }

  // ----- the parser's tests in terms of tokens

  predicate StartsWith(ts: seq<Tok>, toks: string) {
    ts != [] && ts[0].text != "" && ts[0].text[0] in toks
  }

  lemma PeekTokens(s: string, toks: string)
    requires forall c :: c in toks ==> Symbol(c)
    ensures Peek(s, toks) <==> StartsWith(Tokens(s), toks)
  {
    var u := Skip(s);
    if u != "" && u[0] != '\0' {
      SkipTwice(s);
      TokenAt(u);
    }
  }

  lemma NextToken(s: string)
    requires Tokens(s) != []
    ensures var t := Gettoken(s); Tokens(s) == [Tok(t.kind, t.text)] + Tokens(t.rest) && TokOk(Tok(t.kind, t.text))
    ensures Skip(Gettoken(s).rest) == Gettoken(s).rest && (NulFree(s) ==> NulFree(Gettoken(s).rest))
  {
    var g, rest := TokenSplits(s);
    SkipTwice(rest);
    var h := SkipSplits(rest);
    assert NulFree(s) ==> NulFree(rest);
  }

  lemma PiecesJoin(ps: seq<Piece>, qs: seq<Piece>)
    ensures PieceToks(ps + qs) == PieceToks(ps) + PieceToks(qs)
    decreases |ps|
  {
    if ps == [] {
      assert ps + qs == qs;
    } else {
      assert (ps + qs)[1..] == ps[1..] + qs;
      PiecesJoin(ps[1..], qs);
    }
  }

  /** One more piece at the end of a simple command is what the parser does with it. */
  lemma CommandArg(ps: seq<Piece>, w: string)
    ensures Words(ps + [Arg(w)]) == Words(ps) + [w]
    ensures Meaning(Command(ps + [Arg(w)])) == AddArg(Meaning(Command(ps)), w)
  {
    assert (ps + [Arg(w)])[..|ps|] == ps;
    AddUnderRedirs(Words(ps), ps, w);
  }

  lemma {:induction false} AddUnderRedirs(args: seq<string>, ps: seq<Piece>, w: string)
    ensures AddArg(Wrapped(Exec(args), ps), w) == Wrapped(Exec(args + [w]), ps)
    decreases |ps|
  {
    if ps != [] {
      AddUnderRedirs(args, ps[..|ps| - 1], w);
    }
  }

  lemma {:induction false} CommandRedirs(ps: seq<Piece>, rs: seq<Piece>)
    requires RedirsOk(rs)
    ensures Words(ps + rs) == Words(ps) && Meaning(Command(ps + rs)) == Wrapped(Meaning(Command(ps)), rs)
    decreases |rs|
  {
    if rs == [] {
      assert ps + rs == ps;
    } else {
      var n := |rs| - 1;
      assert (ps + rs)[..|ps| + n] == ps + rs[..n];
      CommandRedirs(ps, rs[..n]);
    }
  }

  lemma {:induction false} WrappedFirst(t: Tree, op: Tok, f: string, rs: seq<Piece>)
    ensures Wrapped(t, [To(op, f)] + rs) == Wrapped(Redir(t, f, op.text != "<"), rs)
    decreases |rs|
  {
    var ps := [To(op, f)] + rs;
    if rs == [] {
      assert ps[..0] == [];
    } else {
      WrappedFirst(t, op, f, rs[..|rs| - 1]);
      assert ps[..|ps| - 1] == [To(op, f)] + rs[..|rs| - 1];
    }
  }

  lemma RedirToken(s: string)
    requires StartsWith(Tokens(s), "<>")
    ensures var t := Gettoken(s); Tok(t.kind, t.text) in {Tok(Sym('<'), "<"), Tok(Sym('>'), ">"), Tok(Append, ">>")}
    ensures Gettoken(s).kind != Sym('<') <==> Gettoken(s).text != "<"
  {
    NextToken(s);
  }

  // ----- whatever the parser accepts is a written command

  lemma {:induction false} RedirsSound(t: Tree, s: string) returns (ps: seq<Piece>)
    requires Parseredirs(t, s).Ok?
    ensures var r := Parseredirs(t, s);
      RedirsOk(ps) && r.t == Wrapped(t, ps) && Tokens(s) == PieceToks(ps) + Tokens(r.rest)
    decreases |s|
  {
    hide Peek, Gettoken, Skip, StartsWith, Tokens;
    PeekTokens(s, "<>");
    if Peek(s, "<>") {
      var tok := Gettoken(s);
      var file := Gettoken(tok.rest);
      TokensThere(s, "<>");
      NextToken(s);
      RedirToken(s);
      WordIsWord(tok.rest);
      WordThere(tok.rest);
      NextToken(tok.rest);
      var op := Tok(tok.kind, tok.text);
      var more := RedirsSound(Redir(t, file.text, tok.kind != Sym('<')), file.rest);
      ps := [To(op, file.text)] + more;
      WrappedFirst(t, op, file.text, more);
      assert ps[1..] == more;
    } else {
      ps := [];
      SkipTwice(s);
    }
  }

  lemma TokensThere(s: string, toks: string)
    requires StartsWith(Tokens(s), toks)
    ensures Tokens(s) != []
  {
  }

  lemma WordThere(s: string)
    requires Gettoken(s).kind != End
    ensures Tokens(s) != []
  {
  }

  lemma NothingThere(s: string)
    requires Gettoken(s).kind == End
    ensures Tokens(s) == [] && Gettoken(s).rest == Skip(s)
  {
  }

  /** What follows a command: nothing, or one of the symbols toks. */
  predicate Before(ts: seq<Tok>, toks: string) {
    ts == [] || StartsWith(ts, toks)
  }

  lemma {:induction false} ArgsSound(done: seq<Piece>, s: string) returns (ps: seq<Piece>)
    requires PiecesOk(done) && |Words(done)| < MAXARGS && Parseargs(Meaning(Command(done)), |Words(done)|, s).Ok?
    ensures var r := Parseargs(Meaning(Command(done)), |Words(done)|, s);
      && PiecesOk(done + ps) && |Words(done + ps)| < MAXARGS && r.t == Meaning(Command(done + ps))
      && Tokens(s) == PieceToks(ps) + Tokens(r.rest)
    decreases |s|
  {
    hide Peek, Gettoken, Skip, StartsWith, Tokens, Meaning, Words, PieceOk, AddArg, Parseredirs, Wrapped, TokOk, IsWord;
    var t, tok := Meaning(Command(done)), Gettoken(s);
    if Peek(s, "|)&;") || tok.kind == End {
      ps := [];
      SkipTwice(s);
      if tok.kind == End {
        NothingThere(s);
      }
      assert done + [] == done;
    } else {
      var w := tok.text;
      WordIsWord(s);
      WordThere(s);
      NextToken(s);
      CommandArg(done, w);
      var done1 := done + [Arg(w)];
      assert PieceOk(Arg(w)) by {
        ArgOk(w);
      }
      var redirs := RedirsSound(AddArg(t, w), tok.rest);
      CommandRedirs(done1, redirs);
      var more := ArgsSound(done1 + redirs, Parseredirs(AddArg(t, w), tok.rest).rest);
      ps := [Arg(w)] + (redirs + more);
      PiecesJoin(redirs, more);
      assert ps[1..] == redirs + more;
      assert done + ps == done1 + redirs + more;
    }
  }

  lemma ArgOk(w: string)
    requires IsWord(w)
    ensures PieceOk(Arg(w))
  {
  }

  lemma NoWords(rs: seq<Piece>)
    requires RedirsOk(rs)
    ensures Words(rs) == [] && Meaning(Command(rs)) == Wrapped(Exec([]), rs)
  {
    CommandRedirs([], rs);
    assert [] + rs == rs;
  }

  lemma {:induction false} ExecSound(s: string) returns (c: Cst)
    requires Parseexec(s).Ok?
    ensures var r := Parseexec(s);
      Grammatical(c) && Binds(c) == 3 && r.t == Meaning(c) && Tokens(s) == Toks(c) + Tokens(r.rest)
    decreases |s|, 1
  {
    hide Peek, Gettoken, Skip, StartsWith, Tokens, Words, PieceToks, Wrapped;
    if Peek(s, "(") {
      PeekTokens(s, "(");
      SymbolThere(s, '(');
      var inner := Gettoken(s).rest;
      PeekToken(s, "(");
      var d := LineSound(inner);
      var l := Parseline(inner);
      PeekTokens(l.rest, ")");
      SymbolThere(l.rest, ')');
      var rs := RedirsSound(l.t, Gettoken(l.rest).rest);
      c := Block(d, rs);
    } else {
      var rs := RedirsSound(Exec([]), s);
      NoWords(rs);
      var more := ArgsSound(rs, Parseredirs(Exec([]), s).rest);
      PiecesJoin(rs, more);
      c := Command(rs + more);
    }
  }

  /** The token at a symbol that is not > is that symbol. */
  lemma SymbolThere(s: string, c: char)
    requires StartsWith(Tokens(s), [c]) && Symbol(c) && c != '>'
    ensures Tokens(s) == [SymTok(c)] + Tokens(Gettoken(s).rest)
    ensures Skip(Gettoken(s).rest) == Gettoken(s).rest && (NulFree(s) ==> NulFree(Gettoken(s).rest))
  {
    NextToken(s);
  }

  lemma {:induction false} PipeSound(s: string) returns (c: Cst)
    requires Parsepipe(s).Ok?
    ensures var r := Parsepipe(s);
      Grammatical(c) && Binds(c) >= 2 && r.t == Meaning(c) && Tokens(s) == Toks(c) + Tokens(r.rest)
    decreases |s|, 2
  {
    hide Peek, Gettoken, Skip, StartsWith, Tokens, Parseexec;
    var l := Parseexec(s);
    c := ExecSound(s);
    if Peek(l.rest, "|") {
      PeekTokens(l.rest, "|");
      SymbolThere(l.rest, '|');
      PeekToken(l.rest, "|");
      var d := PipeSound(Gettoken(l.rest).rest);
      c := Pipeline(c, d);
    } else {
      SkipTwice(l.rest);
    }
  }

  lemma {:induction false} BacksSound(c: Cst, s: string) returns (d: Cst)
    requires Grammatical(c) && Binds(c) >= 1
    ensures var r := Parsebacks(Meaning(c), s);
      Grammatical(d) && Binds(d) >= 1 && r.t == Meaning(d) && Toks(c) + Tokens(s) == Toks(d) + Tokens(r.rest)
    decreases |s|
  {
    hide Peek, Gettoken, Skip, StartsWith, Tokens;
    if Peek(s, "&") {
      PeekTokens(s, "&");
      SymbolThere(s, '&');
      PeekToken(s, "&");
      d := BacksSound(Background(c), Gettoken(s).rest);
    } else {
      d := c;
      SkipTwice(s);
    }
  }

  lemma {:induction false} LineSound(s: string) returns (c: Cst)
    requires Parseline(s).Ok?
    ensures var r := Parseline(s); Grammatical(c) && r.t == Meaning(c) && Tokens(s) == Toks(c) + Tokens(r.rest)
    decreases |s|, 3
  {
    hide Peek, Gettoken, Skip, StartsWith, Tokens, Parsepipe, Parsebacks, TokOk, Parseexec;
    var p := Parsepipe(s);
    c := PipeSound(s);
    c := BacksSound(c, p.rest);
    var l := Parsebacks(p.t, p.rest);
    if Peek(l.rest, ";") {
      PeekTokens(l.rest, ";");
      SymbolThere(l.rest, ';');
      PeekToken(l.rest, ";");
      var d := LineSound(Gettoken(l.rest).rest);
      c := Sequence(c, d);
    } else {
      SkipTwice(l.rest);
    }
  }

  // ----- the parser accepts every written command

  /** The parser got through to the tokens more, having built t. */
  predicate Parses(r: Parsed, t: Tree, more: seq<Tok>) {
    r.Ok? && r.t == t && Tokens(r.rest) == more && NulFree(r.rest) && Skip(r.rest) == r.rest
  }

  lemma SkipFree(s: string)
    requires NulFree(s)
    ensures NulFree(Skip(s)) && Skip(Skip(s)) == Skip(s) && Tokens(Skip(s)) == Tokens(s)
  {
    var g := SkipSplits(s);
    SkipTwice(s);
  }

  /** The next token, read by gettoken. */
  lemma ReadToken(s: string, t: Tok, more: seq<Tok>)
    requires NulFree(s) && Tokens(s) == [t] + more
    ensures var g := Gettoken(s); g.kind == t.kind && g.kind != End && g.text == t.text && Tokens(g.rest) == more
    ensures NulFree(Gettoken(s).rest) && |Gettoken(s).rest| < |s| && TokOk(t)
  {
    NextToken(s);
    assert ([t] + more)[0] == t && ([t] + more)[1..] == more;
  }

  lemma RedirRead(t: Tree, s: string, op: Tok, f: string, more: seq<Tok>) returns (rest: string)
    requires NulFree(s) && Tokens(s) == [op] + ([Tok(Word, f)] + more) && PieceOk(To(op, f))
    ensures Parseredirs(t, s) == Parseredirs(Redir(t, f, op.text != "<"), rest) && NulFree(rest) && Tokens(rest) == more
  {
    hide Peek, Gettoken, Skip, Tokens;
    PeekTokens(s, "<>");
    assert ([op] + ([Tok(Word, f)] + more))[0] == op;
    ReadToken(s, op, [Tok(Word, f)] + more);
    var mid := Gettoken(s).rest;
    ReadToken(mid, Tok(Word, f), more);
    rest := Gettoken(mid).rest;
  }

  lemma NoRedirRead(t: Tree, s: string)
    requires NulFree(s) && !StartsWith(Tokens(s), "<>")
    ensures Parses(Parseredirs(t, s), t, Tokens(s))
  {
    hide Tokens, Gettoken, StartsWith;
    PeekTokens(s, "<>");
    SkipFree(s);
  }

  lemma {:induction false} RedirsComplete(t: Tree, ps: seq<Piece>, s: string, more: seq<Tok>)
    requires RedirsOk(ps) && NulFree(s) && Tokens(s) == PieceToks(ps) + more && !StartsWith(more, "<>")
    ensures Parses(Parseredirs(t, s), Wrapped(t, ps), more)
    decreases |ps|
  {
    hide Peek, Gettoken, Skip, Tokens, Parseredirs, NulFree, StartsWith, Parses, PieceOk;
    if ps == [] {
      assert PieceToks(ps) + more == more;
      NoRedirRead(t, s);
    } else {
      var op, f := ps[0].op, ps[0].file;
      var next := PieceToks(ps[1..]) + more;
      assert ps[0] == To(op, f);
      assert Tokens(s) == [op] + ([Tok(Word, f)] + next);
      var rest := RedirRead(t, s, op, f, next);
      WrappedFirst(t, op, f, ps[1..]);
      assert [To(op, f)] + ps[1..] == ps;
      RedirsComplete(Redir(t, f, op.text != "<"), ps[1..], rest, more);
    }
  }

  /** How many of the pieces, from the first, are redirections. */
  function Leading(ps: seq<Piece>): (n: nat)
    ensures n <= |ps| && (forall k :: 0 <= k < n ==> ps[k].To?) && (n < |ps| ==> ps[n].Arg?)
  {
    if ps != [] && ps[0].To? then 1 + Leading(ps[1..]) else 0
  }

  lemma NotRedir(ps: seq<Piece>, more: seq<Tok>)
    requires PiecesOk(ps) && (ps == [] || ps[0].Arg?) && !StartsWith(more, "<>")
    ensures !StartsWith(PieceToks(ps) + more, "<>")
  {
    if ps != [] {
      assert PieceOk(ps[0]);
      assert WordChar(ps[0].word[0]);
    } else {
      assert PieceToks(ps) + more == more;
    }
  }

  lemma {:induction false} WordsGrow(ps: seq<Piece>, qs: seq<Piece>)
    ensures |Words(ps)| <= |Words(ps + qs)|
    decreases |qs|
  {
    if qs == [] {
      assert ps + qs == ps;
    } else {
      assert (ps + qs)[..|ps| + |qs| - 1] == ps + qs[..|qs| - 1];
      WordsGrow(ps, qs[..|qs| - 1]);
    }
  }

  lemma ArgRead(t: Tree, argc: nat, s: string, w: string, more: seq<Tok>) returns (rest: string)
    requires NulFree(s) && Tokens(s) == [Tok(Word, w)] + more && argc + 1 < MAXARGS
    ensures NulFree(rest) && Tokens(rest) == more
    ensures var r := Parseredirs(AddArg(t, w), rest);
      Parseargs(t, argc, s) == if r.Bad? then Bad else Parseargs(r.t, argc + 1, r.rest)
  {
    hide Peek, Gettoken, Skip, Tokens, Parseredirs, AddArg, TokOk;
    PeekTokens(s, "|)&;");
    ReadToken(s, Tok(Word, w), more);
    WordOk(w);
    rest := Gettoken(s).rest;
  }

  /** The pieces after the first argument: redirections, then nothing or another argument. */
  lemma SplitPieces(done: seq<Piece>, ps: seq<Piece>) returns (redirs: seq<Piece>, rest: seq<Piece>)
    requires PiecesOk(done + ps) && ps != [] && ps[0].Arg?
    ensures RedirsOk(redirs) && PiecesOk(rest) && (rest == [] || rest[0].Arg?)
    ensures ps[1..] == redirs + rest && done + ps == done + [ps[0]] + redirs + rest
  {
    var n := Leading(ps[1..]);
    redirs, rest := ps[1..][..n], ps[1..][n..];
    assert forall k :: 0 <= k < |redirs| ==> redirs[k] == (done + ps)[|done| + 1 + k];
    assert forall k :: 0 <= k < |rest| ==> rest[k] == (done + ps)[|done| + 1 + n + k];
    hide PieceOk, Leading;
  }

  lemma {:induction false} ArgsComplete(done: seq<Piece>, ps: seq<Piece>, s: string, more: seq<Tok>)
    requires PiecesOk(done + ps) && |Words(done + ps)| < MAXARGS && (ps == [] || ps[0].Arg?)
    requires NulFree(s) && Tokens(s) == PieceToks(ps) + more && Before(more, "|)&;")
    ensures Parses(Parseargs(Meaning(Command(done)), |Words(done)|, s), Meaning(Command(done + ps)), more)
    decreases |ps|
  {
    hide Peek, Gettoken, Skip, Tokens, Meaning, Words, PiecesOk, RedirsOk, TokOk, AddArg, Parseargs, Parseredirs, StartsWith,
      Before, NulFree, Wrapped;
    if ps == [] {
      assert done + ps == done && PieceToks(ps) + more == more;
      ArgsEnd(Meaning(Command(done)), |Words(done)|, s);
    } else {
      var w, t := ps[0].word, Meaning(Command(done));
      var redirs, rest := SplitPieces(done, ps);
      assert ps[0] == Arg(w);
      var done1 := done + [Arg(w)];
      assert Tokens(s) == [Tok(Word, w)] + (PieceToks(ps[1..]) + more);
      CommandArg(done, w);
      CommandRedirs(done1, redirs);
      WordsGrow(done1 + redirs, rest);
      var s1 := ArgRead(t, |Words(done)|, s, w, PieceToks(ps[1..]) + more);
      PiecesJoin(redirs, rest);
      assert PieceToks(ps[1..]) + more == PieceToks(redirs) + (PieceToks(rest) + more);
      NotRedirBefore(more);
      NotRedir(rest, more);
      RedirsComplete(AddArg(t, w), redirs, s1, PieceToks(rest) + more);
      ArgsComplete(done1 + redirs, rest, Parseredirs(AddArg(t, w), s1).rest, more);
    }
  }

  lemma NotRedirBefore(more: seq<Tok>)
    requires Before(more, "|)&;")
    ensures !StartsWith(more, "<>")
  {
  }

  lemma WordOk(w: string)
    requires TokOk(Tok(Word, w))
    ensures !StartsWith([Tok(Word, w)], "|)&;")
  {
  }

  lemma ArgsEnd(t: Tree, argc: nat, s: string)
    requires NulFree(s) && Before(Tokens(s), "|)&;")
    ensures Parses(Parseargs(t, argc, s), t, Tokens(s))
  {
    PeekTokens(s, "|)&;");
    SkipFree(s);
    if Tokens(s) == [] {
      NoTokensLeft(s);
    }
    hide Tokens, Skip;
  }

  lemma CommandComplete(ps: seq<Piece>, s: string, more: seq<Tok>)
    requires Grammatical(Command(ps)) && NulFree(s) && Tokens(s) == PieceToks(ps) + more && Before(more, "|&;)")
    ensures Parses(Parseexec(s), Meaning(Command(ps)), more)
  {
    hide Peek, Gettoken, Skip, Tokens, Words, PiecesOk, RedirsOk, TokOk, Parseargs, Parseredirs, StartsWith, Before,
      NulFree, Wrapped, Toks, Parseblock;
    var redirs, rest := FirstRedirs(ps);
    PiecesJoin(redirs, rest);
    assert Tokens(s) == PieceToks(redirs) + (PieceToks(rest) + more);
    BeforeEither(more);
    NotRedirBefore(more);
    NotRedir(rest, more);
    NotOpen(ps, more);
    PeekTokens(s, "(");
    RedirsComplete(Exec([]), redirs, s, PieceToks(rest) + more);
    NoWords(redirs);
    ArgsComplete(redirs, rest, Parseredirs(Exec([]), s).rest, more);
  }

  lemma FirstRedirs(ps: seq<Piece>) returns (redirs: seq<Piece>, rest: seq<Piece>)
    requires PiecesOk(ps)
    ensures RedirsOk(redirs) && PiecesOk(rest) && (rest == [] || rest[0].Arg?) && ps == redirs + rest
  {
    var n := Leading(ps);
    redirs, rest := ps[..n], ps[n..];
  }

  lemma BeforeEither(more: seq<Tok>)
    requires Before(more, "|&;)")
    ensures Before(more, "|)&;")
  {
  }

  lemma NotOpen(ps: seq<Piece>, more: seq<Tok>)
    requires PiecesOk(ps) && Before(more, "|&;)")
    ensures !StartsWith(PieceToks(ps) + more, "(")
  {
    if ps != [] {
      assert PieceOk(ps[0]);
      assert ps[0].Arg? ==> WordChar(ps[0].word[0]);
    } else {
      assert PieceToks(ps) + more == more;
    }
  }

  /** Reading a symbol the parser looks for. */
  lemma SymbolRead(s: string, c: char, more: seq<Tok>)
    requires NulFree(s) && Symbol(c) && Tokens(s) == [SymTok(c)] + more
    ensures forall toks :: (forall x :: x in toks ==> Symbol(x)) ==> (Peek(s, toks) <==> c in toks)
    ensures Tokens(Gettoken(s).rest) == more && NulFree(Gettoken(s).rest)
  {
    forall toks | forall x :: x in toks ==> Symbol(x)
      ensures Peek(s, toks) <==> c in toks
    {
      PeekTokens(s, toks);
    }
    ReadToken(s, SymTok(c), more);
  }

  lemma NotPeeked(s: string, allowed: string, toks: string)
    requires Before(Tokens(s), allowed) && forall c :: c in toks ==> Symbol(c) && c !in allowed
    ensures !Peek(s, toks)
  {
    PeekTokens(s, toks);
  }

  lemma {:induction false} ExecComplete(c: Cst, s: string, more: seq<Tok>)
    requires Grammatical(c) && Binds(c) == 3 && NulFree(s) && Tokens(s) == Toks(c) + more && Before(more, "|&;)")
    ensures Parses(Parseexec(s), Meaning(c), more)
    decreases c, 0
  {
    hide Peek, Gettoken, Skip, Tokens, Words, PiecesOk, RedirsOk, TokOk, Parseargs, Parseredirs, StartsWith,
      NulFree, Wrapped, Parseline, Parseblock, Parseexec;
    match c {
      case Command(ps) => CommandComplete(ps, s, more);
      case Block(inner, rs) =>
        var after := [SymTok(')')] + (PieceToks(rs) + more);
        assert Tokens(s) == [SymTok('(')] + (Toks(inner) + after);
        SymbolRead(s, '(', Toks(inner) + after);
        var s1 := Gettoken(s).rest;
        StartsSym(')', PieceToks(rs) + more);
        LineComplete(inner, s1, after);
        var s2 := Parseline(s1).rest;
        SymbolRead(s2, ')', PieceToks(rs) + more);
        BeforeEither(more);
        NotRedirBefore(more);
        RedirsComplete(Meaning(inner), rs, Gettoken(s2).rest, more);
        BlockStep(s, s1, Meaning(inner), s2, Gettoken(s2).rest);
    }
  }

  lemma StartsSym(c: char, more: seq<Tok>)
    ensures StartsWith([SymTok(c)] + more, [c]) && forall toks :: c in toks ==> Before([SymTok(c)] + more, toks)
  {
  }

  lemma Fewer(more: seq<Tok>, toks: string, all: string)
    requires Before(more, toks) && forall c :: c in toks ==> c in all
    ensures Before(more, all)
  {
  }

  lemma {:induction false} PipeComplete(c: Cst, s: string, more: seq<Tok>)
    requires Grammatical(c) && Binds(c) >= 2 && NulFree(s) && Tokens(s) == Toks(c) + more && Before(more, "&;)")
    ensures Parses(Parsepipe(s), Meaning(c), more)
    decreases c, 1
  {
    hide Peek, Gettoken, Skip, Tokens, StartsWith, NulFree, Parseexec, Parsepipe, Before;
    if c.Pipeline? {
      var after := [SymTok('|')] + (Toks(c.right) + more);
      assert Tokens(s) == Toks(c.left) + after;
      StartsSym('|', Toks(c.right) + more);
      ExecComplete(c.left, s, after);
      var s1 := Parseexec(s).rest;
      SymbolRead(s1, '|', Toks(c.right) + more);
      var s2 := Gettoken(s1).rest;
      PipeComplete(c.right, s2, more);
      PipeStep(s, Meaning(c.left), s1, s2, Meaning(c.right), Parsepipe(s2).rest);
    } else {
      Fewer(more, "&;)", "|&;)");
      ExecComplete(c, s, more);
      var s1 := Parseexec(s).rest;
      NotPeeked(s1, "&;)", "|");
      NoPipe(s, Meaning(c), s1);
    }
  }

  lemma {:induction false} BackComplete(c: Cst, s: string, more: seq<Tok>) returns (rest: string)
    requires Grammatical(c) && Binds(c) >= 1 && NulFree(s) && Tokens(s) == Toks(c) + more && Before(more, "&;)")
    ensures Parseline(s) == LineTail(Meaning(c), rest) && Tokens(rest) == more && NulFree(rest) && Skip(rest) == rest
    decreases c, 2
  {
    hide Peek, Gettoken, Skip, Tokens, StartsWith, NulFree, Parsepipe, Parseline, LineTail, Before;
    if c.Background? {
      var after := [SymTok('&')] + more;
      assert Tokens(s) == Toks(c.cmd) + after;
      StartsSym('&', more);
      var s1 := BackComplete(c.cmd, s, after);
      SymbolRead(s1, '&', more);
      SymbolThere(s1, '&');
      rest := Gettoken(s1).rest;
      BackStep(Meaning(c.cmd), s1, rest);
    } else {
      PipeComplete(c, s, more);
      rest := Parsepipe(s).rest;
      LineStep(s, Meaning(c), rest);
    }
  }

  lemma {:induction false} LineComplete(c: Cst, s: string, more: seq<Tok>)
    requires Grammatical(c) && NulFree(s) && Tokens(s) == Toks(c) + more && Before(more, ")")
    ensures Parses(Parseline(s), Meaning(c), more)
    decreases c, 3
  {
    hide Peek, Gettoken, Skip, Tokens, StartsWith, NulFree, Parseline, LineTail, Before;
    if c.Sequence? {
      var after := [SymTok(';')] + (Toks(c.right) + more);
      assert Tokens(s) == Toks(c.left) + after;
      StartsSym(';', Toks(c.right) + more);
      var s1 := BackComplete(c.left, s, after);
      SymbolRead(s1, ';', Toks(c.right) + more);
      var s2 := Gettoken(s1).rest;
      LineComplete(c.right, s2, more);
      ListStep(Meaning(c.left), s1, s2, Meaning(c.right), Parseline(s2).rest);
    } else {
      Fewer(more, ")", "&;)");
      var s1 := BackComplete(c, s, more);
      NotPeeked(s1, ")", "&");
      NotPeeked(s1, ")", ";");
      NoList(Meaning(c), s1);
    }
  }

  // ----- the lines that are accepted

  /** The tokens are a way to write the command t. */
  ghost predicate Writes(toks: seq<Tok>, t: Tree) {
    exists c :: Grammatical(c) && Toks(c) == toks && Meaning(c) == t
  }

  lemma AcceptedTokens(s: string, t: Tree)
    requires NulFree(s)
    ensures Parsecmd(s) == Ok(t, "") <==> Writes(Tokens(s), t)
  {
    hide Tokens, Gettoken, Parseline, Skip;
    if Parsecmd(s) == Ok(t, "") {
      var c := LineSound(s);
      NoTokens();
      SkipTwice(Parseline(s).rest);
      assert Toks(c) + [] == Toks(c);
      assert Grammatical(c) && Toks(c) == Tokens(s) && Meaning(c) == t;
    }
    if Writes(Tokens(s), t) {
      var c :| Grammatical(c) && Toks(c) == Tokens(s) && Meaning(c) == t;
      assert Toks(c) + [] == Toks(c);
      LineComplete(c, s, []);
      NoTokensLeft(Parseline(s).rest);
    }
  }

  /** parsecmd accepts a line, however its tokens are spaced, exactly when they are the written form of a command,
    * which is then what it returns; it refuses every other line.
    */
  lemma AcceptedExactly(gaps: seq<string>, toks: seq<Tok>, t: Tree)
    requires Layout(gaps, toks)
    ensures Parsecmd(Weave(gaps, toks)) == Ok(t, "") <==> Writes(toks, t)
  {
    hide Tokens, Weave;
    TokensOfLine(gaps, toks);
    NoNul(gaps, toks);
    AcceptedTokens(Weave(gaps, toks), t);
  }

  lemma {:induction false} NoNul(gaps: seq<string>, toks: seq<Tok>)
    requires Layout(gaps, toks)
    ensures NulFree(Weave(gaps, toks))
    decreases |toks|
  {
    assert NulFree(gaps[0]) by {
      assert Blank(gaps[0]);
    }
    if toks != [] {
      LayoutTail(gaps, toks);
      NoNul(gaps[1..], toks[1..]);
      hide Layout;
      assert NulFree(toks[0].text);
    }
  }

  /** No row of tokens can be read as two commands. */
  lemma Unambiguous(gaps: seq<string>, toks: seq<Tok>, t: Tree, u: Tree)
    requires Layout(gaps, toks) && Writes(toks, t) && Writes(toks, u)
    ensures t == u
  {
    AcceptedExactly(gaps, toks, t);
    AcceptedExactly(gaps, toks, u);
  }
}
