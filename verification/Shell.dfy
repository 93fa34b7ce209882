/** The command language of sh.c: its recursive-descent parser as functions on the unread input, a canonical
  * printer, and the proof that parsing undoes printing.
  */
module Shell {

  const MAXARGS: nat := 10

  /** struct cmd.  write says whether a redirection is O_WRONLY|O_CREATE on descriptor 1 or O_RDONLY on 0. */
  datatype Tree =
    | Exec(args: seq<string>)
    | Redir(cmd: Tree, file: string, write: bool)
    | Pipe(left: Tree, right: Tree)
    | List(left: Tree, right: Tree)
    | Back(cmd: Tree)

  datatype Parsed = Ok(t: Tree, rest: string) | Bad

  predicate Whitespace(c: char) {
    c in {' ', '\t', '\r', '\n', 11 as char}
  }

  predicate Symbol(c: char) {
    c in {'<', '|', '>', '&', ';', '(', ')'}
  }

  predicate WordChar(c: char) {
    !Whitespace(c) && !Symbol(c) && c != '\0'
  }

  /** What gettoken returns: 0, a symbol, '+' for >>, or 'a' for a word. */
  datatype Kind = End | Sym(c: char) | Append | Word

  datatype Token = Token(kind: Kind, text: string, rest: string)

  function Skip(s: string): (r: string)
    ensures |r| <= |s| && (r != "" ==> !Whitespace(r[0]))
  {
    if s != "" && Whitespace(s[0]) then Skip(s[1..]) else s
  }

  /** The length of the word at the front of s. */
  function WordLength(s: string): (n: nat)
    ensures n <= |s| && forall k :: 0 <= k < n ==> WordChar(s[k])
    ensures n < |s| ==> !WordChar(s[n])
  {
    if s != "" && WordChar(s[0]) then 1 + WordLength(s[1..]) else 0
  }

  function Gettoken(s: string): (t: Token)
    ensures |t.rest| <= |s| && (t.kind != End ==> |t.rest| < |s|)
  {
    var u := Skip(s);
    if u == "" || u[0] == '\0' then Token(End, "", u)
    else if u[0] == '>' then
      if |u| > 1 && u[1] == '>' then Token(Append, ">>", Skip(u[2..])) else Token(Sym('>'), ">", Skip(u[1..]))
    else if Symbol(u[0]) then Token(Sym(u[0]), [u[0]], Skip(u[1..]))
    else
      var n := WordLength(u);
      Token(Word, u[..n], Skip(u[n..]))
  }

  function Peek(s: string, toks: string): bool {
    var u := Skip(s);
    u != "" && u[0] != '\0' && u[0] in toks
  }

  /** "cmd->argv[argc] = q": the execcmd is the innermost command, under the redirections met so far. */
  function AddArg(t: Tree, w: string): Tree {
    match t
    case Redir(c, f, wr) => Redir(AddArg(c, w), f, wr)
    case Exec(args) => Exec(args + [w])
    case _ => t
  }

  function Parseredirs(t: Tree, s: string): (r: Parsed)
    ensures r.Ok? ==> |r.rest| <= |s|
    decreases |s|
  {
    if Peek(s, "<>") then
      var tok := Gettoken(s);
      var file := Gettoken(tok.rest);
      if file.kind != Word then Bad
      else Parseredirs(Redir(t, file.text, tok.kind != Sym('<')), file.rest)
    else Ok(t, Skip(s))
  }

  /** parseexec's loop, with argc arguments so far. */
  function Parseargs(t: Tree, argc: nat, s: string): (r: Parsed)
    ensures r.Ok? ==> |r.rest| <= |s|
    decreases |s|
  {
    if Peek(s, "|)&;") then Ok(t, Skip(s))
    else
      var tok := Gettoken(s);
      if tok.kind == End then Ok(t, tok.rest)
      else if tok.kind != Word || argc + 1 >= MAXARGS then Bad
      else
        var r := Parseredirs(AddArg(t, tok.text), tok.rest);
        if r.Bad? then Bad else Parseargs(r.t, argc + 1, r.rest)
  }

  function Parseexec(s: string): (r: Parsed)
    ensures r.Ok? ==> |r.rest| <= |s|
    decreases |s|, 1
  {
    if Peek(s, "(") then Parseblock(s)
    else
      var r := Parseredirs(Exec([]), s);
      if r.Bad? then Bad else Parseargs(r.t, 0, r.rest)
  }

  function Parseblock(s: string): (r: Parsed)
    requires Peek(s, "(")
    ensures r.Ok? ==> |r.rest| <= |s|
    decreases |s|, 0
  {
    var r := Parseline(Gettoken(s).rest);
    if r.Bad? || !Peek(r.rest, ")") then Bad else Parseredirs(r.t, Gettoken(r.rest).rest)
  }

  function Parsepipe(s: string): (r: Parsed)
    ensures r.Ok? ==> |r.rest| <= |s|
    decreases |s|, 2
  {
    var l := Parseexec(s);
    if l.Bad? then Bad
    else if Peek(l.rest, "|") then
      var r := Parsepipe(Gettoken(l.rest).rest);
      if r.Bad? then Bad else Ok(Pipe(l.t, r.t), r.rest)
    else Ok(l.t, Skip(l.rest))
  }

  /** parseline's loop over &. */
  function Parsebacks(t: Tree, s: string): (r: Parsed)
    ensures r.Ok? && |r.rest| <= |s|
    decreases |s|
  {
    if Peek(s, "&") then Parsebacks(Back(t), Gettoken(s).rest) else Ok(t, Skip(s))
  }

  function Parseline(s: string): (r: Parsed)
    ensures r.Ok? ==> |r.rest| <= |s|
    decreases |s|, 3
  {
    var p := Parsepipe(s);
    if p.Bad? then Bad
    else
      var l := Parsebacks(p.t, p.rest);
      if Peek(l.rest, ";") then
        var r := Parseline(Gettoken(l.rest).rest);
        if r.Bad? then Bad else Ok(List(l.t, r.t), r.rest)
      else Ok(l.t, Skip(l.rest))
  }

  /** parsecmd; leftovers are an error. */
  function Parsecmd(s: string): Parsed {
    var r := Parseline(s);
    if r.Bad? || Skip(r.rest) != "" then Bad else Ok(r.t, "")
  }

  // ----- the canonical printer

  /** The arguments separated by blanks, followed by rest. */
  function Join(args: seq<string>, rest: string): string {
    if args == [] then rest
    else if |args| == 1 then args[0] + rest
    else args[0] + ([' '] + Join(args[1..], rest))
  }

  /** How tightly a command binds: a list least, then background, pipes, and a command with its redirections. */
  function Level(t: Tree): (n: nat)
    ensures n <= 3
  {
    match t
    case List(_, _) => 0
    case Back(_) => 1
    case Pipe(_, _) => 2
    case _ => 3
  }

  /** The text of t, followed by rest, where a command of the given level is expected.  Lists and pipes
    * group to the right, and only a command that binds too loosely for its place is parenthesised.
    */
  function Print(t: Tree, level: nat, rest: string): string
    decreases t, level
  {
    if Level(t) < level then ['('] + Print(t, 0, [')'] + rest)
    else
      match t
      case Exec(args) => Join(args, rest)
      case Redir(c, f, write) => Print(c, 3, [if write then '>' else '<'] + (f + rest))
      case Pipe(l, r) => Print(l, 3, ['|'] + Print(r, 2, rest))
      case List(l, r) => Print(l, 1, [';'] + Print(r, 0, rest))
      case Back(c) => Print(c, 1, ['&'] + rest)
  }

  predicate IsWord(w: string) {
    w != "" && forall k :: 0 <= k < |w| ==> WordChar(w[k])
  }

  /** Trees over words, with fewer than MAXARGS arguments to a command. */
  predicate Good(t: Tree) {
    match t
    case Exec(args) => |args| < MAXARGS && forall k :: 0 <= k < |args| ==> IsWord(args[k])
    case Redir(c, f, _) => Good(c) && IsWord(f)
    case Pipe(l, r) => Good(l) && Good(r)
    case List(l, r) => Good(l) && Good(r)
    case Back(c) => Good(c)
  }

  // ----- tokens of printed text

  /** rest is empty or starts with one of the symbols toks. */
  predicate Follows(rest: string, toks: string) {
    rest == "" || rest[0] in toks
  }

  const AFTER: string := "<>|&;)"    // what may follow a command with its redirections

  /** What ends a word. */
  predicate EndsWord(rest: string) {
    rest == "" || !WordChar(rest[0])
  }

  lemma {:induction false} WordEnds(w: string, rest: string)
    requires (forall k :: 0 <= k < |w| ==> WordChar(w[k])) && EndsWord(rest)
    ensures WordLength(w + rest) == |w|
    decreases |w|
  {
    if w == "" {
      assert w + rest == rest;
    } else {
      assert (w + rest)[1..] == w[1..] + rest;
      WordEnds(w[1..], rest);
    }
  }

  lemma WordToken(w: string, rest: string)
    requires IsWord(w) && EndsWord(rest)
    ensures Gettoken(w + rest) == Token(Word, w, Skip(rest)) && Skip(w + rest) == w + rest
    ensures !Peek(w + rest, "|)&;") && !Peek(w + rest, "(") && !Peek(w + rest, "<>")
  {
    WordEnds(w, rest);
    assert (w + rest)[0] == w[0] && WordChar(w[0]);
    assert Skip(w + rest) == w + rest;
    assert (w + rest)[..|w|] == w && (w + rest)[|w|..] == rest;
  }

  lemma SymToken(c: char, rest: string)
    requires Symbol(c) && (c == '>' ==> rest == "" || rest[0] != '>')
    ensures Gettoken([c] + rest) == Token(Sym(c), [c], Skip(rest)) && Skip([c] + rest) == [c] + rest
    ensures forall toks :: Peek([c] + rest, toks) <==> c in toks
  {
    var s := [c] + rest;
    assert s[0] == c && s[1..] == rest && Skip(s) == s;
    assert c != '\0';
  }

  lemma FollowTokens(rest: string)
    requires Follows(rest, AFTER)
    ensures Skip(rest) == rest && EndsWord(rest)
    ensures forall toks :: Peek(rest, toks) <==> rest != "" && rest[0] in toks
  {
  }

  /** Printed text starts with no blank. */
  lemma {:induction false} Starts(t: Tree, level: nat, rest: string)
    requires Good(t) && Follows(rest, AFTER)
    ensures Skip(Print(t, level, rest)) == Print(t, level, rest)
    decreases t, level
  {
    if Level(t) < level {
      assert Print(t, level, rest)[0] == '(';
    } else {
      match t {
        case Exec(args) =>
          if args != [] {
            assert IsWord(args[0]) && Join(args, rest)[0] == args[0][0];
          }
        case Redir(c, f, write) => Starts(c, 3, [if write then '>' else '<'] + (f + rest));
        case Pipe(l, r) => Starts(l, 3, ['|'] + Print(r, 2, rest));
        case List(l, r) => Starts(l, 1, [';'] + Print(r, 0, rest));
        case Back(c) => Starts(c, 1, ['&'] + rest);
      }
    }
  }

  // ----- one unfolding of each parser, given what its parts return

  /** An execcmd under redirections, which further arguments still reach. */
  predicate Simple(t: Tree) {
    match t
    case Exec(_) => true
    case Redir(c, _, _) => Simple(c)
    case _ => false
  }

  function Args(t: Tree): seq<string> {
    match t
    case Exec(args) => args
    case Redir(c, _, _) => Args(c)
    case _ => []
  }

  /** What parseexec makes of s once it has read the text of t. */
  function Tail(t: Tree, s: string): Parsed {
    var r := Parseredirs(t, s);
    if r.Bad? || !Simple(t) then r else Parseargs(r.t, |Args(t)|, r.rest)
  }

  /** What parseline makes of s once it has read the text of t. */
  function LineTail(t: Tree, s: string): Parsed {
    var l := Parsebacks(t, s);
    if Peek(l.rest, ";") then
      var r := Parseline(Gettoken(l.rest).rest);
      if r.Bad? then Bad else Ok(List(l.t, r.t), r.rest)
    else Ok(l.t, Skip(l.rest))
  }

  lemma NoRedirs(t: Tree, s: string)
    requires Skip(s) == s && !Peek(s, "<>")
    ensures Parseredirs(t, s) == Ok(t, s)
  {
  }

  lemma RedirStep(t: Tree, s: string, o: char, mid: string, f: string, rest: string)
    requires Peek(s, "<>") && Gettoken(s) == Token(Sym(o), [o], mid) && Gettoken(mid) == Token(Word, f, rest)
    ensures Parseredirs(t, s) == Parseredirs(Redir(t, f, o != '<'), rest)
    ensures Tail(t, s) == Tail(Redir(t, f, o != '<'), rest)
  {
    hide Peek, Skip, Parseargs;
  }

  lemma BlockStep(s: string, inner: string, t: Tree, mid: string, next: string)
    requires Peek(s, "(") && Gettoken(s).rest == inner && Parseline(inner) == Ok(t, mid)
    requires Peek(mid, ")") && Gettoken(mid).rest == next
    ensures Parseexec(s) == Parseredirs(t, next)
  {
    hide Peek, Skip, Parseline, Parseredirs, Parseargs;
  }

  lemma PipeStep(s: string, l: Tree, mid: string, next: string, r: Tree, rest: string)
    requires Parseexec(s) == Ok(l, mid) && Peek(mid, "|") && Gettoken(mid).rest == next && Parsepipe(next) == Ok(r, rest)
    ensures Parsepipe(s) == Ok(Pipe(l, r), rest)
  {
    hide Peek, Parseexec, Skip, Parseline, Parseblock;
  }

  lemma NoPipe(s: string, l: Tree, mid: string)
    requires Parseexec(s) == Ok(l, mid) && !Peek(mid, "|") && Skip(mid) == mid
    ensures Parsepipe(s) == Ok(l, mid)
  {
    hide Peek, Parseexec, Skip, Parseline, Parseblock;
  }

  lemma LineStep(s: string, t: Tree, mid: string)
    requires Parsepipe(s) == Ok(t, mid)
    ensures Parseline(s) == LineTail(t, mid)
  {
    hide Peek, Skip, Parsepipe, Parseexec, Parseblock, Parsebacks;
  }

  lemma BackStep(t: Tree, s: string, rest: string)
    requires Peek(s, "&") && Gettoken(s).rest == rest
    ensures LineTail(t, s) == LineTail(Back(t), rest)
  {
    hide Peek, Skip, Gettoken, Parseline;
  }

  lemma ListStep(t: Tree, s: string, next: string, r: Tree, rest: string)
    requires Skip(s) == s && !Peek(s, "&") && Peek(s, ";") && Gettoken(s).rest == next && Parseline(next) == Ok(r, rest)
    ensures LineTail(t, s) == Ok(List(t, r), rest)
  {
    hide Peek, Skip, Gettoken, Parseline;
  }

  lemma NoList(t: Tree, s: string)
    requires Skip(s) == s && !Peek(s, "&") && !Peek(s, ";")
    ensures LineTail(t, s) == Ok(t, s)
  {
    hide Peek, Skip, Gettoken, Parseline;
  }

  // ----- parsing undoes printing: simple commands

  lemma AddKeeps(t: Tree, w: string)
    requires Simple(t)
    ensures Simple(AddArg(t, w)) && Args(AddArg(t, w)) == Args(t) + [w]
  {
  }

  lemma ArgStep(t: Tree, s: string, w: string, next: string)
    requires Simple(t) && !Peek(s, "|)&;") && Gettoken(s) == Token(Word, w, next) && |Args(t)| + 1 < MAXARGS
    ensures Parseargs(t, |Args(t)|, s) == Tail(AddArg(t, w), next)
  {
    AddKeeps(t, w);
    hide Peek, Parseredirs, Skip, AddArg, Simple, Args;
  }

  lemma RestOfArgs(args: seq<string>, rest: string)
    requires |args| > 1 && forall k :: 0 <= k < |args| ==> IsWord(args[k])
    ensures var next := Join(args[1..], rest); Skip([' '] + next) == next == Skip(next) && !Peek(next, "<>")
  {
    var next := Join(args[1..], rest);
    assert IsWord(args[1]);
    assert next[0] == args[1][0] && WordChar(next[0]);
    assert ([' '] + next)[0] == ' ' && ([' '] + next)[1..] == next;
    assert Skip([' '] + next) == Skip(next);
  }

  lemma LastArg(t: Tree, w: string, rest: string)
    requires Simple(t) && IsWord(w) && Follows(rest, AFTER) && |Args(t)| + 1 < MAXARGS
    ensures Parseargs(t, |Args(t)|, w + rest) == Tail(AddArg(t, w), rest)
  {
    FollowTokens(rest);
    hide *;
    WordToken(w, rest);
    ArgStep(t, w + rest, w, rest);
  }

  lemma NextArg(t: Tree, w: string, next: string)
    requires Simple(t) && IsWord(w) && |Args(t)| + 1 < MAXARGS
    requires Skip([' '] + next) == next == Skip(next) && !Peek(next, "<>")
    ensures Parseargs(t, |Args(t)|, w + ([' '] + next)) == Parseargs(AddArg(t, w), |Args(t)| + 1, next)
  {
    assert EndsWord([' '] + next);
    var t' := AddArg(t, w);
    AddKeeps(t, w);
    NoRedirs(t', next);
    assert Tail(t', next) == Parseargs(t', |Args(t)| + 1, next);
    hide *;
    WordToken(w, [' '] + next);
    ArgStep(t, w + ([' '] + next), w, next);
  }

  function AddArgs(t: Tree, args: seq<string>): Tree
    decreases |args|
  {
    if args == [] then t else AddArgs(AddArg(t, args[0]), args[1..])
  }

  lemma {:induction false} AddArgsIs(done: seq<string>, args: seq<string>)
    ensures AddArgs(Exec(done), args) == Exec(done + args)
    ensures forall f, write :: AddArgs(Redir(Exec(done), f, write), args) == Redir(Exec(done + args), f, write)
    decreases |args|
  {
    if args == [] {
      assert done + args == done;
    } else {
      AddArgsIs(done + [args[0]], args[1..]);
      assert (done + [args[0]]) + args[1..] == done + args;
    }
  }

  /** Parsing the arguments still to come off the printed list. */
  lemma {:induction false} ArgsText(t: Tree, args: seq<string>, rest: string)
    requires args != [] && Follows(rest, AFTER) && Simple(t) && |Args(t)| + |args| < MAXARGS
    requires forall k :: 0 <= k < |args| ==> IsWord(args[k])
    ensures Parseargs(t, |Args(t)|, Join(args, rest)) == Tail(AddArgs(t, args), rest)
    decreases |args|
  {
    hide Peek, Tail, Skip, Parseargs, IsWord, Follows, AddArg;
    var w := args[0];
    if |args| == 1 {
      assert AddArgs(AddArg(t, w), args[1..]) == AddArg(t, w);
      LastArg(t, w, rest);
    } else {
      RestOfArgs(args, rest);
      NextArg(t, w, Join(args[1..], rest));
      AddKeeps(t, w);
      ArgsText(AddArg(t, w), args[1..], rest);
    }
  }

  lemma SimpleText(args: seq<string>, rest: string)
    requires Good(Exec(args)) && Follows(rest, AFTER)
    ensures Parseexec(Join(args, rest)) == Tail(Exec(args), rest)
  {
    FollowTokens(rest);
    var s := Join(args, rest);
    if args == [] {
      assert !Peek(s, "(");
    } else {
      assert IsWord(args[0]) && s[0] == args[0][0] && WordChar(s[0]);
      assert Skip(s) == s && !Peek(s, "(") && !Peek(s, "<>");
      NoRedirs(Exec([]), s);
      ArgsText(Exec([]), args, rest);
      AddArgsIs([], args);
      assert [] + args == args;
    }
    hide Peek, Skip, Gettoken, Parseargs, Parseredirs, Join, Parseblock;
  }

  /** Nothing more belongs to a command that a looser symbol follows. */
  lemma TailEnds(t: Tree, rest: string)
    requires Follows(rest, "|&;)")
    ensures Tail(t, rest) == Ok(t, rest)
  {
    assert Follows(rest, AFTER);
    FollowTokens(rest);
    NoRedirs(t, rest);
  }

  // ----- parsing undoes printing: every tree

  lemma BlockText(t: Tree, rest: string)
    requires Good(t) && Follows(rest, AFTER) && Parseline(Print(t, 0, [')'] + rest)) == Ok(t, [')'] + rest)
    ensures Parseexec(['('] + Print(t, 0, [')'] + rest)) == Parseredirs(t, rest)
  {
    var inner := Print(t, 0, [')'] + rest);
    Starts(t, 0, [')'] + rest);
    FollowTokens(rest);
    SymToken('(', inner);
    SymToken(')', rest);
    hide Peek, Skip, Gettoken, Parseexec, Parseline, Parseredirs, Print, Good;
    BlockStep(['('] + inner, inner, t, [')'] + rest, rest);
  }

  /** Text printed where a command with its redirections is expected. */
  lemma {:induction false} ExecText(t: Tree, rest: string)
    requires Good(t) && Follows(rest, AFTER)
    ensures Parseexec(Print(t, 3, rest)) == Tail(t, rest)
    decreases t, if Level(t) == 3 then 0 else 7
  {
    hide Parseexec, Tail, Parseredirs, Peek, Skip, Gettoken, Parseline;
    match t {
      case Exec(args) =>
        SimpleText(args, rest);
      case Redir(c, f, write) =>
        var o := if write then '>' else '<';
        ExecText(c, [o] + (f + rest));
        OneRedir(c, f, o, rest);
      case _ =>
        LineText(t, [')'] + rest);
        BlockText(t, rest);
        NotSimple(t, rest);
    }
  }

  lemma OneRedir(c: Tree, f: string, o: char, rest: string)
    requires IsWord(f) && Follows(rest, AFTER) && (o == '<' || o == '>')
    ensures Tail(c, [o] + (f + rest)) == Tail(Redir(c, f, o != '<'), rest)
  {
    assert (f + rest)[0] == f[0] && WordChar(f[0]);
    FollowTokens(rest);
    SymToken(o, f + rest);
    WordToken(f, rest);
    hide Peek, Skip, Gettoken, Parseredirs, Tail;
    RedirStep(c, [o] + (f + rest), o, f + rest, f, rest);
  }

  lemma NotSimple(t: Tree, rest: string)
    requires Level(t) < 3
    ensures Tail(t, rest) == Parseredirs(t, rest)
  {
  }

  /** Text printed where a pipeline is expected. */
  lemma {:induction false} PipeText(t: Tree, rest: string)
    requires Good(t) && Follows(rest, "&;)")
    ensures Parsepipe(Print(t, 2, rest)) == Ok(t, rest)
    decreases t, if Level(t) >= 2 then Level(t) - 2 else 8
  {
    assert Follows(rest, AFTER);
    FollowTokens(rest);
    hide Parseexec, Parsepipe, Tail, Peek, Skip, Gettoken;
    if t.Pipe? {
      var next := Print(t.right, 2, rest);
      Starts(t.right, 2, rest);
      SymToken('|', next);
      ExecText(t.left, ['|'] + next);
      TailEnds(t.left, ['|'] + next);
      PipeText(t.right, rest);
      PipeStep(Print(t, 2, rest), t.left, ['|'] + next, next, t.right, rest);
    } else {
      ExecText(t, rest);
      TailEnds(t, rest);
      NoPipe(Print(t, 2, rest), t, rest);
    }
  }

  /** Text printed before & or ; or at the end of a line. */
  lemma {:induction false} BackText(t: Tree, rest: string)
    requires Good(t) && Follows(rest, "&;)")
    ensures Parseline(Print(t, 1, rest)) == LineTail(t, rest)
    decreases t, if Level(t) >= 1 then Level(t) - 1 else 9
  {
    assert Follows(rest, AFTER);
    FollowTokens(rest);
    hide Parseline, Parsepipe, LineTail, Peek, Skip, Gettoken;
    if t.Back? {
      SymToken('&', rest);
      BackText(t.cmd, ['&'] + rest);
      BackStep(t.cmd, ['&'] + rest, rest);
    } else {
      PipeText(t, rest);
      LineStep(Print(t, 1, rest), t, rest);
    }
  }

  /** Printing t and parsing it back, as a whole line or between parentheses. */
  lemma {:induction false} LineText(t: Tree, rest: string)
    requires Good(t) && Follows(rest, ")")
    ensures Parseline(Print(t, 0, rest)) == Ok(t, rest)
    decreases t, Level(t)
  {
    assert Follows(rest, AFTER);
    FollowTokens(rest);
    hide Parseline, LineTail, Peek, Skip, Gettoken;
    if t.List? {
      var next := Print(t.right, 0, rest);
      Starts(t.right, 0, rest);
      SymToken(';', next);
      BackText(t.left, [';'] + next);
      LineText(t.right, rest);
      ListStep(t.left, [';'] + next, next, t.right, rest);
    } else {
      BackText(t, rest);
      NoList(t, rest);
    }
  }

  /** parsecmd inverts the printer on every command tree with fewer than MAXARGS arguments per command. */
  lemma ParseUndoesPrint(t: Tree)
    requires Good(t)
    ensures Parsecmd(Print(t, 0, "")) == Ok(t, "")
  {
    LineText(t, "");
  }

  /** So two different trees never print alike. */
  lemma PrintIsInjective(t: Tree, u: Tree)
    requires Good(t) && Good(u) && Print(t, 0, "") == Print(u, 0, "")
    ensures t == u
  {
    ParseUndoesPrint(t);
    ParseUndoesPrint(u);
  }

  // ----- redirections the printer does not use

  /** A redirection may stand before arguments, which still reach the command inside it. */
  lemma RedirBetween(args: seq<string>, f: string, o: char, more: seq<string>, rest: string)
    requires Good(Exec(args + more)) && more != [] && IsWord(f) && (o == '<' || o == '>') && Follows(rest, "|&;)")
    ensures Parseexec(Join(args, [o] + (f + ([' '] + Join(more, rest))))) == Ok(Redir(Exec(args + more), f, o != '<'), rest)
  {
    assert forall k :: 0 <= k < |args| ==> (args + more)[k] == args[k];
    assert forall k :: 0 <= k < |more| ==> (args + more)[|args| + k] == more[k];
    assert forall k :: 0 <= k < |more| ==> IsWord(more[k]);
    var next := Join(more, rest);
    var t := Redir(Exec(args), f, o != '<');
    assert next[0] == more[0][0] && WordChar(next[0]);
    assert ([' '] + next)[1..] == next;
    assert Skip(next) == next && Skip([' '] + next) == next && !Peek(next, "<>") && EndsWord([' '] + next);
    assert (f + ([' '] + next))[0] == f[0];
    NoRedirs(t, next);
    hide Skip, Peek, Gettoken, Parseargs, Parseredirs, Parseexec, Join, IsWord, AddArgs, AddArg;
    var after := [o] + (f + ([' '] + next));
    SimpleText(args, after);
    SymToken(o, f + ([' '] + next));
    WordToken(f, [' '] + next);
    RedirStep(Exec(args), after, o, f + ([' '] + next), f, next);
    ArgsText(t, more, rest);
    AddArgsIs(args, more);
    TailEnds(Redir(Exec(args + more), f, o != '<'), rest);
  }

  /** ">>" is read as ">" is: the file is opened the same way. */
  lemma AppendIsWrite(t: Tree, s: string)
    requires s == "" || s[0] != '>'
    ensures Parseredirs(t, ">>" + s) == Parseredirs(t, ">" + s)
  {
    assert (">>" + s)[2..] == s && (">" + s)[1..] == s;
    assert Gettoken(">>" + s) == Token(Append, ">>", Skip(s));
    assert Gettoken(">" + s) == Token(Sym('>'), ">", Skip(s));
  }

  // ----- every tree the parser returns is one of these

  lemma GoodAdd(t: Tree, w: string)
    requires Good(t) && Simple(t) && IsWord(w) && |Args(t)| + 1 < MAXARGS
    ensures Good(AddArg(t, w)) && Simple(AddArg(t, w)) && Args(AddArg(t, w)) == Args(t) + [w]
  {
  }

  lemma WordIsWord(s: string)
    requires Gettoken(s).kind == Word
    ensures IsWord(Gettoken(s).text)
  {
    var u := Skip(s);
    assert WordChar(u[0]);
  }

  lemma {:induction false} GoodRedirs(t: Tree, s: string)
    requires Good(t) && Parseredirs(t, s).Ok?
    ensures var r := Parseredirs(t, s).t; Good(r) && Simple(r) == Simple(t) && Args(r) == Args(t)
    decreases |s|
  {
    if Peek(s, "<>") {
      var tok := Gettoken(s);
      var file := Gettoken(tok.rest);
      WordIsWord(tok.rest);
      GoodRedirs(Redir(t, file.text, tok.kind != Sym('<')), file.rest);
    }
  }

  lemma {:induction false} GoodArgs(t: Tree, s: string)
    requires Good(t) && Simple(t) && Parseargs(t, |Args(t)|, s).Ok?
    ensures Good(Parseargs(t, |Args(t)|, s).t)
    decreases |s|
  {
    var tok := Gettoken(s);
    if !Peek(s, "|)&;") && tok.kind != End {
      WordIsWord(s);
      GoodAdd(t, tok.text);
      GoodRedirs(AddArg(t, tok.text), tok.rest);
      var r := Parseredirs(AddArg(t, tok.text), tok.rest);
      GoodArgs(r.t, r.rest);
    }
  }

  lemma {:induction false} GoodExec(s: string)
    requires Parseexec(s).Ok?
    ensures Good(Parseexec(s).t)
    decreases |s|, 1
  {
    hide Peek, Skip;
    if Peek(s, "(") {
      var inner := Gettoken(s).rest;
      PeekToken(s, "(");
      GoodLine(inner);
      var l := Parseline(inner);
      GoodRedirs(l.t, Gettoken(l.rest).rest);
    } else {
      var r := Parseredirs(Exec([]), s);
      GoodRedirs(Exec([]), s);
      GoodArgs(r.t, r.rest);
    }
  }

  lemma PeekToken(s: string, toks: string)
    requires Peek(s, toks)
    ensures |Gettoken(s).rest| < |s|
  {
  }

  lemma {:induction false} GoodPipe(s: string)
    requires Parsepipe(s).Ok?
    ensures Good(Parsepipe(s).t)
    decreases |s|, 2
  {
    hide Peek, Skip, Gettoken, Parseexec;
    GoodExec(s);
    var l := Parseexec(s);
    if Peek(l.rest, "|") {
      PeekToken(l.rest, "|");
      GoodPipe(Gettoken(l.rest).rest);
    }
  }

  lemma {:induction false} GoodBacks(t: Tree, s: string)
    requires Good(t)
    ensures Good(Parsebacks(t, s).t)
    decreases |s|
  {
    if Peek(s, "&") {
      GoodBacks(Back(t), Gettoken(s).rest);
    }
  }

  lemma {:induction false} GoodLine(s: string)
    requires Parseline(s).Ok?
    ensures Good(Parseline(s).t)
    decreases |s|, 3
  {
    hide Peek, Skip, Gettoken, Parsepipe, Parsebacks;
    GoodPipe(s);
    var p := Parsepipe(s);
    GoodBacks(p.t, p.rest);
    var l := Parsebacks(p.t, p.rest);
    if Peek(l.rest, ";") {
      PeekToken(l.rest, ";");
      GoodLine(Gettoken(l.rest).rest);
    }
  }

  /** Whatever line is accepted, the printed form of its tree is read as the same tree. */
  lemma ParsedReprints(s: string)
    requires Parsecmd(s).Ok?
    ensures Good(Parsecmd(s).t) && Parsecmd(Print(Parsecmd(s).t, 0, "")) == Parsecmd(s)
  {
    GoodLine(s);
    ParseUndoesPrint(Parsecmd(s).t);
  }

  // ----- the bound on arguments is exact

  lemma OneTooMany(done: seq<string>, w: string, more: string)
    requires |done| + 1 == MAXARGS && IsWord(w) && EndsWord(more)
    ensures Parseargs(Exec(done), |done|, w + more) == Bad
  {
    WordToken(w, more);
    hide Peek, Skip, Gettoken, Parseredirs, AddArg, IsWord, EndsWord;
  }

  lemma {:induction false} TooManyArgs(done: seq<string>, args: seq<string>)
    requires |done| < MAXARGS <= |done| + |args| && forall k :: 0 <= k < |args| ==> IsWord(args[k])
    ensures Parseargs(Exec(done), |done|, Join(args, "")) == Bad
    decreases |args|
  {
    var w := args[0];
    if |done| + 1 < MAXARGS {
      RestOfArgs(args, "");
      assert AddArg(Exec(done), w) == Exec(done + [w]);
      hide Peek, Skip, Parseargs, IsWord, AddArg;
      NextArg(Exec(done), w, Join(args[1..], ""));
      TooManyArgs(done + [w], args[1..]);
    } else {
      hide Peek, Skip, Parseargs, IsWord, AddArg;
      OneTooMany(done, w, if |args| == 1 then "" else [' '] + Join(args[1..], ""));
      assert w + "" == w;
    }
  }

  /** A simple command parses exactly when it has fewer than MAXARGS arguments. */
  lemma ArgBound(args: seq<string>)
    requires forall k :: 0 <= k < |args| ==> IsWord(args[k])
    ensures Parsecmd(Print(Exec(args), 0, "")) == if |args| < MAXARGS then Ok(Exec(args), "") else Bad
  {
    if |args| < MAXARGS {
      ParseUndoesPrint(Exec(args));
    } else {
      var s := Join(args, "");
      assert IsWord(args[0]) && s[0] == args[0][0] && WordChar(s[0]);
      assert !Peek(s, "(") && Skip(s) == s;
      NoRedirs(Exec([]), s);
      TooManyArgs([], args);
      assert Parseexec(s) == Bad;
      assert Print(Exec(args), 0, "") == s;
      hide Peek, Skip, Parseexec, Join, Print;
      assert Parsepipe(s) == Bad;
      assert Parseline(s) == Bad;
    }
  }
}
