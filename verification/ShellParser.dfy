/** sh.c's parser as it runs: a cursor over the line buffer, tokens as pointers into it, and nulterminate, which
  * writes the terminators into the same buffer.
  */
module ShellParser {
  import S = Shell

  /** A token: the positions of its first character and of the one after its last. */
  datatype Span = Span(q: nat, eq: nat)

  datatype Node =
    | Exec(args: seq<Span>)
    | Redir(cmd: Node, file: Span, write: bool)
    | Pipe(left: Node, right: Node)
    | List(left: Node, right: Node)
    | Back(cmd: Node)

  /** Syntax stands for every panic of the parser. */
  datatype Outcome = Parsed(n: Node) | Syntax

  predicate SpanOk(c: seq<char>, sp: Span) {
    && sp.q < sp.eq < |c| && !S.WordChar(c[sp.eq])
    && forall k :: sp.q <= k < sp.eq ==> S.WordChar(c[k])
  }

  function Text(c: seq<char>, sp: Span): string
    requires SpanOk(c, sp)
  {
    c[sp.q..sp.eq]
  }

  predicate NodeOk(c: seq<char>, n: Node) {
    match n
    case Exec(args) => forall k :: 0 <= k < |args| ==> SpanOk(c, args[k])
    case Redir(m, f, _) => NodeOk(c, m) && SpanOk(c, f)
    case Pipe(l, r) => NodeOk(c, l) && NodeOk(c, r)
    case List(l, r) => NodeOk(c, l) && NodeOk(c, r)
    case Back(m) => NodeOk(c, m)
  }

  function Texts(c: seq<char>, args: seq<Span>): (r: seq<string>)
    requires forall k :: 0 <= k < |args| ==> SpanOk(c, args[k])
    ensures |r| == |args|
  {
    if args == [] then [] else Texts(c, args[..|args| - 1]) + [Text(c, args[|args| - 1])]
  }

  /** The tree with its tokens spelled out. */
  function View(c: seq<char>, n: Node): S.Tree
    requires NodeOk(c, n)
  {
    match n
    case Exec(args) => S.Exec(Texts(c, args))
    case Redir(m, f, write) => S.Redir(View(c, m), Text(c, f), write)
    case Pipe(l, r) => S.Pipe(View(c, l), View(c, r))
    case List(l, r) => S.List(View(c, l), View(c, r))
    case Back(m) => S.Back(View(c, m))
  }

  /** "cmd->argv[argc] = q; cmd->eargv[argc] = eq": the execcmd is under the redirections met so far. */
  function AddArg(n: Node, sp: Span): Node {
    match n
    case Redir(m, f, write) => Redir(AddArg(m, sp), f, write)
    case Exec(args) => Exec(args + [sp])
    case _ => n
  }

  lemma {:induction false} AddArgView(c: seq<char>, n: Node, sp: Span)
    requires NodeOk(c, n) && SpanOk(c, sp)
    ensures NodeOk(c, AddArg(n, sp)) && View(c, AddArg(n, sp)) == S.AddArg(View(c, n), Text(c, sp))
  {
    match n {
      case Redir(m, f, write) => AddArgView(c, m, sp);
      case Exec(args) => assert (args + [sp])[..|args|] == args;
      case _ =>
    }
  }

  /** The outcome is what the grammar says, and the cursor is at the unread rest. */
  predicate Agrees(c: seq<char>, r: Outcome, suffix: string, p: S.Parsed) {
    match p
    case Bad => r.Syntax?
    case Ok(t, rest) => r.Parsed? && NodeOk(c, r.n) && View(c, r.n) == t && suffix == rest
  }

  /** peek and gettoken skip blanks first, so skipping them beforehand makes no difference. */
  lemma {:induction false} SkipTwice(s: string)
    ensures S.Skip(S.Skip(s)) == S.Skip(s)
    decreases |s|
  {
    if s != "" && S.Whitespace(s[0]) {
      SkipTwice(s[1..]);
    }
  }

  lemma SkipFirst(s: string, t: S.Tree, argc: nat, toks: string)
    ensures S.Peek(S.Skip(s), toks) == S.Peek(s, toks) && S.Gettoken(S.Skip(s)) == S.Gettoken(s)
    ensures S.Parsebacks(t, S.Skip(s)) == S.Parsebacks(t, s) && S.Parseredirs(t, S.Skip(s)) == S.Parseredirs(t, s)
    ensures S.Parseargs(t, argc, S.Skip(s)) == S.Parseargs(t, argc, s)
  {
    SkipTwice(s);
  }

  lemma BlockFirst(s: string)
    requires S.Peek(s, "(")
    ensures S.Peek(S.Skip(s), "(") && S.Parseblock(S.Skip(s)) == S.Parseblock(s)
  {
    SkipFirst(s, S.Exec([]), 0, "(");
    hide S.Skip, S.Peek, S.Gettoken, S.Parseline, S.Parseredirs;
  }

  lemma WordScanned(c: seq<char>, q: nat, p: nat, es: nat)
    requires q <= p <= es < |c| && (p < es ==> !S.WordChar(c[p])) && forall k :: q <= k < p ==> S.WordChar(c[k])
    ensures S.WordLength(c[q..es]) == p - q && c[q..es][..p - q] == c[q..p] && c[q..es][p - q..] == c[p..es]
  {
    var w, rest := c[q..p], c[p..es];
    assert c[q..es] == w + rest;
    S.WordEnds(w, rest);
  }

  class Parser {
    const buf: array<char>
    const es: nat
    var ps: nat

    /** A line of es characters and its terminator. */
    ghost predicate Valid()
      reads this, buf
    {
      buf.Length == es + 1 && ps <= es && buf[es] == '\0' && forall k :: 0 <= k < es ==> buf[k] != '\0'
    }

    ghost function Suffix(): string
      reads this, buf
      requires ps <= es < buf.Length
    {
      buf[ps..es]
    }

    constructor (buf: array<char>)
      requires buf.Length > 0 && buf[buf.Length - 1] == '\0' && forall k :: 0 <= k < buf.Length - 1 ==> buf[k] != '\0'
      ensures Valid() && this.buf == buf && ps == 0 && es == buf.Length - 1
    {
      this.buf, es, ps := buf, buf.Length - 1, 0;
    }

    method SkipBlanks()
      requires Valid()
      modifies this`ps
      ensures Valid() && old(ps) <= ps && Suffix() == S.Skip(old(Suffix()))
    {
      while ps < es && S.Whitespace(buf[ps])
        invariant Valid() && old(ps) <= ps && S.Skip(Suffix()) == S.Skip(old(Suffix()))
      {
        assert Suffix()[1..] == buf[ps + 1..es];
        ps := ps + 1;
      }
    }

    method Peek(toks: string) returns (b: bool)
      requires Valid()
      modifies this`ps
      ensures Valid() && old(ps) <= ps && Suffix() == S.Skip(old(Suffix())) && b == S.Peek(old(Suffix()), toks)
      ensures b ==> ps < es
    {
      SkipBlanks();
      b := buf[ps] != '\0' && buf[ps] in toks;
    }

    /** gettoken; for a word [q, eq) is where it is. */
    method Gettoken() returns (kind: S.Kind, q: nat, eq: nat)
      requires Valid()
      modifies this`ps
      ensures Valid() && old(ps) <= ps
      ensures var t := S.Gettoken(old(Suffix())); kind == t.kind && Suffix() == t.rest
      ensures kind.Word? ==> SpanOk(buf[..], Span(q, eq)) && Text(buf[..], Span(q, eq)) == S.Gettoken(old(Suffix())).text
      ensures kind != S.End ==> old(ps) < ps
    {
      SkipBlanks();
      q := ps;
      ghost var u := Suffix();
      if buf[ps] == '\0' {
        kind := S.End;
      } else if buf[ps] == '>' {
        kind := Greater();
      } else if S.Symbol(buf[ps]) {
        kind := S.Sym(buf[ps]);
        ps := ps + 1;
        assert Suffix() == u[1..];
      } else {
        kind := S.Word;
        ScanWord();
      }
      eq := ps;
      SkipBlanks();
    }

    /** '>' or '>>'. */
    method Greater() returns (kind: S.Kind)
      requires Valid() && ps < es && buf[ps] == '>'
      modifies this`ps
      ensures Valid() && old(ps) < ps
      ensures var u := old(Suffix()); if |u| > 1 && u[1] == '>' then kind == S.Append && Suffix() == u[2..]
              else kind == S.Sym('>') && Suffix() == u[1..]
    {
      ghost var u := Suffix();
      ps := ps + 1;
      assert Suffix() == u[1..];
      if buf[ps] == '>' {
        kind := S.Append;
        ps := ps + 1;
        assert Suffix() == u[2..];
      } else {
        kind := S.Sym('>');
      }
    }

    method ScanWord()
      requires Valid() && ps < es
      modifies this`ps
      ensures Valid() && ps == old(ps) + S.WordLength(old(Suffix()))
      ensures var n := S.WordLength(old(Suffix())); buf[old(ps)..ps] == old(Suffix())[..n] && Suffix() == old(Suffix())[n..]
      ensures (forall k :: old(ps) <= k < ps ==> S.WordChar(buf[k])) && !S.WordChar(buf[ps])
    {
      while ps < es && !S.Whitespace(buf[ps]) && !S.Symbol(buf[ps])
        invariant Valid() && old(ps) <= ps
        invariant forall k :: old(ps) <= k < ps ==> S.WordChar(buf[k])
      {
        ps := ps + 1;
      }
      WordScanned(buf[..], old(ps), ps, es);
    }

    method Parseredirs(cmd: Node) returns (r: Outcome)
      requires Valid() && NodeOk(buf[..], cmd)
      modifies this`ps
      ensures Valid() && old(ps) <= ps
      ensures Agrees(buf[..], r, Suffix(), S.Parseredirs(View(buf[..], cmd), old(Suffix())))
    {
      ghost var c := buf[..];
      ghost var want := S.Parseredirs(View(c, cmd), Suffix());
      var n := cmd;
      while true
        invariant Valid() && old(ps) <= ps && NodeOk(c, n) && S.Parseredirs(View(c, n), Suffix()) == want
        decreases es - ps
      {
        ghost var s := Suffix();
        SkipFirst(s, View(c, n), 0, "<>");
        var more := Peek("<>");
        if !more {
          return Parsed(n);
        }
        var tok, _, _ := Gettoken();
        var kind, q, eq := Gettoken();
        if !kind.Word? {
          return Syntax;
        }
        n := Redir(n, Span(q, eq), tok != S.Sym('<'));
      }
    }

    method Parseblock() returns (r: Outcome)
      requires Valid() && S.Peek(Suffix(), "(")
      modifies this`ps
      ensures Valid() && old(ps) <= ps && Agrees(buf[..], r, Suffix(), S.Parseblock(old(Suffix())))
      decreases es - ps, 0
    {
      ghost var s := Suffix();
      var _, _, _ := Gettoken();
      r := Parseline();
      if r.Syntax? {
        return;
      }
      ghost var mid := Suffix();
      SkipFirst(mid, View(buf[..], r.n), 0, ")");
      var b := Peek(")");
      if !b {
        return Syntax;
      }
      var _, _, _ := Gettoken();
      r := Parseredirs(r.n);
    }

    /** parseexec's loop. */
    method Parseargs(cmd: Node) returns (r: Outcome)
      requires Valid() && NodeOk(buf[..], cmd)
      modifies this`ps
      ensures Valid() && old(ps) <= ps
      ensures Agrees(buf[..], r, Suffix(), S.Parseargs(View(buf[..], cmd), 0, old(Suffix())))
    {
      ghost var c, s0 := buf[..], Suffix();
      var n, argc := cmd, 0;
      while true
        invariant Valid() && old(ps) <= ps && NodeOk(c, n) && 0 <= argc < S.MAXARGS
        invariant S.Parseargs(View(c, n), argc, Suffix()) == S.Parseargs(View(c, cmd), 0, s0)
        decreases es - ps
      {
        var more;
        more, r := NextArg(n, argc);
        if !more {
          return;
        }
        n, argc := r.n, argc + 1;
      }
    }

    /** One pass of it: !more when the loop ends with outcome r. */
    method NextArg(cmd: Node, argc: nat) returns (more: bool, r: Outcome)
      requires Valid() && NodeOk(buf[..], cmd) && argc < S.MAXARGS
      modifies this`ps
      ensures Valid() && old(ps) <= ps
      ensures !more ==> Agrees(buf[..], r, Suffix(), S.Parseargs(View(buf[..], cmd), argc, old(Suffix())))
      ensures more ==> r.Parsed? && NodeOk(buf[..], r.n) && argc + 1 < S.MAXARGS && old(ps) < ps
      ensures more ==> S.Parseargs(View(buf[..], r.n), argc + 1, Suffix()) == S.Parseargs(View(buf[..], cmd), argc, old(Suffix()))
    {
      ghost var c, s, t := buf[..], Suffix(), View(buf[..], cmd);
      SkipFirst(s, t, argc, "|)&;");
      hide S.Peek, S.Gettoken, S.Skip, S.Parseredirs, S.AddArg, SpanOk, Text;
      var stop := Peek("|)&;");
      if stop {
        return false, Parsed(cmd);
      }
      var tok, q, eq := Gettoken();
      if tok.End? {
        return false, Parsed(cmd);
      }
      if !tok.Word? {
        return false, Syntax;
      }
      AddArgView(c, cmd, Span(q, eq));
      var n := AddArg(cmd, Span(q, eq));
      if argc + 1 >= S.MAXARGS {
        return false, Syntax;
      }
      r := Parseredirs(n);
      more := r.Parsed?;
    }

    method Parseexec() returns (r: Outcome)
      requires Valid()
      modifies this`ps
      ensures Valid() && old(ps) <= ps && Agrees(buf[..], r, Suffix(), S.Parseexec(old(Suffix())))
      decreases es - ps, 1
    {
      ghost var s := Suffix();
      SkipFirst(s, S.Exec([]), 0, "(");
      var block := Peek("(");
      if block {
        BlockFirst(s);
        r := Parseblock();
        return;
      }
      r := Parseredirs(Exec([]));
      if r.Parsed? {
        r := Parseargs(r.n);
      }
    }

    method Parsepipe() returns (r: Outcome)
      requires Valid()
      modifies this`ps
      ensures Valid() && old(ps) <= ps && Agrees(buf[..], r, Suffix(), S.Parsepipe(old(Suffix())))
      decreases es - ps, 2
    {
      hide S.Parseline, S.Parseexec, S.Skip, S.Peek, S.Gettoken;
      r := Parseexec();
      if r.Syntax? {
        return;
      }
      ghost var mid := Suffix();
      SkipFirst(mid, View(buf[..], r.n), 0, "|");
      var more := Peek("|");
      if more {
        S.PeekToken(Suffix(), "|");
        var _, _, _ := Gettoken();
        var right := Parsepipe();
        r := if right.Syntax? then Syntax else Parsed(Pipe(r.n, right.n));
      }
    }

    /** parseline's loop over &. */
    method Parsebacks(cmd: Node) returns (n: Node)
      requires Valid() && NodeOk(buf[..], cmd)
      modifies this`ps
      ensures Valid() && old(ps) <= ps
      ensures Agrees(buf[..], Parsed(n), Suffix(), S.Parsebacks(View(buf[..], cmd), old(Suffix())))
    {
      ghost var c := buf[..];
      ghost var want := S.Parsebacks(View(c, cmd), Suffix());
      n := cmd;
      while true
        invariant Valid() && old(ps) <= ps && NodeOk(c, n) && S.Parsebacks(View(c, n), Suffix()) == want
        decreases es - ps
      {
        SkipFirst(Suffix(), View(c, n), 0, "&");
        var more := Peek("&");
        if !more {
          return;
        }
        var _, _, _ := Gettoken();
        n := Back(n);
      }
    }

    method Parseline() returns (r: Outcome)
      requires Valid()
      modifies this`ps
      ensures Valid() && old(ps) <= ps && Agrees(buf[..], r, Suffix(), S.Parseline(old(Suffix())))
      decreases es - ps, 3
    {
      hide S.Parsepipe, S.Parseexec, S.Parsebacks, S.Skip, S.Peek, S.Gettoken;
      r := Parsepipe();
      if r.Syntax? {
        return;
      }
      var cmd := Parsebacks(r.n);
      ghost var mid := Suffix();
      SkipFirst(mid, View(buf[..], cmd), 0, ";");
      var more := Peek(";");
      if more {
        S.PeekToken(Suffix(), ";");
        var _, _, _ := Gettoken();
        var right := Parseline();
        r := if right.Syntax? then Syntax else Parsed(List(cmd, right.n));
      } else {
        r := Parsed(cmd);
      }
    }

    /** nulterminate.  c0 is the line as it was parsed; so far only characters outside every token have been
      * overwritten.  Afterwards every token of n is followed by a NUL, and still no token has been touched.
      */
    method Nulterminate(n: Node, ghost c0: seq<char>)
      requires buf.Length == |c0| && NodeOk(c0, n) && OnlyGaps(c0, buf[..])
      modifies buf
      ensures OnlyGaps(c0, buf[..]) && Ended(buf[..], n) && MoreNuls(old(buf[..]), buf[..])
      decreases n
    {
      match n {
        case Exec(args) =>
          var i := 0;
          while i < |args|
            invariant 0 <= i <= |args| && OnlyGaps(c0, buf[..]) && MoreNuls(old(buf[..]), buf[..])
            invariant forall k :: 0 <= k < i ==> EndedAt(buf[..], args[k])
          {
            assert SpanOk(c0, args[i]);
            ghost var c := buf[..];
            buf[args[i].eq] := '\0';
            MoreKeeps(c, buf[..], args[..i]);
            i := i + 1;
          }
        case Redir(m, f, _) =>
          Nulterminate(m, c0);
          ghost var c := buf[..];
          buf[f.eq] := '\0';
          MoreKeepsNode(c, buf[..], m);
        case Pipe(l, r) =>
          Nulterminate(l, c0);
          ghost var c := buf[..];
          Nulterminate(r, c0);
          MoreKeepsNode(c, buf[..], l);
        case List(l, r) =>
          Nulterminate(l, c0);
          ghost var c := buf[..];
          Nulterminate(r, c0);
          MoreKeepsNode(c, buf[..], l);
        case Back(m) =>
          Nulterminate(m, c0);
      }
    }

    /** parsecmd.  On every line it terminates; it refuses exactly the lines the grammar refuses; otherwise every
      * argv and file pointer of the result reads, as a C string, as exactly its token.
      */
    method Parsecmd() returns (r: Outcome)
      requires Valid() && ps == 0
      modifies this`ps, buf
      ensures var p := S.Parsecmd(old(buf[..es]));
        if p.Bad? then r.Syntax? else r.Parsed? && ReadsAs(buf[..], r.n, p.t)
    {
      ghost var c0 := buf[..];
      assert Suffix() == buf[..es];
      r := ParseWhole();
      if r.Parsed? {
        NothingOverwritten(c0);
        hide S.Parsecmd, S.Parseline, NodeOk, OnlyGaps, Ended, View, ReadsAs, MoreNuls;
        Nulterminate(r.n, c0);
        TerminatedReads(c0, buf[..], r.n);
      }
    }

    /** parsecmd up to nulterminate; leftovers are an error. */
    method ParseWhole() returns (r: Outcome)
      requires Valid()
      modifies this`ps
      ensures var p := S.Parsecmd(old(Suffix()));
        if p.Bad? then r.Syntax? else r.Parsed? && NodeOk(buf[..], r.n) && View(buf[..], r.n) == p.t
    {
      ghost var s := Suffix();
      hide S.Parseline, S.Skip, NodeOk, View;
      r := Parseline();
      if r.Parsed? {
        ghost var rest := Suffix();
        SkipTwice(rest);
        var _ := Peek("");
        if ps != es {
          assert |Suffix()| == es - ps;
          r := Syntax;
        }
      }
    }
  }

  lemma NothingOverwritten(c: seq<char>)
    ensures OnlyGaps(c, c)
  {
  }

  // ----- the terminators

  /** Only characters that belong to no token have been overwritten, and only by NUL. */
  predicate OnlyGaps(c0: seq<char>, c: seq<char>) {
    |c| == |c0| && forall k :: 0 <= k < |c| ==> c[k] == c0[k] || (c[k] == '\0' && !S.WordChar(c0[k]))
  }

  predicate MoreNuls(c: seq<char>, c': seq<char>) {
    |c'| == |c| && forall k :: 0 <= k < |c| ==> c'[k] == c[k] || c'[k] == '\0'
  }

  predicate EndedAt(c: seq<char>, sp: Span) {
    sp.eq < |c| && c[sp.eq] == '\0'
  }

  /** Every token of n is followed by a NUL. */
  predicate Ended(c: seq<char>, n: Node) {
    match n
    case Exec(args) => forall k :: 0 <= k < |args| ==> EndedAt(c, args[k])
    case Redir(m, f, _) => Ended(c, m) && EndedAt(c, f)
    case Pipe(l, r) => Ended(c, l) && Ended(c, r)
    case List(l, r) => Ended(c, l) && Ended(c, r)
    case Back(m) => Ended(c, m)
  }

  lemma MoreKeeps(c: seq<char>, c': seq<char>, args: seq<Span>)
    requires MoreNuls(c, c') && forall k :: 0 <= k < |args| ==> EndedAt(c, args[k])
    ensures forall k :: 0 <= k < |args| ==> EndedAt(c', args[k])
  {
  }

  lemma {:induction false} MoreKeepsNode(c: seq<char>, c': seq<char>, n: Node)
    requires MoreNuls(c, c') && Ended(c, n)
    ensures Ended(c', n)
  {
    match n {
      case Exec(args) => MoreKeeps(c, c', args);
      case Redir(m, f, _) => MoreKeepsNode(c, c', m);
      case Pipe(l, r) =>
        MoreKeepsNode(c, c', l);
        MoreKeepsNode(c, c', r);
      case List(l, r) =>
        MoreKeepsNode(c, c', l);
        MoreKeepsNode(c, c', r);
      case Back(m) => MoreKeepsNode(c, c', m);
    }
  }

  /** The C string at position q: up to the next NUL. */
  function CString(c: seq<char>, q: nat): string
    requires q <= |c|
    decreases |c| - q
  {
    if q == |c| || c[q] == '\0' then "" else [c[q]] + CString(c, q + 1)
  }

  function CStrings(c: seq<char>, args: seq<Span>): (r: seq<string>)
    requires forall k :: 0 <= k < |args| ==> args[k].q <= |c|
    ensures |r| == |args| && forall k :: 0 <= k < |args| ==> r[k] == CString(c, args[k].q)
  {
    if args == [] then [] else CStrings(c, args[..|args| - 1]) + [CString(c, args[|args| - 1].q)]
  }

  /** Following n's pointers into the buffer gives the tree t. */
  predicate ReadsAs(c: seq<char>, n: Node, t: S.Tree) {
    match n
    case Exec(args) => t.Exec? && (forall k :: 0 <= k < |args| ==> args[k].q <= |c|) && t.args == CStrings(c, args)
    case Redir(m, f, write) => t.Redir? && ReadsAs(c, m, t.cmd) && f.q <= |c| && t.file == CString(c, f.q) && t.write == write
    case Pipe(l, r) => t.Pipe? && ReadsAs(c, l, t.left) && ReadsAs(c, r, t.right)
    case List(l, r) => t.List? && ReadsAs(c, l, t.left) && ReadsAs(c, r, t.right)
    case Back(m) => t.Back? && ReadsAs(c, m, t.cmd)
  }

  /** A terminated, untouched token reads as itself. */
  lemma {:induction false} TokenReads(c0: seq<char>, c: seq<char>, q: nat, eq: nat)
    requires OnlyGaps(c0, c) && q <= eq < |c| && c[eq] == '\0' && forall k :: q <= k < eq ==> S.WordChar(c0[k])
    ensures CString(c, q) == c0[q..eq]
    decreases eq - q
  {
    if q < eq {
      TokenReads(c0, c, q + 1, eq);
      assert c0[q..eq] == [c0[q]] + c0[q + 1..eq];
    }
  }

  lemma {:induction false} ArgsRead(c0: seq<char>, c: seq<char>, args: seq<Span>)
    requires OnlyGaps(c0, c) && forall k :: 0 <= k < |args| ==> SpanOk(c0, args[k]) && EndedAt(c, args[k])
    ensures (forall k :: 0 <= k < |args| ==> args[k].q <= |c|) && CStrings(c, args) == Texts(c0, args)
    decreases |args|
  {
    if args != [] {
      ArgsRead(c0, c, args[..|args| - 1]);
      var sp := args[|args| - 1];
      TokenReads(c0, c, sp.q, sp.eq);
    }
  }

  lemma {:induction false} TerminatedReads(c0: seq<char>, c: seq<char>, n: Node)
    requires OnlyGaps(c0, c) && NodeOk(c0, n) && Ended(c, n)
    ensures ReadsAs(c, n, View(c0, n))
  {
    match n {
      case Exec(args) => ArgsRead(c0, c, args);
      case Redir(m, f, _) =>
        TerminatedReads(c0, c, m);
        TokenReads(c0, c, f.q, f.eq);
      case Pipe(l, r) =>
        TerminatedReads(c0, c, l);
        TerminatedReads(c0, c, r);
      case List(l, r) =>
        TerminatedReads(c0, c, l);
        TerminatedReads(c0, c, r);
      case Back(m) => TerminatedReads(c0, c, m);
    }
  }

  /** The whole of parsecmd on a printed command: the result reads as the command that was printed. */
  method ParsePrinted(t: S.Tree, buf: array<char>) returns (r: Outcome)
    requires S.Good(t) && buf.Length == |S.Print(t, 0, "")| + 1 && buf[..] == S.Print(t, 0, "") + ['\0']
    modifies buf
    ensures r.Parsed? && ReadsAs(buf[..], r.n, t)
  {
    S.ParseUndoesPrint(t);
    NoNuls(t, 0, "");
    assert buf[..buf.Length - 1] == S.Print(t, 0, "");
    var p := new Parser(buf);
    r := p.Parsecmd();
  }

  predicate NoNul(s: string) {
    forall k :: 0 <= k < |s| ==> s[k] != '\0'
  }

  lemma NoNulCat(s: string, t: string)
    requires NoNul(s) && NoNul(t)
    ensures NoNul(s + t)
  {
  }

  lemma {:induction false} NoNuls(t: S.Tree, level: nat, rest: string)
    requires S.Good(t) && NoNul(rest)
    ensures NoNul(S.Print(t, level, rest))
    decreases t, level
  {
    if S.Level(t) < level {
      NoNulCat([')'], rest);
      NoNuls(t, 0, [')'] + rest);
      NoNulCat(['('], S.Print(t, 0, [')'] + rest));
    } else {
      match t {
        case Exec(args) => NoNulsArgs(args, rest);
        case Redir(c, f, write) => NoNuls(c, 3, [if write then '>' else '<'] + (f + rest));
        case Pipe(l, r) =>
          NoNuls(r, 2, rest);
          NoNulCat(['|'], S.Print(r, 2, rest));
          NoNuls(l, 3, ['|'] + S.Print(r, 2, rest));
        case List(l, r) =>
          NoNuls(r, 0, rest);
          NoNulCat([';'], S.Print(r, 0, rest));
          NoNuls(l, 1, [';'] + S.Print(r, 0, rest));
        case Back(c) => NoNuls(c, 1, ['&'] + rest);
      }
    }
  }

  lemma {:induction false} NoNulsArgs(args: seq<string>, rest: string)
    requires (forall k :: 0 <= k < |args| ==> S.IsWord(args[k])) && NoNul(rest)
    ensures NoNul(S.Join(args, rest))
    decreases |args|
  {
    if |args| > 1 {
      NoNulsArgs(args[1..], rest);
      assert S.IsWord(args[0]);
    } else if |args| == 1 {
      assert S.IsWord(args[0]);
    }
  }
}
