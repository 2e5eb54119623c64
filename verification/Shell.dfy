/**
 The shell's parser, sh.c: a recursive-descent parser over one line of text, and the pass that ends the words of the
 command by writing NULs into that same text.
 */
module Shell {

  const MAXARGS := 10

  /**
   A parsed command over words of type W. `output` tells O_WRONLY|O_CREATE on descriptor 1 from O_RDONLY on 0; the
   source gives `>` and `>>` the same mode.
   */
  datatype Cmd<W> =
    | Exec(args: seq<W>)
    | Redir(cmd: Cmd<W>, file: W, output: bool)
    | Pipe(left: Cmd<W>, right: Cmd<W>)
    | List(left: Cmd<W>, right: Cmd<W>)
    | Back(cmd: Cmd<W>)

  // Tokens.

  /** A symbol, with '+' for `>>`, or a word. */
  datatype Token = Sym(c: char) | Word(text: string)

  predicate IsSpace(c: char) {
    c in " \t\r\n\U{000B}"
  }

  predicate IsSymbol(c: char) {
    c in "<|>&;()"
  }

  predicate IsWordChar(c: char) {
    !IsSpace(c) && !IsSymbol(c) && c != '\0'
  }

  function WordLength(s: string): (n: nat)
    ensures n <= |s| && (forall j | 0 <= j < n :: IsWordChar(s[j])) && (n == |s| || !IsWordChar(s[n]))
  {
    if s == [] || !IsWordChar(s[0]) then 0 else 1 + WordLength(s[1..])
  }

  predicate IsLine(s: string) {
    '\0' !in s
  }

  /** The tokens of a text. */
  function Lex(s: string): seq<Token>
    requires IsLine(s)
  {
    if s == [] then []
    else if IsSpace(s[0]) then Lex(s[1..])
    else if s[0] == '>' && |s| > 1 && s[1] == '>' then [Sym('+')] + Lex(s[2..])
    else if IsSymbol(s[0]) then [Sym(s[0])] + Lex(s[1..])
    else
      var n := WordLength(s);
      [Word(s[..n])] + Lex(s[n..])
  }

  // The grammar, on tokens.

  datatype Result<T> = Ok(value: T, rest: seq<Token>) | Err

  predicate Starts(ts: seq<Token>, symbols: string) {
    ts != [] && ts[0].Sym? && ts[0].c in symbols
  }

  /** Redirections, each with its file and whether it is for output. */
  function Redirs(ts: seq<Token>, rs: seq<(string, bool)>): (r: Result<seq<(string, bool)>>)
    ensures r.Ok? ==> |r.rest| <= |ts| && !Starts(r.rest, "<>+")
  {
    if !Starts(ts, "<>+") then Ok(rs, ts)
    else if |ts| < 2 || !ts[1].Word? then Err
    else Redirs(ts[2..], rs + [(ts[1].text, ts[0].c != '<')])
  }

  function Wrap<W>(c: Cmd<W>, rs: seq<(W, bool)>): Cmd<W> {
    if rs == [] then c else Redir(Wrap(c, rs[..|rs| - 1]), rs[|rs| - 1].0, rs[|rs| - 1].1)
  }

  /** The words of a simple command and the redirections between them, up to a token that ends it. */
  function Args(ts: seq<Token>, args: seq<string>, rs: seq<(string, bool)>): (r: Result<Cmd<string>>)
    ensures r.Ok? ==> |r.rest| <= |ts|
    decreases |ts|
  {
    if ts == [] || Starts(ts, "|)&;") then Ok(Wrap(Exec(args), rs), ts)
    else if !ts[0].Word? || |args| + 1 >= MAXARGS then Err
    else
      match Redirs(ts[1..], rs)
      case Err => Err
      case Ok(more, rest) => Args(rest, args + [ts[0].text], more)
  }

  function ParseExec(ts: seq<Token>): (r: Result<Cmd<string>>)
    ensures r.Ok? ==> |r.rest| <= |ts|
    decreases |ts|, 0
  {
    if Starts(ts, "(") then
      match ParseLine(ts[1..])
      case Err => Err
      case Ok(c, rest) =>
        if !Starts(rest, ")") then Err
        else
          match Redirs(rest[1..], [])
          case Err => Err
          case Ok(rs, rest1) => Ok(Wrap(c, rs), rest1)
    else
      match Redirs(ts, [])
      case Err => Err
      case Ok(rs, rest) => Args(rest, [], rs)
  }

  function ParsePipe(ts: seq<Token>): (r: Result<Cmd<string>>)
    ensures r.Ok? ==> |r.rest| <= |ts|
    decreases |ts|, 1
  {
    match ParseExec(ts)
    case Err => Err
    case Ok(c, rest) =>
      if !Starts(rest, "|") then Ok(c, rest)
      else
        match ParsePipe(rest[1..])
        case Err => Err
        case Ok(d, rest1) => Ok(Pipe(c, d), rest1)
  }

  function Backs(c: Cmd<string>, ts: seq<Token>): (r: (Cmd<string>, seq<Token>))
    ensures |r.1| <= |ts|
    decreases |ts|
  {
    if Starts(ts, "&") then Backs(Back(c), ts[1..]) else (c, ts)
  }

  function ParseBack(ts: seq<Token>): (r: Result<Cmd<string>>)
    ensures r.Ok? ==> |r.rest| <= |ts|
    decreases |ts|, 2
  {
    match ParsePipe(ts)
    case Err => Err
    case Ok(c, rest) => Ok(Backs(c, rest).0, Backs(c, rest).1)
  }

  function ParseLine(ts: seq<Token>): (r: Result<Cmd<string>>)
    ensures r.Ok? ==> |r.rest| <= |ts|
    decreases |ts|, 3
  {
    match ParseBack(ts)
    case Err => Err
    case Ok(c, rest) =>
      if !Starts(rest, ";") then Ok(c, rest)
      else
        match ParseLine(rest[1..])
        case Err => Err
        case Ok(d, rest1) => Ok(List(c, d), rest1)
  }

  function ParseCmd(s: string): Result<Cmd<string>>
    requires IsLine(s)
  {
    match ParseLine(Lex(s))
    case Err => Err
    case Ok(c, rest) => if rest == [] then Ok(c, []) else Err
  }

  // The parser on the text. A word is the stretch of the text that gettoken marked.

  type Span = (nat, nat)

  /** The word is whole: what follows it is not part of a word. */
  predicate IsSpan(line: string, w: Span) {
    && w.0 < w.1 <= |line| && (forall j | w.0 <= j < w.1 :: IsWordChar(line[j]))
    && (w.1 == |line| || !IsWordChar(line[w.1]))
  }

  /** The character at a position, NUL at the end. */
  function At(line: string, p: nat): char {
    if p < |line| then line[p] else '\0'
  }

  ghost function TokensFrom(line: string, p: nat): seq<Token>
    requires IsLine(line) && p <= |line|
  {
    Lex(line[p..])
  }

  lemma FromSpace(line: string, p: nat)
    requires IsLine(line) && p < |line| && IsSpace(line[p])
    ensures TokensFrom(line, p) == TokensFrom(line, p + 1)
  {
    assert line[p..][1..] == line[p + 1..];
  }

  lemma FromSymbol(line: string, p: nat)
    requires IsLine(line) && p < |line| && IsSymbol(line[p]) && !(line[p] == '>' && At(line, p + 1) == '>')
    ensures TokensFrom(line, p) == [Sym(line[p])] + TokensFrom(line, p + 1)
  {
    assert line[p..][1..] == line[p + 1..];
    assert |line[p..]| > 1 ==> line[p..][1] == line[p + 1];
  }

  lemma FromAppend(line: string, p: nat)
    requires IsLine(line) && p + 1 < |line| && line[p] == '>' && line[p + 1] == '>'
    ensures TokensFrom(line, p) == [Sym('+')] + TokensFrom(line, p + 2)
  {
    assert line[p..][2..] == line[p + 2..] && line[p..][1] == line[p + 1];
  }

  lemma {:induction false} WordEnds(s: string, n: nat)
    requires n < |s| && (forall j | 0 <= j < n :: IsWordChar(s[j])) && !IsWordChar(s[n])
    ensures WordLength(s) == n
  {
    if n > 0 {
      WordEnds(s[1..], n - 1);
    }
  }

  lemma FromWord(line: string, w: Span)
    requires IsLine(line) && IsSpan(line, w)
    ensures TokensFrom(line, w.0) == [Word(line[w.0..w.1])] + TokensFrom(line, w.1)
  {
    var t, n := line[w.0..], w.1 - w.0;
    assert t[n..] == line[w.1..] && t[..n] == line[w.0..w.1];
    if w.1 < |line| {
      WordEnds(t, n);
    } else {
      WordAll(t);
    }
  }

  lemma {:induction false} WordAll(s: string)
    requires forall j | 0 <= j < |s| :: IsWordChar(s[j])
    ensures WordLength(s) == |s|
  {
    if s != [] {
      WordAll(s[1..]);
    }
  }

  method SkipSpace(line: string, p: nat) returns (q: nat)
    requires IsLine(line) && p <= |line|
    ensures p <= q <= |line| && (q == |line| || !IsSpace(line[q])) && TokensFrom(line, q) == TokensFrom(line, p)
  {
    q := p;
    while q < |line| && IsSpace(line[q])
      invariant p <= q <= |line| && TokensFrom(line, q) == TokensFrom(line, p)
    {
      FromSpace(line, q);
      q := q + 1;
    }
  }

  /** What gettoken returns for the token it finds: the symbol, 'a' for a word, NUL at the end. */
  ghost predicate IsKind(tok: char, ts: seq<Token>) {
    if ts == [] then tok == '\0' else if ts[0].Sym? then tok == ts[0].c && tok != 'a' && tok != '\0' else tok == 'a'
  }

  method ScanWord(line: string, q: nat) returns (eq: nat)
    requires IsLine(line) && q < |line| && IsWordChar(line[q])
    ensures IsSpan(line, (q, eq)) && TokensFrom(line, q) == [Word(line[q..eq])] + TokensFrom(line, eq)
  {
    eq := q;
    while eq < |line| && !IsSpace(line[eq]) && !IsSymbol(line[eq])
      invariant q <= eq <= |line| && forall j | q <= j < eq :: IsWordChar(line[j])
    {
      eq := eq + 1;
    }
    FromWord(line, (q, eq));
  }

  /** The token at q, where no space is, and where it ends. */
  method TokenAt(line: string, q: nat) returns (tok: char, eq: nat, ghost t: Token)
    requires IsLine(line) && q < |line| && !IsSpace(line[q])
    ensures q < eq <= |line| && TokensFrom(line, q) == [t] + TokensFrom(line, eq)
    ensures if t.Sym? then tok == t.c && tok != 'a' && tok != '\0' else tok == 'a'
    ensures t.Word? ==> IsSpan(line, (q, eq)) && t.text == line[q..eq]
  {
    eq := q + 1;
    tok := line[q];
    if tok == '>' && At(line, q + 1) == '>' {
      FromAppend(line, q);
      tok, eq, t := '+', q + 2, Sym('+');
    } else if IsSymbol(tok) {
      FromSymbol(line, q);
      t := Sym(tok);
    } else {
      eq := ScanWord(line, q);
      tok, t := 'a', Word(line[q..eq]);
    }
  }

  /** `gettoken`: the next token and where it lies. */
  method Gettoken(line: string, p: nat) returns (tok: char, word: Span, next: nat)
    requires IsLine(line) && p <= |line|
    ensures IsKind(tok, TokensFrom(line, p)) && p <= next <= |line|
    ensures TokensFrom(line, p) != [] ==> p < next && TokensFrom(line, next) == TokensFrom(line, p)[1..]
    ensures tok == 'a' ==> IsSpan(line, word) && TokensFrom(line, p)[0] == Word(line[word.0..word.1])
  {
    var q := SkipSpace(line, p);
    if q == |line| {
      return '\0', (q, q), q;
    }
    var eq;
    ghost var t;
    tok, eq, t := TokenAt(line, q);
    next := SkipSpace(line, eq);
    word := (q, eq);
  }

  /** The symbols of toks, with `>>` among them if `>` is: what peek answers. */
  ghost predicate Peeks(ts: seq<Token>, toks: string) {
    Starts(ts, toks) || (Starts(ts, "+") && '>' in toks)
  }

  /** `peek`, for a list of symbols. */
  method Peek(line: string, p: nat, toks: string) returns (found: bool, q: nat)
    requires IsLine(line) && p <= |line| && forall c | c in toks :: IsSymbol(c)
    ensures p <= q <= |line| && TokensFrom(line, q) == TokensFrom(line, p)
    ensures found <==> Peeks(TokensFrom(line, p), toks)
    ensures q == |line| <==> TokensFrom(line, p) == []
  {
    q := SkipSpace(line, p);
    if q < |line| {
      if line[q] == '>' && At(line, q + 1) == '>' {
        FromAppend(line, q);
      } else if IsSymbol(line[q]) {
        FromSymbol(line, q);
      } else {
        assert line[q..][0] == line[q];
      }
    }
    found := q < |line| && line[q] in toks;
  }

  predicate ArgSpans(line: string, args: seq<Span>) {
    forall j | 0 <= j < |args| :: IsSpan(line, args[j])
  }

  predicate Spans(line: string, c: Cmd<Span>) {
    match c
    case Exec(args) => ArgSpans(line, args)
    case Redir(d, file, _) => Spans(line, d) && IsSpan(line, file)
    case Pipe(l, r) => Spans(line, l) && Spans(line, r)
    case List(l, r) => Spans(line, l) && Spans(line, r)
    case Back(d) => Spans(line, d)
  }

  ghost function ArgText(line: string, args: seq<Span>): (ws: seq<string>)
    requires ArgSpans(line, args)
    ensures |ws| == |args| && forall j | 0 <= j < |args| :: ws[j] == line[args[j].0..args[j].1]
  {
    seq(|args|, j requires 0 <= j < |args| => line[args[j].0..args[j].1])
  }

  /** The command with the words that its spans mark. */
  ghost function Text(line: string, c: Cmd<Span>): Cmd<string>
    requires Spans(line, c)
  {
    match c
    case Exec(args) => Exec(ArgText(line, args))
    case Redir(d, file, output) => Redir(Text(line, d), line[file.0..file.1], output)
    case Pipe(l, r) => Pipe(Text(line, l), Text(line, r))
    case List(l, r) => List(Text(line, l), Text(line, r))
    case Back(d) => Back(Text(line, d))
  }

  ghost predicate RedirSpans(line: string, rs: seq<(Span, bool)>) {
    forall j | 0 <= j < |rs| :: IsSpan(line, rs[j].0)
  }

  ghost function RedirText(line: string, rs: seq<(Span, bool)>): (ts: seq<(string, bool)>)
    requires RedirSpans(line, rs)
    ensures |ts| == |rs| && forall j | 0 <= j < |rs| :: ts[j] == (line[rs[j].0.0..rs[j].0.1], rs[j].1)
  {
    seq(|rs|, j requires 0 <= j < |rs| => (line[rs[j].0.0..rs[j].0.1], rs[j].1))
  }

  lemma {:induction false} WrapText(line: string, c: Cmd<Span>, rs: seq<(Span, bool)>)
    requires Spans(line, c) && RedirSpans(line, rs)
    ensures Spans(line, Wrap(c, rs)) && Text(line, Wrap(c, rs)) == Wrap(Text(line, c), RedirText(line, rs))
    decreases |rs|
  {
    if rs != [] {
      var n := |rs| - 1;
      WrapText(line, c, rs[..n]);
      assert RedirText(line, rs)[..n] == RedirText(line, rs[..n]);
    } else {
      assert RedirText(line, rs) == [];
    }
  }

  datatype Parsed<T> = Tree(value: T, p: nat) | Syntax

  /** `parseredirs`, which collects the redirections that it wraps around the command. */
  method Parseredirs(line: string, p: nat, rs: seq<(Span, bool)>) returns (r: Parsed<seq<(Span, bool)>>)
    requires IsLine(line) && p <= |line| && RedirSpans(line, rs)
    ensures var spec := Redirs(TokensFrom(line, p), RedirText(line, rs));
            if r.Syntax? then spec.Err?
            else && p <= r.p <= |line| && RedirSpans(line, r.value)
                 && spec == Ok(RedirText(line, r.value), TokensFrom(line, r.p))
  {
    var q, all := p, rs;
    while true
      invariant p <= q <= |line| && RedirSpans(line, all)
      invariant Redirs(TokensFrom(line, q), RedirText(line, all)) == Redirs(TokensFrom(line, p), RedirText(line, rs))
      decreases |line| - q
    {
      var found;
      found, q := Peek(line, q, "<>");
      ghost var ts := TokensFrom(line, q);
      if !found {
        return Tree(all, q);
      }
      var tok, _, q1 := Gettoken(line, q);
      var kind, word, q2 := Gettoken(line, q1);
      if kind != 'a' {
        return Syntax;
      }
      assert ts[1..][1..] == ts[2..];
      assert RedirText(line, all + [(word, tok != '<')]) == RedirText(line, all) + [(line[word.0..word.1], tok != '<')];
      all, q := all + [(word, tok != '<')], q2;
    }
  }

  /** What a parse from p on found is what the grammar says. */
  ghost predicate Agrees(line: string, p: nat, r: Parsed<Cmd<Span>>, spec: Result<Cmd<string>>)
    requires IsLine(line)
  {
    if r.Syntax? then spec.Err?
    else p <= r.p <= |line| && Spans(line, r.value) && spec == Ok(Text(line, r.value), TokensFrom(line, r.p))
  }

  lemma ArgTextMore(line: string, args: seq<Span>, w: Span)
    requires ArgSpans(line, args) && IsSpan(line, w)
    ensures ArgSpans(line, args + [w]) && ArgText(line, args + [w]) == ArgText(line, args) + [line[w.0..w.1]]
  {
  }

  /** The loop of `parseexec`, which fills argv. */
  method Parseargs(line: string, p: nat, rs: seq<(Span, bool)>) returns (r: Parsed<Cmd<Span>>)
    requires IsLine(line) && p <= |line| && RedirSpans(line, rs)
    ensures Agrees(line, p, r, Args(TokensFrom(line, p), [], RedirText(line, rs)))
  {
    var q, args, all := p, [], rs;
    assert ArgText(line, args) == [];
    while true
      invariant p <= q <= |line| && ArgSpans(line, args) && RedirSpans(line, all)
      invariant Args(TokensFrom(line, q), ArgText(line, args), RedirText(line, all))
             == Args(TokensFrom(line, p), [], RedirText(line, rs))
      decreases |line| - q
    {
      var found, q0 := Peek(line, q, "|)&;");
      var tok, word, q1 := '\0', (0, 0), q0;
      if !found {
        tok, word, q1 := Gettoken(line, q0);
      }
      if tok == '\0' {
        WrapText(line, Exec(args), all);
        return Tree(Wrap(Exec(args), all), q0);
      }
      if tok != 'a' || |args| + 1 >= MAXARGS {
        return Syntax;
      }
      ArgTextMore(line, args, word);
      var more := Parseredirs(line, q1, all);
      match more
      case Syntax =>
        return Syntax;
      case Tree(value, next) =>
        args, all, q := args + [word], value, next;
    }
  }

  /** `parseexec`. */
  method Parseexec(line: string, p: nat) returns (r: Parsed<Cmd<Span>>)
    requires IsLine(line) && p <= |line|
    ensures Agrees(line, p, r, ParseExec(TokensFrom(line, p)))
    decreases |line| - p, 1
  {
    var found, q := Peek(line, p, "(");
    if found {
      r := Parseblock(line, q);
      return;
    }
    var rs := Parseredirs(line, q, []);
    assert RedirText(line, []) == [];
    match rs
    case Syntax =>
      return Syntax;
    case Tree(value, next) =>
      r := Parseargs(line, next, value);
  }

  /** `parseblock`, at its parenthesis. */
  method Parseblock(line: string, p: nat) returns (r: Parsed<Cmd<Span>>)
    requires IsLine(line) && p <= |line| && Starts(TokensFrom(line, p), "(")
    ensures Agrees(line, p, r, ParseExec(TokensFrom(line, p)))
    decreases |line| - p, 0
  {
    var _, _, q := Gettoken(line, p);
    var c := Parseline(line, q);
    if c.Syntax? {
      return Syntax;
    }
    var found, q1 := Peek(line, c.p, ")");
    if !found {
      return Syntax;
    }
    var _, _, q2 := Gettoken(line, q1);
    var rs := Parseredirs(line, q2, []);
    assert RedirText(line, []) == [];
    match rs
    case Syntax =>
      return Syntax;
    case Tree(value, next) =>
      WrapText(line, c.value, value);
      return Tree(Wrap(c.value, value), next);
  }

  /** `parsepipe`. */
  method Parsepipe(line: string, p: nat) returns (r: Parsed<Cmd<Span>>)
    requires IsLine(line) && p <= |line|
    ensures Agrees(line, p, r, ParsePipe(TokensFrom(line, p)))
    decreases |line| - p, 2
  {
    r := Parseexec(line, p);
    if r.Syntax? {
      return;
    }
    var found, q := Peek(line, r.p, "|");
    if !found {
      return Tree(r.value, q);
    }
    var _, _, q1 := Gettoken(line, q);
    var d := Parsepipe(line, q1);
    if d.Syntax? {
      return Syntax;
    }
    return Tree(Pipe(r.value, d.value), d.p);
  }

  /** `parseline`. */
  method Parseline(line: string, p: nat) returns (r: Parsed<Cmd<Span>>)
    requires IsLine(line) && p <= |line|
    ensures Agrees(line, p, r, ParseLine(TokensFrom(line, p)))
    decreases |line| - p, 3
  {
    r := Parsepipe(line, p);
    if r.Syntax? {
      return;
    }
    var c, q := r.value, r.p;
    ghost var c0, ts := Text(line, c), TokensFrom(line, q);
    while true
      invariant p <= q <= |line| && Spans(line, c) && Backs(Text(line, c), TokensFrom(line, q)) == Backs(c0, ts)
      decreases |line| - q
    {
      var found;
      found, q := Peek(line, q, "&");
      if !found {
        break;
      }
      var _, _, q1 := Gettoken(line, q);
      c, q := Back(c), q1;
    }
    var found, q2 := Peek(line, q, ";");
    if !found {
      return Tree(c, q2);
    }
    var _, _, q3 := Gettoken(line, q2);
    var d := Parseline(line, q3);
    if d.Syntax? {
      return Syntax;
    }
    return Tree(List(c, d.value), d.p);
  }

  /** The parse of `parsecmd`. It panics, "syntax" or otherwise, exactly when the text is no command. */
  method Parsecmd(line: string) returns (r: Parsed<Cmd<Span>>)
    requires IsLine(line)
    ensures if r.Syntax? then ParseCmd(line).Err?
            else Spans(line, r.value) && ParseCmd(line) == Ok(Text(line, r.value), [])
  {
    assert line[0..] == line;
    r := Parseline(line, 0);
    if r.Tree? {
      var _, p := Peek(line, r.p, "");
      if p != |line| {
        assert line[p..] != [];
        return Syntax;
      }
    }
  }

  // Ending the words in the shared text.

  /** The text with NULs written over some characters outside words, and one at its end. */
  ghost predicate Marked(s: string, line: string) {
    && |s| == |line| + 1 && s[|line|] == '\0'
    && (forall j | 0 <= j < |line| :: s[j] == line[j] || (s[j] == '\0' && !IsWordChar(line[j])))
  }

  ghost predicate ArgsEnded(s: string, args: seq<Span>) {
    forall j | 0 <= j < |args| :: At(s, args[j].1) == '\0'
  }

  /** A NUL stands behind each word of the command. */
  ghost predicate Ended(s: string, c: Cmd<Span>) {
    match c
    case Exec(args) => ArgsEnded(s, args)
    case Redir(d, file, _) => Ended(s, d) && At(s, file.1) == '\0'
    case Pipe(l, r) => Ended(s, l) && Ended(s, r)
    case List(l, r) => Ended(s, l) && Ended(s, r)
    case Back(d) => Ended(s, d)
  }

  ghost predicate KeepsNuls(s: string, t: string) {
    |s| == |t| && forall j | 0 <= j < |s| && s[j] == '\0' :: t[j] == '\0'
  }

  lemma {:induction false} EndedStays(s: string, t: string, c: Cmd<Span>)
    requires Ended(s, c) && KeepsNuls(s, t)
    ensures Ended(t, c)
  {
    match c
    case Exec(args) =>
    case Redir(d, _, _) => EndedStays(s, t, d);
    case Pipe(l, r) => EndedStays(s, t, l); EndedStays(s, t, r);
    case List(l, r) => EndedStays(s, t, l); EndedStays(s, t, r);
    case Back(d) => EndedStays(s, t, d);
  }

  /** `nulterminate`: a NUL behind each word, and no character of any word touched. */
  method Nulterminate(buf: array<char>, c: Cmd<Span>, ghost line: string)
    requires Spans(line, c) && Marked(buf[..], line)
    modifies buf
    ensures Marked(buf[..], line) && Ended(buf[..], c) && KeepsNuls(old(buf[..]), buf[..])
    decreases c
  {
    match c
    case Exec(args) =>
      var i := 0;
      while i < |args|
        invariant i <= |args| && Marked(buf[..], line) && KeepsNuls(old(buf[..]), buf[..])
        invariant ArgsEnded(buf[..], args[..i])
      {
        assert IsSpan(line, args[i]);
        buf[args[i].1] := '\0';
        i := i + 1;
      }
      assert args[..i] == args;
    case Redir(d, file, _) =>
      Nulterminate(buf, d, line);
      ghost var s := buf[..];
      buf[file.1] := '\0';
      EndedStays(s, buf[..], d);
    case Pipe(l, r) =>
      Nulterminate(buf, l, line);
      ghost var s := buf[..];
      Nulterminate(buf, r, line);
      EndedStays(s, buf[..], l);
    case List(l, r) =>
      Nulterminate(buf, l, line);
      ghost var s := buf[..];
      Nulterminate(buf, r, line);
      EndedStays(s, buf[..], l);
    case Back(d) =>
      Nulterminate(buf, d, line);
  }

  /** The C string at a position. */
  ghost function CString(s: string, p: nat): string
    decreases |s| - p
  {
    if At(s, p) == '\0' then [] else [s[p]] + CString(s, p + 1)
  }

  lemma {:induction false} WordString(s: string, line: string, w: Span, k: nat)
    requires Marked(s, line) && IsSpan(line, w) && At(s, w.1) == '\0' && w.0 <= k <= w.1
    ensures CString(s, k) == line[k..w.1]
    decreases w.1 - k
  {
    if k < w.1 {
      WordString(s, line, w, k + 1);
      assert IsWordChar(line[k]) && s[k] == line[k];
    }
  }

  /** The command with the C strings that argv and file point to. */
  ghost function Strings(s: string, c: Cmd<Span>): Cmd<string> {
    match c
    case Exec(args) => Exec(seq(|args|, j requires 0 <= j < |args| => CString(s, args[j].0)))
    case Redir(d, file, output) => Redir(Strings(s, d), CString(s, file.0), output)
    case Pipe(l, r) => Pipe(Strings(s, l), Strings(s, r))
    case List(l, r) => List(Strings(s, l), Strings(s, r))
    case Back(d) => Back(Strings(s, d))
  }

  lemma {:induction false} StringsAreWords(s: string, line: string, c: Cmd<Span>)
    requires Marked(s, line) && Spans(line, c) && Ended(s, c)
    ensures Strings(s, c) == Text(line, c)
  {
    match c
    case Exec(args) =>
      forall j | 0 <= j < |args|
        ensures CString(s, args[j].0) == ArgText(line, args)[j]
      {
        WordString(s, line, args[j], args[j].0);
      }
      assert Strings(s, c).args == ArgText(line, args);
    case Redir(d, file, _) =>
      StringsAreWords(s, line, d);
      WordString(s, line, file, file.0);
    case Pipe(l, r) => StringsAreWords(s, line, l); StringsAreWords(s, line, r);
    case List(l, r) => StringsAreWords(s, line, l); StringsAreWords(s, line, r);
    case Back(d) => StringsAreWords(s, line, d);
  }

  /** `parsecmd`: the strings of the command it returns, in the text it was given, are the words of the grammar. */
  method ParseAndEnd(buf: array<char>, line: string) returns (r: Parsed<Cmd<Span>>)
    requires IsLine(line) && buf[..] == line + ['\0']
    modifies buf
    ensures r.Syntax? <==> ParseCmd(line).Err?
    ensures r.Tree? ==> ParseCmd(line) == Ok(Strings(buf[..], r.value), [])
  {
    r := Parsecmd(line);
    if r.Tree? {
      Nulterminate(buf, r.value, line);
      StringsAreWords(buf[..], line, r.value);
    }
  }
}
