/**
 The language of the shell's parser. A phrase is the concrete syntax of a command, with every spelling and every order that
 the grammar allows; the parser accepts exactly the texts of phrases, and gives each its meaning.
 */
module ShellGrammar {
  import opened Shell

  // Phrases.

  /** A redirection: `<`, `>` or, as '+', `>>`, and a file. */
  datatype Redirection = To(sym: char, file: string)

  /** A word of a simple command, and the redirections between it and the next. */
  datatype Arg = Arg(word: string, redirs: seq<Redirection>)

  datatype Phrase =
    | Simple(redirs: seq<Redirection>, args: seq<Arg>)
    | Block(body: Phrase, redirs: seq<Redirection>)
    | Piped(left: Phrase, right: Phrase)
    | Behind(body: Phrase)
    | Listed(left: Phrase, right: Phrase)

  /** The level of the grammar: 0 simple commands and blocks, 1 pipes, 2 background, 3 lists. */
  function Level(t: Phrase): (n: nat)
    ensures n < 4
  {
    match t
    case Simple(_, _) => 0
    case Block(_, _) => 0
    case Piped(_, _) => 1
    case Behind(_) => 2
    case Listed(_, _) => 3
  }

  predicate RedirsOk(rs: seq<Redirection>) {
    forall j | 0 <= j < |rs| :: rs[j].sym in "<>+"
  }

  predicate ArgsOk(args: seq<Arg>) {
    forall j | 0 <= j < |args| :: RedirsOk(args[j].redirs)
  }

  predicate Valid(t: Phrase) {
    match t
    case Simple(rs, args) => RedirsOk(rs) && ArgsOk(args) && |args| < MAXARGS
    case Block(b, rs) => Valid(b) && RedirsOk(rs)
    case Piped(l, r) => Valid(l) && Valid(r) && Level(l) == 0 && Level(r) <= 1
    case Behind(b) => Valid(b) && Level(b) <= 2
    case Listed(l, r) => Valid(l) && Valid(r) && Level(l) <= 2
  }

  function RedirTokens(rs: seq<Redirection>, rest: seq<Token>): (ts: seq<Token>) {
    if rs == [] then rest else [Sym(rs[0].sym), Word(rs[0].file)] + RedirTokens(rs[1..], rest)
  }

  function ArgTokens(args: seq<Arg>, rest: seq<Token>): (ts: seq<Token>) {
    if args == [] then rest else [Word(args[0].word)] + RedirTokens(args[0].redirs, ArgTokens(args[1..], rest))
  }

  /** The tokens of a phrase, and a rest behind them. */
  function Yield(t: Phrase, rest: seq<Token>): (ts: seq<Token>) {
    match t
    case Simple(rs, args) => RedirTokens(rs, ArgTokens(args, rest))
    case Block(b, rs) => [Sym('(')] + Yield(b, [Sym(')')] + RedirTokens(rs, rest))
    case Piped(l, r) => Yield(l, [Sym('|')] + Yield(r, rest))
    case Behind(b) => Yield(b, [Sym('&')] + rest)
    case Listed(l, r) => Yield(l, [Sym(';')] + Yield(r, rest))
  }

  function Words(args: seq<Arg>): (ws: seq<string>)
    ensures |ws| == |args| && forall j | 0 <= j < |args| :: ws[j] == args[j].word
  {
    seq(|args|, j requires 0 <= j < |args| => args[j].word)
  }

  /** The files, and whether each is for output: only `<` is not. */
  function Files(rs: seq<Redirection>): (fs: seq<(string, bool)>)
    ensures |fs| == |rs| && forall j | 0 <= j < |rs| :: fs[j] == (rs[j].file, rs[j].sym != '<')
  {
    seq(|rs|, j requires 0 <= j < |rs| => (rs[j].file, rs[j].sym != '<'))
  }

  function ArgFiles(args: seq<Arg>): (fs: seq<(string, bool)>) {
    if args == [] then [] else Files(args[0].redirs) + ArgFiles(args[1..])
  }

  /** The command that a phrase stands for. */
  function Mean(t: Phrase): (c: Cmd<string>) {
    match t
    case Simple(rs, args) => Wrap(Exec(Words(args)), Files(rs) + ArgFiles(args))
    case Block(b, rs) => Wrap(Mean(b), Files(rs))
    case Piped(l, r) => Pipe(Mean(l), Mean(r))
    case Behind(b) => Back(Mean(b))
    case Listed(l, r) => List(Mean(l), Mean(r))
  }

  // The tokens of a phrase, and what may follow them, parse to its meaning.

  /** What may follow a phrase of a level. */
  predicate Ends(ts: seq<Token>, level: nat) {
    ts == [] || Starts(ts, if level == 0 then "|)&;" else if level < 3 then ")&;" else ")")
  }

  lemma FilesMore(rs: seq<(string, bool)>, items: seq<Redirection>)
    requires items != []
    ensures rs + [(items[0].file, items[0].sym != '<')] + Files(items[1..]) == rs + Files(items)
  {
  }

  lemma WordsMore(ws: seq<string>, args: seq<Arg>)
    requires args != []
    ensures ws + [args[0].word] + Words(args[1..]) == ws + Words(args)
  {
  }

  lemma ArgFilesMore(rs: seq<(string, bool)>, args: seq<Arg>)
    requires args != []
    ensures rs + Files(args[0].redirs) + ArgFiles(args[1..]) == rs + ArgFiles(args)
  {
  }

  lemma {:induction false} RedirsOf(items: seq<Redirection>, rs: seq<(string, bool)>, rest: seq<Token>)
    requires RedirsOk(items) && !Starts(rest, "<>+")
    ensures Redirs(RedirTokens(items, rest), rs) == Ok(rs + Files(items), rest)
    decreases |items|
  {
    if items == [] {
      assert rs + Files(items) == rs;
    } else {
      var ts, f := RedirTokens(items, rest), (items[0].file, items[0].sym != '<');
      assert ts[2..] == RedirTokens(items[1..], rest);
      RedirsOf(items[1..], rs + [f], rest);
      FilesMore(rs, items);
    }
  }

  /** Behind redirections come words, or the end: no more redirections. */
  lemma NotMore(args: seq<Arg>, rest: seq<Token>)
    requires Ends(rest, 0)
    ensures !Starts(ArgTokens(args, rest), "<>+") && !Starts(ArgTokens(args, rest), "(")
  {
  }

  lemma {:induction false} ArgsOf(args: seq<Arg>, ws: seq<string>, rs: seq<(string, bool)>, rest: seq<Token>)
    requires ArgsOk(args) && |ws| + |args| < MAXARGS && Ends(rest, 0)
    ensures Args(ArgTokens(args, rest), ws, rs) == Ok(Wrap(Exec(ws + Words(args)), rs + ArgFiles(args)), rest)
    decreases |args|
  {
    if args == [] {
      assert ws + Words(args) == ws && rs + ArgFiles(args) == rs;
    } else {
      var w, redirs, more := args[0].word, args[0].redirs, args[1..];
      NotMore(more, rest);
      RedirsOf(redirs, rs, ArgTokens(more, rest));
      assert ArgTokens(args, rest)[1..] == RedirTokens(redirs, ArgTokens(more, rest));
      ArgsOf(more, ws + [w], rs + Files(redirs), rest);
      WordsMore(ws, args);
      ArgFilesMore(rs, args);
    }
  }

  lemma SimpleOf(rs: seq<Redirection>, args: seq<Arg>, rest: seq<Token>)
    requires Valid(Simple(rs, args)) && Ends(rest, 0)
    ensures ParseExec(Yield(Simple(rs, args), rest)) == Ok(Mean(Simple(rs, args)), rest)
  {
    NotMore(args, rest);
    RedirsOf(rs, [], ArgTokens(args, rest));
    ArgsOf(args, [], [] + Files(rs), rest);
    assert [] + Words(args) == Words(args) && [] + Files(rs) == Files(rs);
    assert !Starts(RedirTokens(rs, ArgTokens(args, rest)), "(");
  }

  lemma {:induction false} ExecOf(t: Phrase, rest: seq<Token>)
    requires Valid(t) && Level(t) == 0 && Ends(rest, 0)
    ensures ParseExec(Yield(t, rest)) == Ok(Mean(t), rest)
    decreases t, 0
  {
    if t.Simple? {
      SimpleOf(t.redirs, t.args, rest);
    } else {
      var more := [Sym(')')] + RedirTokens(t.redirs, rest);
      LineOf(t.body, more);
      RedirsOf(t.redirs, [], rest);
      assert Yield(t, rest)[1..] == Yield(t.body, more) && more[1..] == RedirTokens(t.redirs, rest);
      assert [] + Files(t.redirs) == Files(t.redirs);
    }
  }

  lemma {:induction false} PipeOf(t: Phrase, rest: seq<Token>)
    requires Valid(t) && Level(t) <= 1 && Ends(rest, 1)
    ensures ParsePipe(Yield(t, rest)) == Ok(Mean(t), rest)
    decreases t, 1
  {
    if t.Piped? {
      var more := [Sym('|')] + Yield(t.right, rest);
      ExecOf(t.left, more);
      PipeOf(t.right, rest);
      assert more[1..] == Yield(t.right, rest);
    } else {
      ExecOf(t, rest);
    }
  }

  lemma {:induction false} BackOf(t: Phrase, rest: seq<Token>)
    requires Valid(t) && Level(t) <= 2 && Ends(rest, 2)
    ensures ParseBack(Yield(t, rest)) == Ok(Backs(Mean(t), rest).0, Backs(Mean(t), rest).1)
    decreases t, 2
  {
    if t.Behind? {
      var more := [Sym('&')] + rest;
      BackOf(t.body, more);
      assert more[1..] == rest;
    } else {
      PipeOf(t, rest);
    }
  }

  lemma {:induction false} LineOf(t: Phrase, rest: seq<Token>)
    requires Valid(t) && Ends(rest, 3)
    ensures ParseLine(Yield(t, rest)) == Ok(Mean(t), rest)
    decreases t, 3
  {
    if t.Listed? {
      var more := [Sym(';')] + Yield(t.right, rest);
      BackOf(t.left, more);
      LineOf(t.right, rest);
      assert more[1..] == Yield(t.right, rest);
    } else {
      BackOf(t, rest);
    }
  }

  // Whatever the parser accepts is a phrase.

  lemma {:induction false} RedirsFrom(ts: seq<Token>, rs: seq<(string, bool)>) returns (items: seq<Redirection>)
    requires Redirs(ts, rs).Ok?
    ensures var r := Redirs(ts, rs); RedirsOk(items) && ts == RedirTokens(items, r.rest) && r.value == rs + Files(items)
    decreases |ts|
  {
    if !Starts(ts, "<>+") {
      items := [];
      assert rs + Files(items) == rs;
    } else {
      var i, f := To(ts[0].c, ts[1].text), (ts[1].text, ts[0].c != '<');
      var more := RedirsFrom(ts[2..], rs + [f]);
      items := [i] + more;
      assert items[1..] == more && ts == [ts[0], ts[1]] + ts[2..];
      FilesMore(rs, items);
    }
  }

  lemma {:induction false} ArgsFrom(ts: seq<Token>, ws: seq<string>, rs: seq<(string, bool)>) returns (args: seq<Arg>)
    requires Args(ts, ws, rs).Ok? && |ws| < MAXARGS
    ensures var r := Args(ts, ws, rs);
            && ArgsOk(args) && |ws| + |args| < MAXARGS && ts == ArgTokens(args, r.rest)
            && r.value == Wrap(Exec(ws + Words(args)), rs + ArgFiles(args))
    decreases |ts|
  {
    if ts == [] || Starts(ts, "|)&;") {
      args := [];
      assert ws + Words(args) == ws && rs + ArgFiles(args) == rs;
    } else {
      var w, next := ts[0].text, Redirs(ts[1..], rs);
      var redirs := RedirsFrom(ts[1..], rs);
      var more := ArgsFrom(next.rest, ws + [w], next.value);
      args := [Arg(w, redirs)] + more;
      assert args[1..] == more && ts == [ts[0]] + ts[1..];
      WordsMore(ws, args);
      ArgFilesMore(rs, args);
    }
  }

  lemma SimpleFrom(ts: seq<Token>) returns (t: Phrase)
    requires ParseExec(ts).Ok? && !Starts(ts, "(")
    ensures var r := ParseExec(ts); Valid(t) && Level(t) == 0 && ts == Yield(t, r.rest) && Mean(t) == r.value
  {
    var next := Redirs(ts, []);
    var rs := RedirsFrom(ts, []);
    var args := ArgsFrom(next.rest, [], next.value);
    t := Simple(rs, args);
    assert [] + Words(args) == Words(args) && [] + Files(rs) == Files(rs);
  }

  lemma BlockFrom(ts: seq<Token>, b: Phrase) returns (t: Phrase)
    requires ParseExec(ts).Ok? && Starts(ts, "(")
    requires var r := ParseLine(ts[1..]); Valid(b) && ts[1..] == Yield(b, r.rest) && Mean(b) == r.value
    ensures var r := ParseExec(ts); Valid(t) && Level(t) == 0 && ts == Yield(t, r.rest) && Mean(t) == r.value
  {
    var rest := ParseLine(ts[1..]).rest;
    var rs := RedirsFrom(rest[1..], []);
    t := Block(b, rs);
    assert [] + Files(rs) == Files(rs);
    assert ts == [Sym('(')] + ts[1..] && rest == [Sym(')')] + rest[1..];
  }

  lemma {:induction false} ExecFrom(ts: seq<Token>) returns (t: Phrase)
    requires ParseExec(ts).Ok?
    ensures var r := ParseExec(ts); Valid(t) && Level(t) == 0 && ts == Yield(t, r.rest) && Mean(t) == r.value
    decreases |ts|, 0
  {
    if Starts(ts, "(") {
      var b := LineFrom(ts[1..]);
      t := BlockFrom(ts, b);
    } else {
      t := SimpleFrom(ts);
    }
  }

  /** A symbol and what a phrase behind it yields. */
  lemma After(ts: seq<Token>, c: char, t: Phrase, rest: seq<Token>)
    requires Starts(ts, [c]) && ts[1..] == Yield(t, rest)
    ensures ts == [Sym(c)] + Yield(t, rest)
  {
    assert ts == [ts[0]] + ts[1..];
  }

  lemma {:induction false} PipeFrom(ts: seq<Token>) returns (t: Phrase)
    requires ParsePipe(ts).Ok?
    ensures var r := ParsePipe(ts); Valid(t) && Level(t) <= 1 && ts == Yield(t, r.rest) && Mean(t) == r.value
    decreases |ts|, 1
  {
    t := ExecFrom(ts);
    var rest := ParseExec(ts).rest;
    if Starts(rest, "|") {
      var r := PipeFrom(rest[1..]);
      After(rest, '|', r, ParsePipe(rest[1..]).rest);
      t := Piped(t, r);
    }
  }

  lemma {:induction false} BacksFrom(t: Phrase, ts: seq<Token>) returns (b: Phrase)
    requires Valid(t) && Level(t) <= 2
    ensures var r := Backs(Mean(t), ts); Valid(b) && Level(b) <= 2 && Yield(t, ts) == Yield(b, r.1) && Mean(b) == r.0
    decreases |ts|
  {
    b := t;
    if Starts(ts, "&") {
      b := BacksFrom(Behind(t), ts[1..]);
      assert ts == [Sym('&')] + ts[1..];
    }
  }

  lemma {:induction false} LineFrom(ts: seq<Token>) returns (t: Phrase)
    requires ParseLine(ts).Ok?
    ensures var r := ParseLine(ts); Valid(t) && ts == Yield(t, r.rest) && Mean(t) == r.value
    decreases |ts|, 2
  {
    t := PipeFrom(ts);
    t := BacksFrom(t, ParsePipe(ts).rest);
    var rest := ParseBack(ts).rest;
    if Starts(rest, ";") {
      var r := LineFrom(rest[1..]);
      After(rest, ';', r, ParseLine(rest[1..]).rest);
      t := Listed(t, r);
    }
  }

  ghost predicate Reads(t: Phrase, ts: seq<Token>, c: Cmd<string>) {
    Valid(t) && Yield(t, []) == ts && Mean(t) == c
  }

  /** The parser takes a text for a command exactly when the text's tokens are those of a phrase with that meaning. */
  lemma ParsesIff(line: string, c: Cmd<string>)
    requires IsLine(line)
    ensures ParseCmd(line) == Ok(c, []) <==> exists t: Phrase :: Reads(t, Lex(line), c)
  {
    if ParseCmd(line) == Ok(c, []) {
      var t := LineFrom(Lex(line));
      assert Reads(t, Lex(line), c);
    }
    if t: Phrase :| Reads(t, Lex(line), c) {
      LineOf(t, []);
    }
  }

  // Text.

  /** A token and the space before it. */
  datatype Piece = Piece(gap: string, token: Token)

  function Spell(t: Token): (s: string) {
    match t
    case Sym(c) => if c == '+' then ">>" else [c]
    case Word(w) => w
  }

  predicate IsWord(w: string) {
    w != [] && forall j | 0 <= j < |w| :: IsWordChar(w[j])
  }

  predicate IsToken(t: Token) {
    match t
    case Sym(c) => IsSymbol(c) || c == '+'
    case Word(w) => IsWord(w)
  }

  predicate AreTokens(ts: seq<Token>) {
    forall j | 0 <= j < |ts| :: IsToken(ts[j])
  }

  predicate IsGap(s: string) {
    forall j | 0 <= j < |s| :: IsSpace(s[j])
  }

  /** Without space between them the two would read differently. */
  predicate Merge(a: Token, b: Token) {
    (a.Word? && b.Word?) || (a == Sym('>') && (b == Sym('>') || b == Sym('+')))
  }

  /** A way to write tokens: any space around them, and none only where they do not merge. */
  predicate IsLayout(ps: seq<Piece>) {
    && (forall j | 0 <= j < |ps| :: IsGap(ps[j].gap) && IsToken(ps[j].token))
    && (forall j | 1 <= j < |ps| :: ps[j].gap != [] || !Merge(ps[j - 1].token, ps[j].token))
  }

  function Laid(ps: seq<Piece>, tail: string): (s: string) {
    if ps == [] then tail else ps[0].gap + Spell(ps[0].token) + Laid(ps[1..], tail)
  }

  function Read(ps: seq<Piece>): (ts: seq<Token>)
    ensures |ts| == |ps| && forall j | 0 <= j < |ps| :: ts[j] == ps[j].token
  {
    seq(|ps|, j requires 0 <= j < |ps| => ps[j].token)
  }

  lemma {:induction false} LexGap(gap: string, s: string)
    requires IsGap(gap) && IsLine(s)
    ensures IsLine(gap + s) && Lex(gap + s) == Lex(s)
  {
    if gap == [] {
      assert gap + s == s;
    } else {
      LexGap(gap[1..], s);
      assert gap + s == [gap[0]] + (gap[1..] + s) && (gap + s)[1..] == gap[1..] + s;
    }
  }

  /** A token in front of text with which it does not merge. */
  lemma LexToken(t: Token, s: string)
    requires IsToken(t) && IsLine(s) && (t.Word? ==> s == [] || !IsWordChar(s[0])) && (t == Sym('>') ==> s == [] || s[0] != '>')
    ensures IsLine(Spell(t) + s) && Lex(Spell(t) + s) == [t] + Lex(s)
  {
    var w := Spell(t);
    var line := w + s;
    assert IsLine(line) && line[|w|..] == s && line[..|w|] == w;
    if t.Word? {
      if s == [] {
        WordAll(line);
      } else {
        WordEnds(line, |w|);
      }
    }
  }

  /** What the text of a layout starts with. */
  lemma LaidStarts(ps: seq<Piece>, tail: string, a: Token)
    requires IsLayout(ps) && IsGap(tail) && IsToken(a) && (ps != [] ==> ps[0].gap != [] || !Merge(a, ps[0].token))
    ensures var s := Laid(ps, tail);
            (a.Word? ==> s == [] || !IsWordChar(s[0])) && (a == Sym('>') ==> s == [] || s[0] != '>')
  {
    if ps != [] {
      assert IsToken(ps[0].token);
      if ps[0].gap != [] {
        assert Laid(ps, tail)[0] == ps[0].gap[0];
      } else {
        assert Laid(ps, tail)[0] == Spell(ps[0].token)[0];
      }
    }
  }

  lemma {:induction false} LexLaid(ps: seq<Piece>, tail: string)
    requires IsLayout(ps) && IsGap(tail)
    ensures IsLine(Laid(ps, tail)) && Lex(Laid(ps, tail)) == Read(ps)
    decreases |ps|
  {
    if ps == [] {
      LexGap(tail, []);
      assert tail + [] == tail;
    } else {
      var s := Laid(ps[1..], tail);
      LexLaid(ps[1..], tail);
      LaidStarts(ps[1..], tail, ps[0].token);
      LexToken(ps[0].token, s);
      LexGap(ps[0].gap, Spell(ps[0].token) + s);
      assert ps[0].gap + Spell(ps[0].token) + s == ps[0].gap + (Spell(ps[0].token) + s);
      assert Read(ps) == [ps[0].token] + Read(ps[1..]);
    }
  }

  /** The layout that a line is. */
  lemma {:induction false} LaidFrom(line: string) returns (ps: seq<Piece>, tail: string)
    requires IsLine(line)
    ensures IsLayout(ps) && IsGap(tail) && Laid(ps, tail) == line && Read(ps) == Lex(line)
    ensures ps != [] && ps[0].gap == [] ==> line != [] && !IsSpace(line[0])
    decreases |line|
  {
    if line == [] {
      ps, tail := [], [];
    } else if IsSpace(line[0]) {
      ps, tail := LaidFrom(line[1..]);
      ps, tail := AddSpace(line, ps, tail);
    } else {
      var t, n := FirstToken(line);
      ps, tail := LaidFrom(line[n..]);
      ps := AddToken(line, t, n, ps, tail);
    }
  }

  lemma AddSpace(line: string, ps: seq<Piece>, tail: string) returns (qs: seq<Piece>, tail1: string)
    requires IsLine(line) && line != [] && IsSpace(line[0]) && IsLayout(ps) && IsGap(tail) && Laid(ps, tail) == line[1..]
    ensures IsLayout(qs) && IsGap(tail1) && Laid(qs, tail1) == line && Read(qs) == Read(ps) && (qs != [] ==> qs[0].gap != [])
  {
    assert line == [line[0]] + line[1..];
    if ps == [] {
      qs, tail1 := [], [line[0]] + tail;
    } else {
      var gap, more := [line[0]] + ps[0].gap, ps[1..];
      qs, tail1 := [Piece(gap, ps[0].token)] + more, tail;
      assert qs[1..] == more;
      GapMore(line[0], ps[0].gap, Spell(ps[0].token), Laid(more, tail));
      LayoutMore(ps, qs);
    }
  }

  lemma GapMore(c: char, gap: string, w: string, s: string)
    ensures [c] + (gap + w + s) == ([c] + gap) + w + s
  {
  }

  lemma LayoutMore(ps: seq<Piece>, qs: seq<Piece>)
    requires IsLayout(ps) && |qs| == |ps| > 0 && IsGap(qs[0].gap) && qs[0].token == ps[0].token && qs[1..] == ps[1..]
    ensures IsLayout(qs) && Read(qs) == Read(ps)
  {
    assert forall j | 1 <= j < |ps| :: qs[j] == qs[1..][j - 1] && ps[j] == ps[1..][j - 1];
  }

  /** The first token of a text that starts with no space, and its length. */
  lemma FirstToken(line: string) returns (t: Token, n: nat)
    requires IsLine(line) && line != [] && !IsSpace(line[0])
    ensures 1 <= n <= |line| && IsToken(t) && Spell(t) == line[..n] && Lex(line) == [t] + Lex(line[n..])
    ensures t.Word? ==> n == |line| || !IsWordChar(line[n])
    ensures t == Sym('>') ==> n == |line| || line[n] != '>'
  {
    if line[0] == '>' && |line| > 1 && line[1] == '>' {
      t, n := Sym('+'), 2;
    } else if IsSymbol(line[0]) {
      t, n := Sym(line[0]), 1;
    } else {
      n := WordLength(line);
      t := Word(line[..n]);
      assert IsWordChar(line[0]);
    }
  }

  lemma AddToken(line: string, t: Token, n: nat, ps: seq<Piece>, tail: string) returns (qs: seq<Piece>)
    requires IsLine(line) && n <= |line| && IsToken(t) && Spell(t) == line[..n] && Lex(line) == [t] + Lex(line[n..])
    requires t.Word? ==> n == |line| || !IsWordChar(line[n])
    requires t == Sym('>') ==> n == |line| || line[n] != '>'
    requires IsLayout(ps) && IsGap(tail) && Laid(ps, tail) == line[n..] && Read(ps) == Lex(line[n..])
    ensures IsLayout(qs) && Laid(qs, tail) == line && Read(qs) == Lex(line) && qs != [] && qs[0].gap == []
  {
    qs := [Piece([], t)] + ps;
    assert qs[1..] == ps && line == line[..n] + line[n..];
    assert Laid(qs, tail) == [] + Spell(t) + line[n..] && [] + Spell(t) == Spell(t);
    if ps != [] && ps[0].gap == [] {
      NotMerged(t, ps, tail, line[n..]);
    }
    LayoutAdd(t, ps);
  }

  lemma LayoutAdd(t: Token, ps: seq<Piece>)
    requires IsToken(t) && IsLayout(ps) && (ps != [] && ps[0].gap == [] ==> !Merge(t, ps[0].token))
    ensures IsLayout([Piece([], t)] + ps) && Read([Piece([], t)] + ps) == [t] + Read(ps)
  {
    var qs := [Piece([], t)] + ps;
    assert forall j | 1 <= j < |qs| :: qs[j] == ps[j - 1];
  }

  lemma NotMerged(t: Token, ps: seq<Piece>, tail: string, s: string)
    requires IsLayout(ps) && ps != [] && ps[0].gap == [] && s == Laid(ps, tail) && s != []
    requires (t.Word? ==> !IsWordChar(s[0])) && (t == Sym('>') ==> s[0] != '>')
    ensures !Merge(t, ps[0].token)
  {
    var w := Spell(ps[0].token);
    assert IsToken(ps[0].token);
    assert s == w + Laid(ps[1..], tail) && s[0] == w[0];
  }

  ghost predicate Writes(ps: seq<Piece>, tail: string, line: string, ts: seq<Token>) {
    IsLayout(ps) && IsGap(tail) && Laid(ps, tail) == line && Read(ps) == ts
  }

  /** The tokens of a line are these exactly when it is a way to write them. */
  lemma LexIff(line: string, ts: seq<Token>)
    requires IsLine(line)
    ensures Lex(line) == ts <==> exists ps: seq<Piece>, tail: string :: Writes(ps, tail, line, ts)
  {
    if Lex(line) == ts {
      var ps, tail := LaidFrom(line);
      assert Writes(ps, tail, line, ts);
    }
    if ps: seq<Piece>, tail: string :| Writes(ps, tail, line, ts) {
      LexLaid(ps, tail);
    }
  }

  // Phrases whose words are words.

  predicate FilesSpelled(rs: seq<Redirection>) {
    forall j | 0 <= j < |rs| :: IsWord(rs[j].file)
  }

  predicate ArgsSpelled(args: seq<Arg>) {
    forall j | 0 <= j < |args| :: IsWord(args[j].word) && FilesSpelled(args[j].redirs)
  }

  predicate Spelled(t: Phrase) {
    match t
    case Simple(rs, args) => FilesSpelled(rs) && ArgsSpelled(args)
    case Block(b, rs) => Spelled(b) && FilesSpelled(rs)
    case Piped(l, r) => Spelled(l) && Spelled(r)
    case Behind(b) => Spelled(b)
    case Listed(l, r) => Spelled(l) && Spelled(r)
  }

  lemma TokensAdd(a: seq<Token>, b: seq<Token>)
    ensures AreTokens(a + b) <==> AreTokens(a) && AreTokens(b)
  {
    assert forall j | 0 <= j < |a| :: (a + b)[j] == a[j];
    assert forall j | 0 <= j < |b| :: (a + b)[|a| + j] == b[j];
  }

  lemma {:induction false} RedirSpelled(rs: seq<Redirection>, rest: seq<Token>)
    requires RedirsOk(rs)
    ensures AreTokens(RedirTokens(rs, rest)) <==> FilesSpelled(rs) && AreTokens(rest)
  {
    if rs != [] {
      var ts := [Sym(rs[0].sym), Word(rs[0].file)];
      RedirSpelled(rs[1..], rest);
      TokensAdd(ts, RedirTokens(rs[1..], rest));
      assert IsToken(ts[0]) && (IsToken(ts[1]) <==> IsWord(rs[0].file));
      assert forall j | 1 <= j < |rs| :: rs[j] == rs[1..][j - 1];
    }
  }

  lemma {:induction false} ArgSpelled(args: seq<Arg>, rest: seq<Token>)
    requires ArgsOk(args)
    ensures AreTokens(ArgTokens(args, rest)) <==> ArgsSpelled(args) && AreTokens(rest)
  {
    if args != [] {
      var more, ts := args[1..], [Word(args[0].word)];
      ArgSpelled(more, rest);
      RedirSpelled(args[0].redirs, ArgTokens(more, rest));
      TokensAdd(ts, RedirTokens(args[0].redirs, ArgTokens(more, rest)));
      assert IsToken(ts[0]) <==> IsWord(args[0].word);
      assert forall j | 1 <= j < |args| :: args[j] == more[j - 1];
    }
  }

  lemma {:induction false} YieldSpelled(t: Phrase, rest: seq<Token>)
    requires Valid(t)
    ensures AreTokens(Yield(t, rest)) <==> Spelled(t) && AreTokens(rest)
  {
    match t
    case Simple(rs, args) =>
      ArgSpelled(args, rest);
      RedirSpelled(rs, ArgTokens(args, rest));
    case Block(b, rs) =>
      var more := RedirTokens(rs, rest);
      RedirSpelled(rs, rest);
      TokensAdd([Sym(')')], more);
      YieldSpelled(b, [Sym(')')] + more);
      TokensAdd([Sym('(')], Yield(b, [Sym(')')] + more));
    case Piped(l, r) =>
      YieldSpelled(r, rest);
      TokensAdd([Sym('|')], Yield(r, rest));
      YieldSpelled(l, [Sym('|')] + Yield(r, rest));
    case Behind(b) =>
      TokensAdd([Sym('&')], rest);
      YieldSpelled(b, [Sym('&')] + rest);
    case Listed(l, r) =>
      YieldSpelled(r, rest);
      TokensAdd([Sym(';')], Yield(r, rest));
      YieldSpelled(l, [Sym(';')] + Yield(r, rest));
  }

  // The canonical text of a command.

  /** The commands the grammar can produce: words are words, and few enough. */
  predicate Printable(c: Cmd<string>) {
    match c
    case Exec(args) => |args| < MAXARGS && forall j | 0 <= j < |args| :: IsWord(args[j])
    case Redir(d, file, _) => Printable(d) && IsWord(file)
    case Pipe(l, r) => Printable(l) && Printable(r)
    case List(l, r) => Printable(l) && Printable(r)
    case Back(d) => Printable(d)
  }

  function PlainArgs(args: seq<string>): (r: seq<Arg>)
    ensures |r| == |args| && forall j | 0 <= j < |args| :: r[j] == Arg(args[j], [])
  {
    seq(|args|, j requires 0 <= j < |args| => Arg(args[j], []))
  }

  function Native(c: Cmd<string>): (n: nat)
    ensures n < 4
  {
    match c
    case Exec(_) => 0
    case Redir(_, _, _) => 0
    case Pipe(_, _) => 1
    case Back(_) => 2
    case List(_, _) => 3
  }

  /** Its phrase where the grammar expects the given level: a command of a higher level goes into parentheses. */
  function Canon(c: Cmd<string>, level: nat): (t: Phrase)
    requires level < 4
    ensures Level(t) <= level
    decreases c, (level + 4 - Native(c)) % 4
  {
    if level != Native(c) then
      if level == 0 then Block(Canon(c, 3), []) else Canon(c, level - 1)
    else
      match c
      case Exec(args) => Simple([], PlainArgs(args))
      case Redir(d, file, output) => Redirect(Canon(d, 0), To(if output then '>' else '<', file))
      case Pipe(l, r) => Piped(Canon(l, 0), Canon(r, 1))
      case Back(d) => Behind(Canon(d, 2))
      case List(l, r) => Listed(Canon(l, 2), Canon(r, 3))
  }

  function Redirect(t: Phrase, i: Redirection): (r: Phrase)
    requires Level(t) == 0
    ensures Level(r) == 0
  {
    if t.Simple? then Simple(t.redirs + [i], t.args) else Block(t.body, t.redirs + [i])
  }

  /** The canonical phrase of a simple command has its redirections in front. */
  ghost predicate InFront(t: Phrase) {
    t.Simple? ==> ArgFiles(t.args) == []
  }

  lemma {:induction false} NoFiles(args: seq<string>)
    ensures ArgFiles(PlainArgs(args)) == []
  {
    if args != [] {
      NoFiles(args[1..]);
      assert PlainArgs(args)[1..] == PlainArgs(args[1..]) && Files([]) == [];
    }
  }

  lemma RedirectMeans(t: Phrase, i: Redirection)
    requires Level(t) == 0 && Valid(t) && Spelled(t) && InFront(t) && i.sym in "<>+" && IsWord(i.file)
    ensures Valid(Redirect(t, i)) && Spelled(Redirect(t, i)) && InFront(Redirect(t, i))
    ensures Mean(Redirect(t, i)) == Redir(Mean(t), i.file, i.sym != '<')
  {
    var rs, f := Files(t.redirs + [i]), (i.file, i.sym != '<');
    assert rs[..|t.redirs|] == Files(t.redirs) && rs[|t.redirs|] == f;
    assert rs + [] == rs && Files(t.redirs) + [] == Files(t.redirs);
  }

  lemma {:induction false} CanonMeans(c: Cmd<string>, level: nat)
    requires Printable(c) && level < 4
    ensures var t := Canon(c, level); Valid(t) && Spelled(t) && InFront(t) && Mean(t) == c
    decreases c, (level + 4 - Native(c)) % 4
  {
    if level != Native(c) {
      CanonMeans(c, if level == 0 then 3 else level - 1);
      assert Files([]) == [];
    } else {
      match c
      case Exec(args) =>
        NoFiles(args);
        assert Words(PlainArgs(args)) == args && Files([]) + [] == [];
      case Redir(d, file, output) =>
        CanonMeans(d, 0);
        RedirectMeans(Canon(d, 0), To(if output then '>' else '<', file));
      case Pipe(l, r) => CanonMeans(l, 0); CanonMeans(r, 1);
      case Back(d) => CanonMeans(d, 2);
      case List(l, r) => CanonMeans(l, 2); CanonMeans(r, 3);
    }
  }

  /** Tokens as text, each after a space. */
  function Print(ts: seq<Token>): (s: string) {
    Laid(seq(|ts|, j requires 0 <= j < |ts| => Piece(" ", ts[j])), [])
  }

  lemma LexPrint(ts: seq<Token>)
    requires AreTokens(ts)
    ensures IsLine(Print(ts)) && Lex(Print(ts)) == ts
  {
    var ps := seq(|ts|, j requires 0 <= j < |ts| => Piece(" ", ts[j]));
    LexLaid(ps, []);
    assert Read(ps) == ts;
  }

  /** Parsing the canonical text of a command gives that command. */
  lemma ParsePrint(c: Cmd<string>)
    requires Printable(c)
    ensures IsLine(Print(Yield(Canon(c, 3), []))) && ParseCmd(Print(Yield(Canon(c, 3), []))) == Ok(c, [])
  {
    var t := Canon(c, 3);
    CanonMeans(c, 3);
    YieldSpelled(t, []);
    LexPrint(Yield(t, []));
    LineOf(t, []);
  }

  // Every command the parser returns is printable.

  lemma {:induction false} WrapPrintable(c: Cmd<string>, rs: seq<(string, bool)>)
    requires Printable(c) && forall j | 0 <= j < |rs| :: IsWord(rs[j].0)
    ensures Printable(Wrap(c, rs))
    decreases |rs|
  {
    if rs != [] {
      WrapPrintable(c, rs[..|rs| - 1]);
    }
  }

  lemma {:induction false} ArgFilesSpelled(args: seq<Arg>)
    requires ArgsSpelled(args)
    ensures forall j | 0 <= j < |ArgFiles(args)| :: IsWord(ArgFiles(args)[j].0)
  {
    if args != [] {
      ArgFilesSpelled(args[1..]);
    }
  }

  lemma {:induction false} MeanPrintable(t: Phrase)
    requires Valid(t) && Spelled(t)
    ensures Printable(Mean(t))
  {
    match t
    case Simple(rs, args) =>
      ArgFilesSpelled(args);
      WrapPrintable(Exec(Words(args)), Files(rs) + ArgFiles(args));
    case Block(b, rs) =>
      MeanPrintable(b);
      WrapPrintable(Mean(b), Files(rs));
    case Piped(l, r) => MeanPrintable(l); MeanPrintable(r);
    case Behind(b) => MeanPrintable(b);
    case Listed(l, r) => MeanPrintable(l); MeanPrintable(r);
  }

  /** A command is the parse of some text exactly when it is printable. */
  lemma ProducedIff(c: Cmd<string>)
    ensures Printable(c) <==> exists line: string :: IsLine(line) && ParseCmd(line) == Ok(c, [])
  {
    if Printable(c) {
      ParsePrint(c);
    }
    if line: string :| IsLine(line) && ParseCmd(line) == Ok(c, []) {
      var ps, _ := LaidFrom(line);
      var t := LineFrom(Lex(line));
      assert AreTokens(Read(ps));
      YieldSpelled(t, []);
      MeanPrintable(t);
    }
  }

  // `>>` means what `>` means.

  function Plain(ts: seq<Token>): (r: seq<Token>)
    ensures |r| == |ts| && forall j | 0 <= j < |ts| :: r[j] == if ts[j] == Sym('+') then Sym('>') else ts[j]
  {
    seq(|ts|, j requires 0 <= j < |ts| => if ts[j] == Sym('+') then Sym('>') else ts[j])
  }

  function PlainRest<T>(r: Result<T>): (p: Result<T>) {
    match r
    case Err => Err
    case Ok(value, rest) => Ok(value, Plain(rest))
  }

  lemma PlainFrom(ts: seq<Token>, k: nat)
    requires k <= |ts|
    ensures Plain(ts)[k..] == Plain(ts[k..])
  {
  }

  lemma {:induction false} RedirsPlain(ts: seq<Token>, rs: seq<(string, bool)>)
    ensures Redirs(Plain(ts), rs) == PlainRest(Redirs(ts, rs))
    decreases |ts|
  {
    if Starts(ts, "<>+") && |ts| >= 2 && ts[1].Word? {
      PlainFrom(ts, 2);
      RedirsPlain(ts[2..], rs + [(ts[1].text, ts[0].c != '<')]);
    }
  }

  lemma {:induction false} ArgsPlain(ts: seq<Token>, args: seq<string>, rs: seq<(string, bool)>)
    ensures Args(Plain(ts), args, rs) == PlainRest(Args(ts, args, rs))
    decreases |ts|
  {
    if ts != [] && ts[0].Word? && |args| + 1 < MAXARGS {
      PlainFrom(ts, 1);
      RedirsPlain(ts[1..], rs);
      var next := Redirs(ts[1..], rs);
      if next.Ok? {
        ArgsPlain(next.rest, args + [ts[0].text], next.value);
      }
    }
  }

  lemma {:induction false} ExecPlain(ts: seq<Token>)
    ensures ParseExec(Plain(ts)) == PlainRest(ParseExec(ts))
    decreases |ts|, 0
  {
    if Starts(ts, "(") {
      PlainFrom(ts, 1);
      LinePlain(ts[1..]);
      var c := ParseLine(ts[1..]);
      if c.Ok? && Starts(c.rest, ")") {
        PlainFrom(c.rest, 1);
        RedirsPlain(c.rest[1..], []);
      }
    } else {
      RedirsPlain(ts, []);
      var rs := Redirs(ts, []);
      if rs.Ok? {
        ArgsPlain(rs.rest, [], rs.value);
      }
    }
  }

  lemma {:induction false} PipePlain(ts: seq<Token>)
    ensures ParsePipe(Plain(ts)) == PlainRest(ParsePipe(ts))
    decreases |ts|, 1
  {
    ExecPlain(ts);
    var c := ParseExec(ts);
    if c.Ok? && Starts(c.rest, "|") {
      PlainFrom(c.rest, 1);
      PipePlain(c.rest[1..]);
    }
  }

  lemma {:induction false} BacksPlain(c: Cmd<string>, ts: seq<Token>)
    ensures Backs(c, Plain(ts)) == (Backs(c, ts).0, Plain(Backs(c, ts).1))
    decreases |ts|
  {
    if Starts(ts, "&") {
      PlainFrom(ts, 1);
      BacksPlain(Back(c), ts[1..]);
    }
  }

  /** With `>` for every `>>`, a list of tokens parses to the same command, and fails where it failed. */
  lemma {:induction false} LinePlain(ts: seq<Token>)
    ensures ParseLine(Plain(ts)) == PlainRest(ParseLine(ts))
    decreases |ts|, 2
  {
    PipePlain(ts);
    var c := ParsePipe(ts);
    if c.Ok? {
      BacksPlain(c.value, c.rest);
      var rest := Backs(c.value, c.rest).1;
      if Starts(rest, ";") {
        PlainFrom(rest, 1);
        LinePlain(rest[1..]);
      }
    }
  }
}
