/**
 * The lexer (sheepy.py `Lexer`).  Each `lex_*` rule runs `re.search` and accepts the
 * match only when it starts at offset 0; as `re.search` returns the leftmost match,
 * that is an anchored match at the front of the remaining input, which the functions
 * `Match*` below compute by hand.  `Lex` is the whole `while True` loop as a function;
 * the class `Lexer` is the source's object, which cuts its `input` and appends to its
 * `token` list, and is proved to compute `Lex`.
 */
module Lexing {
  import opened Results
  import opened Chars
  import opened Tokens

  const ShebangLine := "#!/bin/dash\n"

  /** One rule's match at the front of the input: the token it appends, if any, and how much it cuts. */
  datatype Lexeme = Lexeme(tok: Option<Token>, len: nat)

  /**
   * A match cuts a non-empty prefix of `s` and either appends a well-formed token whose
   * source text is exactly that prefix, or appends nothing and the prefix is blank.
   */
  predicate Consumes(l: Lexeme, s: string) {
    0 < l.len <= |s| &&
    match l.tok
    case Some(t) => t.WellFormed() && Text(t) == s[..l.len]
    case None => AllBlank(s[..l.len])
  }

  function Emitted(l: Lexeme): seq<Token> {
    if l.tok.Some? then [l.tok.value] else []
  }

  /** `(#.*)\n`: a `#`, everything up to the first newline, and that newline. */
  function MatchComment(s: string): (m: Option<Lexeme>)
    ensures m.Some? <==> |s| > 0 && s[0] == '#' && '\n' in s
    ensures m.Some? ==> Consumes(m.value, s) && m.value.tok.Some? && m.value.tok.value.Comment?
  {
    if |s| > 0 && s[0] == '#' then
      var i := IndexOf(s, '\n');
      if i < |s| then
        assert s[..i + 1] == s[..i] + "\n";
        Some(Lexeme(Some(Comment(s[..i])), i + 1))
      else None
    else None
  }

  /** `'([^']*)'`: a single quote, anything but a single quote (newlines included), a single quote. */
  function MatchSQuote(s: string): (m: Option<Lexeme>)
    ensures m.Some? <==> |s| > 0 && s[0] == '\'' && '\'' in s[1..]
    ensures m.Some? ==> Consumes(m.value, s) && m.value.tok.Some? && m.value.tok.value.SQuote?
  {
    if |s| > 0 && s[0] == '\'' then
      var i := IndexOf(s[1..], '\'');
      if i < |s| - 1 then
        assert s[..i + 2] == "'" + s[1..i + 1] + "'";
        Some(Lexeme(Some(SQuote(s[..i + 2], s[1..i + 1])), i + 2))
      else None
    else None
  }

  /** `"([^"]*)"`: the same with double quotes. */
  function MatchDQuote(s: string): (m: Option<Lexeme>)
    ensures m.Some? <==> |s| > 0 && s[0] == '"' && '"' in s[1..]
    ensures m.Some? ==> Consumes(m.value, s) && m.value.tok.Some? && m.value.tok.value.DQuote?
  {
    if |s| > 0 && s[0] == '"' then
      var i := IndexOf(s[1..], '"');
      if i < |s| - 1 then
        assert s[..i + 2] == "\"" + s[1..i + 1] + "\"";
        Some(Lexeme(Some(DQuote(s[..i + 2], s[1..i + 1])), i + 2))
      else None
    else None
  }

  /** `\n` */
  function MatchNewline(s: string): (m: Option<Lexeme>)
    ensures m.Some? <==> |s| > 0 && s[0] == '\n'
    ensures m.Some? ==> Consumes(m.value, s) && m.value == Lexeme(Some(Newline), 1)
  {
    if |s| > 0 && s[0] == '\n' then Some(Lexeme(Some(Newline), 1)) else None
  }

  /** `(\w+)=(\S+)`: the maximal run of word characters, `=`, and the maximal non-blank run after it. */
  function MatchAssign(s: string): (m: Option<Lexeme>)
    ensures m.Some? <==>
      var n := Run(s, WordChars);
      0 < n && n + 1 < |s| && s[n] == '=' && !IsBlank(s[n + 1])
    ensures m.Some? ==> Consumes(m.value, s) && m.value.tok.Some? && m.value.tok.value.Assign?
    ensures m.Some? ==> m.value.tok.value.name == s[..Run(s, WordChars)]
    ensures m.Some? ==> m.value.len == |s| || IsBlank(s[m.value.len])
  {
    var n := Run(s, WordChars);
    if 0 < n < |s| && s[n] == '=' then
      var k := Run(s[n + 1..], NonBlank);
      if k > 0 then
        assert s[..n + 1 + k] == s[..n] + "=" + s[n + 1..n + 1 + k];
        Some(Lexeme(Some(Assign(s[..n + 1 + k], s[..n], s[n + 1..n + 1 + k])), n + 1 + k))
      else None
    else None
  }

  /** `\$(\w+)`: a dollar sign and the maximal run of word characters after it. */
  function MatchVar(s: string): (m: Option<Lexeme>)
    ensures m.Some? <==> |s| > 1 && s[0] == '$' && IsWordChar(s[1])
    ensures m.Some? ==> Consumes(m.value, s) && m.value.tok.Some? && m.value.tok.value.Var?
    ensures m.Some? ==> m.value.len == |s| || !IsWordChar(s[m.value.len])
  {
    if |s| > 0 && s[0] == '$' then
      var n := Run(s[1..], WordChars);
      if n > 0 then
        assert s[..n + 1] == "$" + s[1..n + 1];
        Some(Lexeme(Some(Var(s[..n + 1], s[1..n + 1])), n + 1))
      else None
    else None
  }

  /** `\${(\w+)}`: `${`, the maximal run of word characters, and `}`. */
  function MatchVarCurly(s: string): (m: Option<Lexeme>)
    ensures m.Some? <==>
      |s| > 2 && s[0] == '$' && s[1] == '{' &&
      var n := Run(s[2..], WordChars);
      0 < n && n + 2 < |s| && s[n + 2] == '}'
    ensures m.Some? ==> Consumes(m.value, s) && m.value.tok.Some? && m.value.tok.value.Var?
    ensures m.Some? ==> m.value.tok.value.name == s[2..m.value.len - 1]
    ensures m.Some? ==> s[m.value.len - 1] == '}'
  {
    if |s| > 1 && s[0] == '$' && s[1] == '{' then
      var n := Run(s[2..], WordChars);
      if 0 < n && n + 2 < |s| && s[n + 2] == '}' then
        assert s[..n + 3] == "${" + s[2..n + 2] + "}";
        Some(Lexeme(Some(Var(s[..n + 3], s[2..n + 2])), n + 3))
      else None
    else None
  }

  /** `(\S+)`: the maximal non-blank run. */
  function MatchWord(s: string): (m: Option<Lexeme>)
    ensures m.Some? <==> |s| > 0 && !IsBlank(s[0])
    ensures m.Some? ==> Consumes(m.value, s) && m.value.tok.Some? && m.value.tok.value.Word?
    ensures m.Some? ==> m.value.len == |s| || IsBlank(s[m.value.len])
  {
    var n := Run(s, NonBlank);
    if n > 0 then Some(Lexeme(Some(Word(s[..n])), n)) else None
  }

  /** `\s+`: the maximal blank run, newlines included; it appends no token. */
  function MatchEmpty(s: string): (m: Option<Lexeme>)
    ensures m.Some? <==> |s| > 0 && IsBlank(s[0])
    ensures m.Some? ==> Consumes(m.value, s) && m.value.tok.None?
    ensures m.Some? ==> m.value.len == |s| || !IsBlank(s[m.value.len])
  {
    var n := Run(s, Blank);
    if n > 0 then Some(Lexeme(None, n)) else None
  }

  /**
   * One turn of the `while True` loop of `tokenize`: the rules in their priority order,
   * the first that matches winning.  Only the empty input matches none of them, since
   * every character is either blank (`\s+`) or not (`\S+`).
   */
  function Step(s: string): (m: Option<Lexeme>)
    ensures m.Some? ==> Consumes(m.value, s)
    ensures m.None? <==> s == []
  {
    if MatchComment(s).Some? then MatchComment(s)
    else if MatchSQuote(s).Some? then MatchSQuote(s)
    else if MatchDQuote(s).Some? then MatchDQuote(s)
    else if MatchNewline(s).Some? then MatchNewline(s)
    else if MatchAssign(s).Some? then MatchAssign(s)
    else if MatchVar(s).Some? then MatchVar(s)
    else if MatchVarCurly(s).Some? then MatchVarCurly(s)
    else if MatchWord(s).Some? then MatchWord(s)
    else MatchEmpty(s)
  }

  /**
   * The tokens the loop of `tokenize` appends while it cuts `s` down to nothing.  As
   * `Step` fails only on the empty input, the loop's `return None` is never reached and
   * `Lex` is total; every token it appends is well formed.
   */
  function Lex(s: string): (r: seq<Token>)
    ensures forall t :: t in r ==> t.WellFormed()
    decreases |s|
  {
    if s == [] then []
    else
      var l := Step(s).value;
      Emitted(l) + Lex(s[l.len..])
  }

  /**
   * Nothing but blanks is lost: the non-blank characters of the input come out in
   * order, each in exactly one token's text.
   */
  lemma {:induction false} LexKeepsNonBlank(s: string)
    ensures Squeeze(Texts(Lex(s))) == Squeeze(s)
    decreases |s|
  {
    if s != [] {
      var head, tail, emitted := LexFront(s);
      LexKeepsNonBlank(tail);
      if emitted == [] {
        SqueezeBlankRun(s, head, tail);
      } else {
        SqueezeToken(s, head, tail, emitted[0], Lex(tail));
      }
    }
  }

  /** The first turn of the loop cuts a front `head` off `s` and emits at most one token, whose text is `head`. */
  lemma LexFront(s: string) returns (head: string, tail: string, emitted: seq<Token>)
    requires s != []
    ensures s == head + tail && |tail| < |s|
    ensures emitted == [] ==> AllBlank(head) && Lex(s) == Lex(tail)
    ensures emitted != [] ==> emitted == [emitted[0]] && Text(emitted[0]) == head && Lex(s) == [emitted[0]] + Lex(tail)
  {
    var l := Step(s).value;
    head, tail, emitted := s[..l.len], s[l.len..], Emitted(l);
    LexUnfold(s);
    assert s == head + tail;
    if l.tok.None? {
      assert Lex(s) == Lex(tail);
    }
  }

  /** A token whose text is the front of the input keeps that front's non-blank characters. */
  lemma SqueezeToken(s: string, head: string, tail: string, t: Token, rest: seq<Token>)
    requires s == head + tail && Text(t) == head && Squeeze(Texts(rest)) == Squeeze(tail)
    ensures Squeeze(Texts([t] + rest)) == Squeeze(s)
  {
    TextsCons(t, rest);
    SqueezeAppend(head, Texts(rest));
    SqueezeAppend(head, tail);
  }

  /** A blank run cut from the front of the input has no non-blank character to keep. */
  lemma SqueezeBlankRun(s: string, head: string, tail: string)
    requires s == head + tail && AllBlank(head)
    ensures Squeeze(s) == Squeeze(tail)
  {
    SqueezeBlank(head);
    SqueezeAppend(head, tail);
  }

  lemma TextsCons(t: Token, rest: seq<Token>)
    ensures Texts([t] + rest) == Text(t) + Texts(rest)
  {
    assert ([t] + rest)[1..] == rest;
  }

  /** `shebang`: `None` where `m.span()` raises because the directive occurs nowhere. */
  function StripShebang(s: string): (r: Option<string>)
    ensures r.None? <==> forall j :: 0 <= j <= |s| ==> !(ShebangLine <= s[j..])
    ensures ShebangLine <= s ==> r == Some(s[|ShebangLine|..])
    ensures r.Some? && !(ShebangLine <= s) ==> r == Some(s)
  {
    match Find(ShebangLine, s)
    case None => None
    case Some(i) => if i == 0 then Some(s[|ShebangLine|..]) else Some(s)
  }

  /** `tokenize` as a whole: strip the directive line, then run the rules to the end of the input. */
  function LexScript(s: string): (r: Result<seq<Token>>)
    ensures r.Failure? <==> StripShebang(s).None?
    ensures r.Failure? ==> r.error == ShebangNotFound
  {
    match StripShebang(s)
    case None => Failure(ShebangNotFound)
    case Some(body) => Success(Lex(body))
  }

  /** Which rule `Step` picks: the first in priority order that matches. */
  lemma StepChoice(s: string)
    ensures MatchComment(s).Some? ==> Step(s) == MatchComment(s)
    ensures MatchComment(s).None? && MatchSQuote(s).Some? ==> Step(s) == MatchSQuote(s)
    ensures MatchComment(s).None? && MatchSQuote(s).None? && MatchDQuote(s).Some? ==> Step(s) == MatchDQuote(s)
    ensures MatchComment(s).None? && MatchSQuote(s).None? && MatchDQuote(s).None? && MatchNewline(s).Some?
      ==> Step(s) == MatchNewline(s)
    ensures (MatchComment(s).None? && MatchSQuote(s).None? && MatchDQuote(s).None? && MatchNewline(s).None?
             && MatchAssign(s).Some?) ==> Step(s) == MatchAssign(s)
    ensures (MatchComment(s).None? && MatchSQuote(s).None? && MatchDQuote(s).None? && MatchNewline(s).None?
             && MatchAssign(s).None? && MatchVar(s).Some?) ==> Step(s) == MatchVar(s)
    ensures (MatchComment(s).None? && MatchSQuote(s).None? && MatchDQuote(s).None? && MatchNewline(s).None?
             && MatchAssign(s).None? && MatchVar(s).None? && MatchVarCurly(s).Some?) ==> Step(s) == MatchVarCurly(s)
    ensures MatchComment(s).None? && MatchSQuote(s).None? && MatchDQuote(s).None? && MatchNewline(s).None?
      && MatchAssign(s).None? && MatchVar(s).None? && MatchVarCurly(s).None? && MatchWord(s).Some?
      ==> Step(s) == MatchWord(s)
    ensures MatchComment(s).None? && MatchSQuote(s).None? && MatchDQuote(s).None? && MatchNewline(s).None?
      && MatchAssign(s).None? && MatchVar(s).None? && MatchVarCurly(s).None? && MatchWord(s).None?
      ==> Step(s) == MatchEmpty(s)
  {
  }

  /**
   * Consequences of the rule order: an assignment is never read as a word, a plain
   * variable is read as a variable (its `$` is not a word character, so it is no
   * assignment), and so is a braced one.
   */
  lemma StepRuleOrder(s: string)
    ensures MatchAssign(s).Some? ==> Step(s) == MatchAssign(s)
    ensures |s| > 1 && s[0] == '$' && IsWordChar(s[1]) ==> Step(s) == MatchVar(s)
    ensures MatchVarCurly(s).Some? ==> Step(s) == MatchVarCurly(s)
  {
    if MatchAssign(s).Some? {
      assert IsWordChar(s[0]);
    }
  }

  /** One turn of the loop keeps the appended tokens in step with `Lex`. */
  lemma Advance(before: seq<Token>, t0: seq<Token>, s0: string, l: Lexeme)
    requires |before| <= |t0|
    requires Step(s0) == Some(l)
    ensures l.len <= |s0|
    ensures t0[|before|..] + Lex(s0) == (t0 + Emitted(l))[|before|..] + Lex(s0[l.len..])
  {
    LexUnfold(s0);
    AppendShift(t0, |before|, Emitted(l), Lex(s0[l.len..]), Lex(s0));
  }

  lemma EmptyAppend<T>(x: seq<T>)
    ensures [] + x == x && x + [] == x
  {
  }

  lemma PrefixKept<T>(t0: seq<T>, b: nat, e: seq<T>)
    requires b <= |t0|
    ensures b <= |t0 + e| && (t0 + e)[..b] == t0[..b]
  {
  }

  lemma AppendShift<T>(t0: seq<T>, b: nat, e: seq<T>, y: seq<T>, whole: seq<T>)
    requires b <= |t0| && whole == e + y
    ensures t0[b..] + whole == (t0 + e)[b..] + y
  {
    assert (t0 + e)[b..] == t0[b..] + e;
    assert (t0[b..] + e) + y == t0[b..] + (e + y);
  }

  /** A blank that is not a newline can only start a `\s+` run. */
  lemma StepBlank(s: string)
    requires s != [] && IsBlank(s[0]) && s[0] != '\n'
    ensures Step(s) == MatchEmpty(s)
  {
    assert Run(s, WordChars) == 0;
  }

  /** One step of `Lex` unfolded. */
  lemma LexUnfold(s: string)
    requires s != []
    ensures Lex(s) == Emitted(Step(s).value) + Lex(s[Step(s).value.len..])
  {
  }

  /**
   * `\s+` takes a newline that follows spaces or tabs into the same blank run, so
   * no `Newline` token is produced for it.
   */
  lemma BlankRunSwallowsNewline(b: string, rest: string)
    requires |b| > 0 && forall i :: 0 <= i < |b| ==> b[i] == ' ' || b[i] == '\t'
    ensures Lex(b + "\n" + rest) == Lex(rest[Run(rest, Blank)..])
    ensures rest == [] || !IsBlank(rest[0]) ==> Lex(b + "\n" + rest) == Lex(rest)
  {
    var s := b + "\n" + rest;
    var k := Run(rest, Blank);
    var n := |b| + 1 + k;
    assert Run(s, Blank) == n by {
      assert s == (b + "\n") + rest;
      assert forall i :: 0 <= i < |b + "\n"| ==> In((b + "\n")[i], Blank);
      RunAppend(b + "\n", rest, Blank);
    }
    assert Step(s) == Some(Lexeme(None, n)) by {
      assert s[0] == b[0];
      StepBlank(s);
    }
    assert Lex(s) == Lex(s[n..]) by {
      LexUnfold(s);
    }
    assert s[n..] == rest[k..];
    if rest == [] || !IsBlank(rest[0]) {
      assert k == 0 && rest[0..] == rest;
    }
  }

  /**
   * A comment keeps its leading `#` in the token and consumes its trailing newline
   * without a `Newline` token of its own.
   */
  lemma CommentKeepsHashAndNewline(c: string, rest: string)
    requires '\n' !in c
    ensures Lex("#" + c + "\n" + rest) == [Comment("#" + c)] + Lex(rest)
  {
    var s := "#" + c + "\n" + rest;
    assert s[|c| + 1] == '\n';
    assert forall j :: 0 <= j < |c| + 1 ==> s[j] == ("#" + c)[j];
    assert IndexOf(s, '\n') == |c| + 1;
    assert s[..|c| + 1] == "#" + c;
    assert Step(s) == Some(Lexeme(Some(Comment("#" + c)), |c| + 2));
    assert s[|c| + 2..] == rest;
  }

  /** A leading directive line is cut once; what follows is lexed as it stands. */
  lemma ShebangCutOnce(s: string)
    ensures LexScript(ShebangLine + s) == Success(Lex(s))
  {
    assert ShebangLine <= ShebangLine + s;
    assert (ShebangLine + s)[|ShebangLine|..] == s;
  }

  class Lexer {
    var input: string
    var token: seq<Token>

    constructor (input: string)
      ensures this.input == input && token == []
    {
      this.input := input;
      token := [];
    }

    /** `tokenize` */
    method Tokenize() returns (r: Result<seq<Token>>)
      modifies this
      ensures LexScript(old(input)).Failure? ==> r == LexScript(old(input))
      ensures LexScript(old(input)).Success? ==> r == Success(old(token) + LexScript(old(input)).value)
      ensures r.Success? ==> token == r.value && input == []
    {
      var found := Shebang();
      if !found {
        return Failure(ShebangNotFound);
      }
      ghost var start := input;
      ghost var before := token;
      assert token[|before|..] == [];
      EmptyAppend(Lex(start));
      while true
        invariant |before| <= |token| && token[..|before|] == before
        invariant Lex(start) == token[|before|..] + Lex(input)
        decreases |input|
      {
        ghost var s0, t0 := input, token;
        var ok := LexNext();
        if ok {
          Advance(before, t0, s0, Step(s0).value);
          PrefixKept(t0, |before|, Emitted(Step(s0).value));
          continue;
        }
        if Eof() {
          assert token == before + token[|before|..];
          EmptyAppend(token[|before|..]);
          return Success(token);
        }
        assert false;
        return Failure(NoRuleMatches);
      }
    }

    /**
     * The rule chain inside the loop of `tokenize`: the `lex_*` rules tried in priority
     * order, the first that matches appending its token and cutting the input.
     */
    method LexNext() returns (ok: bool)
      modifies this
      ensures ok == Step(old(input)).Some?
      ensures ok ==> input == old(input)[Step(old(input)).value.len..]
      ensures ok ==> token == old(token) + Emitted(Step(old(input)).value)
      ensures !ok ==> input == old(input) && token == old(token)
    {
      StepChoice(input);
      ok := LexComment();
      if ok { return; }
      ok := LexSQuote();
      if ok { return; }
      ok := LexDQuote();
      if ok { return; }
      ok := LexNewline();
      if ok { return; }
      ok := LexAssign();
      if ok { return; }
      ok := LexVar();
      if ok { return; }
      ok := LexVarCurly();
      if ok { return; }
      ok := LexWord();
      if ok { return; }
      ok := LexEmpty();
    }

    /** `shebang`: cut the directive line when the input starts with it; `false` where the source raises. */
    method Shebang() returns (found: bool)
      modifies this
      ensures found == StripShebang(old(input)).Some?
      ensures found ==> input == StripShebang(old(input)).value
      ensures token == old(token)
    {
      var m := Find(ShebangLine, input);
      if m.None? {
        return false;
      }
      if m.value == 0 {
        Cut(|ShebangLine|);
      }
      found := true;
    }

    /**
     * What every `lex_*` rule does with its match: append the token, cut the matched
     * prefix and report success; leave everything as it was when there is no match.
     */
    method Accept(m: Option<Lexeme>) returns (ok: bool)
      requires m.Some? ==> m.value.len <= |input|
      modifies this
      ensures ok == m.Some?
      ensures ok ==> input == old(input)[m.value.len..] && token == old(token) + Emitted(m.value)
      ensures !ok ==> input == old(input) && token == old(token)
    {
      if m.None? {
        return false;
      }
      token := token + Emitted(m.value);
      Cut(m.value.len);
      ok := true;
    }

    method LexComment() returns (ok: bool)
      modifies this
      ensures ok == MatchComment(old(input)).Some?
      ensures ok ==> input == old(input)[MatchComment(old(input)).value.len..]
      ensures ok ==> token == old(token) + Emitted(MatchComment(old(input)).value)
      ensures !ok ==> input == old(input) && token == old(token)
    {
      ok := Accept(MatchComment(input));
    }

    method LexSQuote() returns (ok: bool)
      modifies this
      ensures ok == MatchSQuote(old(input)).Some?
      ensures ok ==> input == old(input)[MatchSQuote(old(input)).value.len..]
      ensures ok ==> token == old(token) + Emitted(MatchSQuote(old(input)).value)
      ensures !ok ==> input == old(input) && token == old(token)
    {
      ok := Accept(MatchSQuote(input));
    }

    method LexDQuote() returns (ok: bool)
      modifies this
      ensures ok == MatchDQuote(old(input)).Some?
      ensures ok ==> input == old(input)[MatchDQuote(old(input)).value.len..]
      ensures ok ==> token == old(token) + Emitted(MatchDQuote(old(input)).value)
      ensures !ok ==> input == old(input) && token == old(token)
    {
      ok := Accept(MatchDQuote(input));
    }

    method LexNewline() returns (ok: bool)
      modifies this
      ensures ok == MatchNewline(old(input)).Some?
      ensures ok ==> input == old(input)[1..] && token == old(token) + [Newline]
      ensures !ok ==> input == old(input) && token == old(token)
    {
      ok := Accept(MatchNewline(input));
    }

    method LexAssign() returns (ok: bool)
      modifies this
      ensures ok == MatchAssign(old(input)).Some?
      ensures ok ==> input == old(input)[MatchAssign(old(input)).value.len..]
      ensures ok ==> token == old(token) + Emitted(MatchAssign(old(input)).value)
      ensures !ok ==> input == old(input) && token == old(token)
    {
      ok := Accept(MatchAssign(input));
    }

    method LexVar() returns (ok: bool)
      modifies this
      ensures ok == MatchVar(old(input)).Some?
      ensures ok ==> input == old(input)[MatchVar(old(input)).value.len..]
      ensures ok ==> token == old(token) + Emitted(MatchVar(old(input)).value)
      ensures !ok ==> input == old(input) && token == old(token)
    {
      ok := Accept(MatchVar(input));
    }

    method LexVarCurly() returns (ok: bool)
      modifies this
      ensures ok == MatchVarCurly(old(input)).Some?
      ensures ok ==> input == old(input)[MatchVarCurly(old(input)).value.len..]
      ensures ok ==> token == old(token) + Emitted(MatchVarCurly(old(input)).value)
      ensures !ok ==> input == old(input) && token == old(token)
    {
      ok := Accept(MatchVarCurly(input));
    }

    method LexWord() returns (ok: bool)
      modifies this
      ensures ok == MatchWord(old(input)).Some?
      ensures ok ==> input == old(input)[MatchWord(old(input)).value.len..]
      ensures ok ==> token == old(token) + Emitted(MatchWord(old(input)).value)
      ensures !ok ==> input == old(input) && token == old(token)
    {
      ok := Accept(MatchWord(input));
    }

    /** `lex_empty`: cuts a blank run and appends nothing. */
    method LexEmpty() returns (ok: bool)
      modifies this
      ensures ok == MatchEmpty(old(input)).Some?
      ensures ok ==> input == old(input)[MatchEmpty(old(input)).value.len..] && token == old(token)
      ensures !ok ==> input == old(input) && token == old(token)
    {
      ok := Accept(MatchEmpty(input));
    }

    function Eof(): (b: bool)
      reads this
      ensures b <==> Step(input).None?
    {
      input == []
    }

    /** `cut`: drop the input up to the end of the match. */
    method Cut(end: nat)
      requires end <= |input|
      modifies this
      ensures input == old(input)[end..] && token == old(token)
    {
      input := input[end..];
    }
  }
}
