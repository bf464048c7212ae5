/**
 * `Parser`: recursive descent over the token list with a `pos` cursor that the
 * `consume_*` methods advance and the `for`, `if`, `while` and `test` parsers put back
 * when they fail.  The source appends to the caller's `stmt` list in place; here each
 * `parse_*` method takes that list as `stmt` and returns it, appended to or not, as `out`.
 * The only exception parsing can raise is `GlobExpArity`, from an assignment value with
 * a glob character; a `Result` carries it up through every level.
 */
module Parsing {
  import opened Results
  import opened Tokens
  import opened Syntax
  import opened WordValues

  /** The words that end a statement list without being consumed by it. */
  const Terminators: seq<string> := ["done", "elif", "else", "fi"]

  /** Token `p` exists and is a word whose text is `s`. */
  predicate WordWithAt(ts: seq<Token>, p: nat, s: string) {
    p < |ts| && IsWordWith(ts[p], s)
  }

  /** Token `p`, when it exists and is a word. */
  function WordAt(ts: seq<Token>, p: nat): (r: Option<WordToken>)
    ensures r.Some? <==> p < |ts| && ts[p].IsWord()
    ensures r.Some? ==> r.value == ts[p]
  {
    if p < |ts| && ts[p].IsWord() then Some(ts[p]) else None
  }

  /** `ws` are exactly the tokens `i` up to `j`, all of them words. */
  predicate WordRun(ts: seq<Token>, i: nat, j: nat, ws: seq<WordToken>) {
    i <= j && |ws| == j - i && forall k :: 0 <= k < |ws| ==> i + k < |ts| && ws[k] == ts[i + k]
  }

  /**
   * `parse_pred_file_access` as a function of the tokens: `test`, one of `-r`, `-w`, `-x`,
   * and a file word.  Any other operator word makes this form fail.
   */
  function FileAccessAt(ts: seq<Token>, p: nat): (r: Option<Test>)
    ensures r.Some? ==> TestWellFormed(r.value) && r.value.FileAccessTestExp? && p + 3 <= |ts|
  {
    if WordWithAt(ts, p, "test") && WordAt(ts, p + 1).Some? &&
       ts[p + 1].str in FileAccessOperators && WordAt(ts, p + 2).Some?
    then Some(FileAccessTestExp(ts[p + 1], ts[p + 2]))
    else None
  }

  /** `parse_pred_str_cmp` as a function of the tokens: `test`, a word, `=` or `!=`, a word. */
  function StrCmpAt(ts: seq<Token>, p: nat): (r: Option<Test>)
    ensures r.Some? ==> TestWellFormed(r.value) && r.value.CmpTestExp? && p + 4 <= |ts|
  {
    if WordWithAt(ts, p, "test") && WordAt(ts, p + 1).Some? && WordAt(ts, p + 2).Some? &&
       ts[p + 2].str in StrCmpOperators && WordAt(ts, p + 3).Some?
    then Some(CmpTestExp(ts[p + 2], ts[p + 1], ts[p + 3]))
    else None
  }

  /** `parse_pred`: the file-access form first, then the comparison. */
  function PredAt(ts: seq<Token>, p: nat): (r: Option<Test>)
    ensures r.Some? ==> TestWellFormed(r.value) && p + PredLen(r.value) <= |ts|
  {
    if FileAccessAt(ts, p).Some? then FileAccessAt(ts, p) else StrCmpAt(ts, p)
  }

  /** How many tokens the predicate `t` took. */
  function PredLen(t: Test): nat {
    if t.FileAccessTestExp? then 3 else 4
  }

  /** Token `p` exists and is a newline. */
  predicate NewlineAt(ts: seq<Token>, p: nat) {
    p < |ts| && ts[p].Newline?
  }

  /** `next_is_terminator` at token `p`: one of the words that end a statement list. */
  predicate TerminatorAt(ts: seq<Token>, p: nat) {
    WordWithAt(ts, p, "done") || WordWithAt(ts, p, "elif") || WordWithAt(ts, p, "else") || WordWithAt(ts, p, "fi")
  }

  /**
   * The maximal run of words from token `p`: what the loops of `parse_echo`, `parse_for`
   * and `parse_cmd` collect.
   */
  function WordsAt(ts: seq<Token>, p: nat): (ws: seq<WordToken>)
    ensures WordRun(ts, p, p + |ws|, ws) && WordAt(ts, p + |ws|).None?
    ensures p <= |ts| ==> p + |ws| <= |ts|
    decreases |ts| - p
  {
    if WordAt(ts, p).None? then [] else [ts[p]] + WordsAt(ts, p + 1)
  }

  /*
   * The grammar the `Parser` class recognises, as functions of the token list and a
   * position.  A statement form gives `Failure` where the source raises, `Success(None)`
   * where its `parse_*` method returns False (the cursor and the caller's list are then
   * as they were), and otherwise the statement it appends and the position after it.
   */

  /**
   * `parse_sequence` from token `p`: the statements appended, in order, and the position
   * where the loop stops, the end of the tokens or a terminator it does not consume.
   */
  function SeqAt(ts: seq<Token>, p: nat): (r: Result<(seq<Exp>, nat)>)
    requires p <= |ts| + 1
    ensures r.Failure? ==> r.error == GlobExpArity
    ensures r.Success? ==>
      AllWellFormed(r.value.0) && p <= r.value.1 <= |ts| + 1 && (r.value.1 >= |ts| || TerminatorAt(ts, r.value.1))
    decreases |ts| + 1 - p, 3
  {
    if p >= |ts| || TerminatorAt(ts, p) then Success(([], p))
    else
      var s :- StmtAt(ts, p);
      var rest :- SeqAt(ts, s.1);
      assert forall i :: 1 <= i < |[s.0] + rest.0| ==> ([s.0] + rest.0)[i] == rest.0[i - 1];
      Success(([s.0] + rest.0, rest.1))
  }

  /**
   * One turn of the loop of `parse_sequence` at token `p`, which is neither past the end
   * nor a terminator: the statement forms in the source's order.  `parse_cmd` comes last;
   * the token is then a word, so it always succeeds and the loop's `return False` is never
   * reached.  A comment moves the cursor by two, skipping the token after it.
   */
  function StmtAt(ts: seq<Token>, p: nat): (r: Result<(Exp, nat)>)
    requires p < |ts| && !TerminatorAt(ts, p)
    ensures r.Failure? ==> r.error == GlobExpArity
    ensures r.Success? ==> WellFormed(r.value.0) && p < r.value.1 <= |ts| + 1
    decreases |ts| + 1 - p, 2
  {
    var t := ts[p];
    if t.Comment? then Success((CommentExp(t.content), p + 2))
    else if t.Newline? then Success((NewlineExp, p + 1))
    else if t.Assign? then
      var v :- AssignValue(t.value);
      Success((AssignExp(t.name, v, ListTyp), p + 1))
    else if IsWordWith(t, "cd") then
      var arg := WordAt(ts, p + 1);
      Success((CdExp(arg), if arg.Some? then p + 2 else p + 1))
    else if IsWordWith(t, "echo") then
      var args := WordsAt(ts, p + 1);
      Success((EchoExp(args), p + 1 + |args|))
    else if IsWordWith(t, "read") then
      var arg := WordAt(ts, p + 1);
      Success((ReadExp(arg), if arg.Some? then p + 2 else p + 1))
    else if IsWordWith(t, "exit") then
      var code := WordAt(ts, p + 1);
      Success((ExitExp(code), if code.Some? then p + 2 else p + 1))
    else
      var f :- ForAt(ts, p);
      if f.Some? then Success(f.value)
      else
        var i :- IfAt(ts, p);
        if i.Some? then Success(i.value)
        else
          var w :- WhileAt(ts, p);
          if w.Some? then Success(w.value)
          else
            var cmd := WordsAt(ts, p);
            Success((CmdExp(cmd), p + |cmd|))
  }

  /**
   * The head of `parse_for`: `for`, a word, `in`, words, newline, `do`, newline.  The loop
   * variable, the words to iterate over and the position of the body.
   */
  function ForHeadAt(ts: seq<Token>, p: nat): (r: Option<(WordToken, seq<WordToken>, nat)>)
    ensures r.Some? ==>
      WordWithAt(ts, p, "for") && WordWithAt(ts, p + 2, "in") && r.value.2 == p + 6 + |r.value.1| &&
      NewlineAt(ts, r.value.2 - 3) && WordWithAt(ts, r.value.2 - 2, "do") && NewlineAt(ts, r.value.2 - 1)
  {
    var loopVar := WordAt(ts, p + 1);
    if !WordWithAt(ts, p, "for") || loopVar.None? || !WordWithAt(ts, p + 2, "in") then None
    else
      var iter := WordsAt(ts, p + 3);
      var q := p + 3 + |iter|;
      if !NewlineAt(ts, q) || !WordWithAt(ts, q + 1, "do") || !NewlineAt(ts, q + 2) then None
      else Some((loopVar.value, iter, q + 3))
  }

  /** `parse_for`: the head, a statement list, `done`. */
  function ForAt(ts: seq<Token>, p: nat): (r: Result<Option<(Exp, nat)>>)
    requires p <= |ts| + 1
    ensures r.Failure? ==> r.error == GlobExpArity
    ensures r.Success? && r.value.Some? ==>
      WellFormed(r.value.value.0) && r.value.value.0.ForExp? && p < r.value.value.1 <= |ts| &&
      WordWithAt(ts, p, "for") && WordWithAt(ts, r.value.value.1 - 1, "done")
    decreases |ts| + 1 - p, 1
  {
    match ForHeadAt(ts, p)
    case None => Success(None)
    case Some((loopVar, iter, b)) =>
      var body :- SeqAt(ts, b);
      if WordWithAt(ts, body.1, "done") then Success(Some((ForExp(loopVar, iter, body.0), body.1 + 1)))
      else Success(None)
  }

  /**
   * What `parse_if` reads after `if` and after each `elif`: a predicate, newline, `then`,
   * newline and a statement list.  `None` where one of them is missing.
   */
  function ThenAt(ts: seq<Token>, p: nat): (r: Result<Option<(Test, seq<Exp>, nat)>>)
    requires p <= |ts| + 1
    ensures r.Failure? ==> r.error == GlobExpArity
    ensures r.Success? && r.value.Some? ==>
      PredAt(ts, p) == Some(r.value.value.0) && TestWellFormed(r.value.value.0) &&
      AllWellFormed(r.value.value.1) && p < r.value.value.2 <= |ts| + 1
    decreases |ts| + 1 - p, 1
  {
    var test := PredAt(ts, p);
    if test.None? then Success(None)
    else
      var q := p + PredLen(test.value);
      if !NewlineAt(ts, q) || !WordWithAt(ts, q + 1, "then") || !NewlineAt(ts, q + 2) then Success(None)
      else
        var body :- SeqAt(ts, q + 3);
        Success(Some((test.value, body.0, body.1)))
  }

  /** A well-formed clause in front of well-formed clauses. */
  lemma ClausesWellFormed(test: Test, body: seq<Exp>, pred: seq<Test>, branch: seq<Block>)
    requires TestWellFormed(test) && AllWellFormed(body)
    requires forall i :: 0 <= i < |pred| ==> TestWellFormed(pred[i])
    requires forall i :: 0 <= i < |branch| ==> AllWellFormed(branch[i].stmts)
    ensures forall i :: 0 <= i < |[test] + pred| ==> TestWellFormed(([test] + pred)[i])
    ensures forall i :: 0 <= i < |[Block(body)] + branch| ==> AllWellFormed(([Block(body)] + branch)[i].stmts)
  {
    assert forall i :: 1 <= i < |[test] + pred| ==> ([test] + pred)[i] == pred[i - 1];
    assert forall i :: 1 <= i < |[Block(body)] + branch| ==> ([Block(body)] + branch)[i] == branch[i - 1];
  }

  /**
   * The `elif` loop of `parse_if` from token `p`: the predicates and bodies of the clauses
   * and the position after them; `None` when a clause after an `elif` is incomplete.
   */
  function ElifsAt(ts: seq<Token>, p: nat): (r: Result<Option<(seq<Test>, seq<Block>, nat)>>)
    requires p <= |ts| + 1
    ensures r.Failure? ==> r.error == GlobExpArity
    ensures r.Success? && r.value.Some? ==>
      var (pred, branch, q) := r.value.value;
      |pred| == |branch| && p <= q <= |ts| + 1 && !WordWithAt(ts, q, "elif") &&
      (forall i :: 0 <= i < |pred| ==> TestWellFormed(pred[i])) &&
      (forall i :: 0 <= i < |branch| ==> AllWellFormed(branch[i].stmts))
    decreases |ts| + 1 - p, 1
  {
    if !WordWithAt(ts, p, "elif") then Success(Some(([], [], p)))
    else
      var clause :- ThenAt(ts, p + 1);
      if clause.None? then Success(None)
      else
        var (test, body, q) := clause.value;
        var rest :- ElifsAt(ts, q);
        if rest.None? then Success(None)
        else
          var (pred, branch, e) := rest.value;
          ClausesWellFormed(test, body, pred, branch);
          Success(Some(([test] + pred, [Block(body)] + branch, e)))
  }

  /**
   * `parse_if`: `if` and a clause, the `elif` clauses, then what `IfClose` reads.  The
   * first predicate is the one after `if`.
   */
  function IfAt(ts: seq<Token>, p: nat): (r: Result<Option<(Exp, nat)>>)
    requires p <= |ts| + 1
    ensures r.Failure? ==> r.error == GlobExpArity
    ensures r.Success? && r.value.Some? ==>
      WellFormed(r.value.value.0) && r.value.value.0.IfExp? && p < r.value.value.1 <= |ts| &&
      WordWithAt(ts, p, "if") && PredAt(ts, p + 1) == Some(r.value.value.0.pred[0]) &&
      WordWithAt(ts, r.value.value.1 - 1, "fi")
    decreases |ts| + 1 - p, 1
  {
    if !WordWithAt(ts, p, "if") then Success(None)
    else
      var first :- ThenAt(ts, p + 1);
      if first.None? then Success(None)
      else
        var (test, body, q) := first.value;
        var elifs :- ElifsAt(ts, q);
        if elifs.None? then Success(None)
        else
          var (pred, branch, e) := elifs.value;
          ClausesWellFormed(test, body, pred, branch);
          IfClose(ts, e, [test] + pred, [Block(body)] + branch)
  }

  /**
   * The end of `parse_if` at token `p`, after the `elif` clauses: an optional `else`,
   * newline and statement list, then `fi`.  The `IfExp` has one more branch than
   * predicates exactly when there was an `else`.
   */
  function IfClose(ts: seq<Token>, p: nat, pred: seq<Test>, branch: seq<Block>): (r: Result<Option<(Exp, nat)>>)
    requires p <= |ts| + 1 && 1 <= |pred| == |branch|
    requires forall i :: 0 <= i < |pred| ==> TestWellFormed(pred[i])
    requires forall i :: 0 <= i < |branch| ==> AllWellFormed(branch[i].stmts)
    ensures r.Failure? ==> r.error == GlobExpArity
    ensures r.Success? && r.value.Some? ==>
      var (e, q) := r.value.value;
      WellFormed(e) && e.IfExp? && e.pred == pred && e.branch[..|pred|] == branch && p < q <= |ts| &&
      WordWithAt(ts, q - 1, "fi") && (|e.branch| == |pred| + 1 <==> WordWithAt(ts, p, "else"))
    decreases |ts| + 1 - p, 0
  {
    if WordWithAt(ts, p, "else") then
      if !NewlineAt(ts, p + 1) then Success(None)
      else
        var last :- SeqAt(ts, p + 2);
        if WordWithAt(ts, last.1, "fi") then
          assert (branch + [Block(last.0)])[..|pred|] == branch;
          Success(Some((IfExp(pred, branch + [Block(last.0)]), last.1 + 1)))
        else Success(None)
    else if WordWithAt(ts, p, "fi") then Success(Some((IfExp(pred, branch), p + 1)))
    else Success(None)
  }

  /**
   * The head of `parse_while`: `while`, a predicate, newline, `do`, newline.  The
   * predicate and the position of the body.
   */
  function WhileHeadAt(ts: seq<Token>, p: nat): (r: Option<(Test, nat)>)
    ensures r.Some? ==>
      WordWithAt(ts, p, "while") && PredAt(ts, p + 1) == Some(r.value.0) &&
      r.value.1 == p + 4 + PredLen(r.value.0) &&
      NewlineAt(ts, r.value.1 - 3) && WordWithAt(ts, r.value.1 - 2, "do") && NewlineAt(ts, r.value.1 - 1)
  {
    var test := PredAt(ts, p + 1);
    if !WordWithAt(ts, p, "while") || test.None? then None
    else
      var q := p + 1 + PredLen(test.value);
      if !NewlineAt(ts, q) || !WordWithAt(ts, q + 1, "do") || !NewlineAt(ts, q + 2) then None
      else Some((test.value, q + 3))
  }

  /** `parse_while`: the head, a statement list, `done`. */
  function WhileAt(ts: seq<Token>, p: nat): (r: Result<Option<(Exp, nat)>>)
    requires p <= |ts| + 1
    ensures r.Failure? ==> r.error == GlobExpArity
    ensures r.Success? && r.value.Some? ==>
      WellFormed(r.value.value.0) && r.value.value.0.WhileExp? && p < r.value.value.1 <= |ts| &&
      WordWithAt(ts, p, "while") && PredAt(ts, p + 1) == Some(r.value.value.0.cond) &&
      WordWithAt(ts, r.value.value.1 - 1, "done")
    decreases |ts| + 1 - p, 1
  {
    match WhileHeadAt(ts, p)
    case None => Success(None)
    case Some((test, b)) =>
      var body :- SeqAt(ts, b);
      if WordWithAt(ts, body.1, "done") then Success(Some((WhileExp(test, body.0), body.1 + 1)))
      else Success(None)
  }

  /**
   * A statement parser called with list `stmt` at cursor `p` did what the grammar's `a`
   * says: raised its exception; or returned False with the list and the cursor as they
   * were; or returned True with the statement appended and the cursor after it.
   */
  predicate Follows(a: Result<Option<(Exp, nat)>>, stmt: seq<Exp>, p: nat, r: Result<bool>, out: seq<Exp>, q: nat) {
    match a
    case Failure(e) => r == Failure(e)
    case Success(None) => r == Success(false) && out == stmt && q == p
    case Success(Some((e, next))) => r == Success(true) && out == stmt + [e] && q == next
  }

  /** The statements `done` followed by those of `a`, or the exception `a` raises. */
  function Prefixed(done: seq<Exp>, a: Result<(seq<Exp>, nat)>): Result<(seq<Exp>, nat)> {
    if a.Failure? then a else Success((done + a.value.0, a.value.1))
  }

  lemma PrefixedTwice(done: seq<Exp>, e: Exp, a: Result<(seq<Exp>, nat)>)
    ensures Prefixed(done, Prefixed([e], a)) == Prefixed(done + [e], a)
  {
    if a.Success? {
      assert done + ([e] + a.value.0) == (done + [e]) + a.value.0;
    }
  }

  /** The clauses `pred` and `branch` followed by those of `a`, or what `a` gives otherwise. */
  function ElifsPrefixed(pred: seq<Test>, branch: seq<Block>, a: Result<Option<(seq<Test>, seq<Block>, nat)>>)
    : Result<Option<(seq<Test>, seq<Block>, nat)>>
  {
    if a.Failure? || a.value.None? then a
    else Success(Some((pred + a.value.value.0, branch + a.value.value.1, a.value.value.2)))
  }

  lemma ElifsPrefixedTwice(pred: seq<Test>, branch: seq<Block>, t: Test, b: Block,
                           a: Result<Option<(seq<Test>, seq<Block>, nat)>>)
    ensures ElifsPrefixed(pred, branch, ElifsPrefixed([t], [b], a)) == ElifsPrefixed(pred + [t], branch + [b], a)
  {
    if a.Success? && a.value.Some? {
      assert pred + ([t] + a.value.value.0) == (pred + [t]) + a.value.value.0;
      assert branch + ([b] + a.value.value.1) == (branch + [b]) + a.value.value.1;
    }
  }

  /** One `elif` clause of `ElifsAt`, followed by the clauses after it. */
  lemma ElifsAtStep(ts: seq<Token>, p: nat)
    requires p <= |ts| + 1 && WordWithAt(ts, p, "elif")
    ensures var c := ThenAt(ts, p + 1);
      (c.Failure? ==> ElifsAt(ts, p) == Failure(c.error)) &&
      (c.Success? && c.value.None? ==> ElifsAt(ts, p) == Success(None)) &&
      (c.Success? && c.value.Some? ==>
        ElifsAt(ts, p) == ElifsPrefixed([c.value.value.0], [Block(c.value.value.1)], ElifsAt(ts, c.value.value.2)))
  {
  }

  class Parser {
    const token: seq<Token>
    var pos: nat

    /** `pos` passes the end by at most one: only a comment's extra step can take it there. */
    predicate Valid()
      reads this
    {
      pos <= |token| + 1
    }

    constructor(token: seq<Token>)
      ensures this.token == token && pos == 0 && Valid()
    {
      this.token := token;
      pos := 0;
    }

    function PosOutOfRange(): (b: bool)
      reads this
      ensures b ==> WordAt(token, pos).None? && !NewlineAt(token, pos) && !TerminatorAt(token, pos)
    {
      pos >= |token|
    }

    function NextIsComment(): (b: bool)
      reads this
      ensures b ==> !NextIsWord() && !NextIsNewline()
    {
      !PosOutOfRange() && token[pos].Comment?
    }

    function NextIsWord(): (b: bool)
      reads this
      ensures b <==> WordAt(token, pos).Some?
    {
      !PosOutOfRange() && token[pos].IsWord()
    }

    function NextIsWordWith(keyword: string): (b: bool)
      reads this
      ensures b ==> NextIsWord() && token[pos].str == keyword
    {
      WordWithAt(token, pos, keyword)
    }

    function NextIsNewline(): (b: bool)
      reads this
      ensures b ==> !NextIsWord()
    {
      NewlineAt(token, pos)
    }

    /** An assignment is a word: `Assign` is a subclass of `Word`. */
    function NextIsAssign(): (b: bool)
      reads this
      ensures b ==> NextIsWord()
    {
      !PosOutOfRange() && token[pos].Assign?
    }

    function NextIsTerminator(): (b: bool)
      reads this
      ensures b <==> NextIsWordWith("done") || NextIsWordWith("elif") || NextIsWordWith("else") || NextIsWordWith("fi")
    {
      TerminatorAt(token, pos)
    }

    method ConsumeNextComment() returns (c: Option<Token>)
      modifies this
      ensures old(NextIsComment()) ==> c == Some(token[old(pos)]) && c.value.Comment? && pos == old(pos) + 1
      ensures !old(NextIsComment()) ==> c == None && pos == old(pos)
    {
      c := None;
      if NextIsComment() {
        c := Some(token[pos]);
        pos := pos + 1;
      }
    }

    method ConsumeNextWord() returns (w: Option<WordToken>)
      modifies this
      ensures w == WordAt(token, old(pos))
      ensures pos == old(pos) + (if w.Some? then 1 else 0)
    {
      w := None;
      if NextIsWord() {
        w := Some(token[pos]);
        pos := pos + 1;
      }
    }

    method ConsumeNextWordIfIs(keyword: string) returns (ok: bool)
      modifies this
      ensures ok == old(NextIsWordWith(keyword))
      ensures pos == old(pos) + (if ok then 1 else 0)
    {
      ok := false;
      if NextIsWordWith(keyword) {
        pos := pos + 1;
        ok := true;
      }
    }

    method ConsumeNextNewline() returns (ok: bool)
      modifies this
      ensures ok == old(NextIsNewline())
      ensures pos == old(pos) + (if ok then 1 else 0)
    {
      ok := false;
      if NextIsNewline() {
        pos := pos + 1;
        ok := true;
      }
    }

    method ConsumeNextAssign() returns (t: Option<Token>)
      modifies this
      ensures old(NextIsAssign()) ==> t == Some(token[old(pos)]) && t.value.Assign? && pos == old(pos) + 1
      ensures !old(NextIsAssign()) ==> t == None && pos == old(pos)
    {
      t := None;
      if NextIsAssign() {
        t := Some(token[pos]);
        pos := pos + 1;
      }
    }

    method ParseNewline(stmt: seq<Exp>) returns (ok: bool, out: seq<Exp>)
      modifies this
      ensures ok == old(NextIsNewline())
      ensures ok ==> out == stmt + [NewlineExp] && pos == old(pos) + 1
      ensures !ok ==> out == stmt && pos == old(pos)
    {
      out := stmt;
      ok := ConsumeNextNewline();
      if ok {
        out := out + [NewlineExp];
      }
    }

    /** The cursor moves past the comment and then once more: the token after a comment is skipped. */
    method ParseComment(stmt: seq<Exp>) returns (ok: bool, out: seq<Exp>)
      modifies this
      ensures ok == old(NextIsComment())
      ensures ok ==> out == stmt + [CommentExp(token[old(pos)].content)] && pos == old(pos) + 2
      ensures !ok ==> out == stmt && pos == old(pos)
    {
      out := stmt;
      var c := ConsumeNextComment();
      ok := c.Some?;
      if ok {
        out := out + [CommentExp(c.value.content)];
        pos := pos + 1;
      }
    }

    /**
     * An assignment token becomes an `AssignExp` of list type whose value is split at runs of
     * spaces; a value with a glob character raises.
     */
    method ParseAssign(stmt: seq<Exp>) returns (r: Result<bool>, out: seq<Exp>)
      modifies this
      ensures !old(NextIsAssign()) ==> r == Success(false) && out == stmt && pos == old(pos)
      ensures old(NextIsAssign()) ==> pos == old(pos) + 1 && (r.Failure? <==> IsGlobStr(token[old(pos)].value))
      ensures r.Failure? ==> r.error == GlobExpArity
      ensures r.Success? && old(NextIsAssign()) ==>
        r.value &&
        out == stmt + [AssignExp(token[old(pos)].name, AssignValue(token[old(pos)].value).value, ListTyp)] &&
        WellFormed(out[|stmt|])
    {
      out := stmt;
      var t := ConsumeNextAssign();
      if t.None? {
        return Success(false), out;
      }
      var value := AssignValue(t.value.value);
      if value.Failure? {
        return Failure(value.error), out;
      }
      out := out + [AssignExp(t.value.name, value.value, ListTyp)];
      r := Success(true);
    }

    method ParseCd(stmt: seq<Exp>) returns (ok: bool, out: seq<Exp>)
      modifies this
      ensures ok == old(NextIsWordWith("cd"))
      ensures ok ==>
        var arg := WordAt(token, old(pos) + 1);
        out == stmt + [CdExp(arg)] && pos == old(pos) + (if arg.Some? then 2 else 1)
      ensures !ok ==> out == stmt && pos == old(pos)
    {
      out := stmt;
      ok := ConsumeNextWordIfIs("cd");
      if ok {
        var arg := ConsumeNextWord();
        out := out + [CdExp(arg)];
      }
    }

    method ParseExit(stmt: seq<Exp>) returns (ok: bool, out: seq<Exp>)
      modifies this
      ensures ok == old(NextIsWordWith("exit"))
      ensures ok ==>
        var code := WordAt(token, old(pos) + 1);
        out == stmt + [ExitExp(code)] && pos == old(pos) + (if code.Some? then 2 else 1)
      ensures !ok ==> out == stmt && pos == old(pos)
    {
      out := stmt;
      ok := ConsumeNextWordIfIs("exit");
      if ok {
        var exitCode: Option<WordToken> := None;
        if NextIsWord() {
          exitCode := ConsumeNextWord();
        }
        out := out + [ExitExp(exitCode)];
      }
    }

    method ParseRead(stmt: seq<Exp>) returns (ok: bool, out: seq<Exp>)
      modifies this
      ensures ok == old(NextIsWordWith("read"))
      ensures ok ==>
        var arg := WordAt(token, old(pos) + 1);
        out == stmt + [ReadExp(arg)] && pos == old(pos) + (if arg.Some? then 2 else 1)
      ensures !ok ==> out == stmt && pos == old(pos)
    {
      out := stmt;
      ok := ConsumeNextWordIfIs("read");
      if ok {
        var arg := ConsumeNextWord();
        out := out + [ReadExp(arg)];
      }
    }

    /** `echo` and every word after it, up to the first token that is not a word. */
    method ParseEcho(stmt: seq<Exp>) returns (ok: bool, out: seq<Exp>)
      requires Valid()
      modifies this
      ensures Valid()
      ensures ok == old(NextIsWordWith("echo"))
      ensures ok ==>
        var args := WordsAt(token, old(pos) + 1);
        out == stmt + [EchoExp(args)] && pos == old(pos) + 1 + |args|
      ensures !ok ==> out == stmt && pos == old(pos)
    {
      out := stmt;
      ok := ConsumeNextWordIfIs("echo");
      if ok {
        var args := ConsumeWords();
        out := out + [EchoExp(args)];
      }
    }

    /** The loop `while (t := self.consume_next_word()) != None` of `parse_echo` and `parse_for`. */
    method ConsumeWords() returns (ws: seq<WordToken>)
      requires Valid()
      modifies this
      ensures Valid()
      ensures ws == WordsAt(token, old(pos)) && pos == old(pos) + |ws|
    {
      ws := [];
      var next := ConsumeNextWord();
      while next.Some?
        invariant Valid()
        invariant next == WordAt(token, old(pos) + |ws|)
        invariant pos == old(pos) + |ws| + (if next.Some? then 1 else 0)
        invariant WordsAt(token, old(pos)) == ws + WordsAt(token, old(pos) + |ws|)
        decreases |token| + 1 - pos, next.Some?
      {
        assert ws + WordsAt(token, old(pos) + |ws|) == (ws + [next.value]) + WordsAt(token, old(pos) + |ws| + 1);
        ws := ws + [next.value];
        next := ConsumeNextWord();
      }
      assert ws + [] == ws;
    }

    /** The loop of `parse_cmd`: the maximal run of words at the cursor, which may be empty. */
    method ParseCmd(stmt: seq<Exp>) returns (out: seq<Exp>)
      requires Valid()
      modifies this
      ensures Valid()
      ensures var cmd := WordsAt(token, old(pos));
        out == stmt + [CmdExp(cmd)] && pos == old(pos) + |cmd|
    {
      var cmd: seq<WordToken> := [];
      while NextIsWord()
        invariant old(pos) <= pos <= |token| + 1
        invariant pos == old(pos) + |cmd|
        invariant WordsAt(token, old(pos)) == cmd + WordsAt(token, pos)
        decreases |token| + 1 - pos
      {
        var w := ConsumeNextWord();
        assert cmd + WordsAt(token, pos - 1) == (cmd + [w.value]) + WordsAt(token, pos);
        cmd := cmd + [w.value];
      }
      assert cmd + [] == cmd;
      out := stmt + [CmdExp(cmd)];
    }

    method ParsePredFileAccess() returns (t: Option<Test>)
      modifies this
      ensures t == FileAccessAt(token, old(pos))
      ensures pos == old(pos) + (if t.Some? then 3 else 0)
    {
      var bak := pos;
      var ok := ConsumeNextWordIfIs("test");
      if !ok {
        pos := bak;
        return None;
      }
      var op := ConsumeNextWord();
      if op.None? || op.value.str !in FileAccessOperators {
        pos := bak;
        return None;
      }
      var file := ConsumeNextWord();
      if file.None? {
        pos := bak;
        return None;
      }
      t := Some(FileAccessTestExp(op.value, file.value));
    }

    method ParsePredStrCmp() returns (t: Option<Test>)
      modifies this
      ensures t == StrCmpAt(token, old(pos))
      ensures pos == old(pos) + (if t.Some? then 4 else 0)
    {
      var bak := pos;
      var ok := ConsumeNextWordIfIs("test");
      if !ok {
        pos := bak;
        return None;
      }
      var lhs := ConsumeNextWord();
      if lhs.None? {
        pos := bak;
        return None;
      }
      var op := ConsumeNextWord();
      if op.None? || op.value.str !in StrCmpOperators {
        pos := bak;
        return None;
      }
      var rhs := ConsumeNextWord();
      if rhs.None? {
        pos := bak;
        return None;
      }
      t := Some(CmpTestExp(op.value, lhs.value, rhs.value));
    }

    method ParsePred() returns (t: Option<Test>)
      modifies this
      ensures t == PredAt(token, old(pos))
      ensures pos == old(pos) + (if t.Some? then PredLen(t.value) else 0)
    {
      t := ParsePredFileAccess();
      if t.Some? {
        return;
      }
      t := ParsePredStrCmp();
    }
  
    /** `parse_sequence`: statements up to the end of the tokens or a terminator, which it leaves unconsumed. */
    method ParseSequence(stmt: seq<Exp>) returns (r: Result<bool>, out: seq<Exp>)
      requires Valid()
      modifies this
      decreases |token| + 1 - pos, 3
      ensures Valid()
      ensures var a := SeqAt(token, old(pos));
        (a.Failure? ==> r == Failure(a.error)) &&
        (a.Success? ==> r == Success(true) && out == stmt + a.value.0 && pos == a.value.1)
    {
      out := stmt;
      ghost var done: seq<Exp> := [];
      assert Prefixed(done, SeqAt(token, pos)) == SeqAt(token, pos) by {
        if SeqAt(token, pos).Success? {
          assert done + SeqAt(token, pos).value.0 == SeqAt(token, pos).value.0;
        }
      }
      while true
        invariant Valid() && old(pos) <= pos
        invariant out == stmt + done
        invariant SeqAt(token, old(pos)) == Prefixed(done, SeqAt(token, pos))
        decreases |token| + 1 - pos
      {
        if PosOutOfRange() || NextIsTerminator() {
          assert done + [] == done;
          return Success(true), out;
        }
        ghost var e := StmtAt(token, pos);
        var mid := out;
        r, out := ParseStatement(mid);
        if r.Failure? {
          return;
        }
        PrefixedTwice(done, e.value.0, SeqAt(token, pos));
        done := done + [e.value.0];
      }
    }

    /**
     * One turn of the loop in `parse_sequence`, at a token that is neither the end nor a
     * terminator, trying the statement forms in the source's order.
     */
    method ParseStatement(stmt: seq<Exp>) returns (r: Result<bool>, out: seq<Exp>)
      requires Valid() && !PosOutOfRange() && !NextIsTerminator()
      modifies this
      decreases |token| + 1 - pos, 2
      ensures Valid()
      ensures var a := StmtAt(token, old(pos));
        (a.Failure? ==> r == Failure(a.error)) &&
        (a.Success? ==> r == Success(true) && out == stmt + [a.value.0] && pos == a.value.1)
    {
      var ok: bool;
      ok, out := ParseComment(stmt);
      if ok {
        return Success(true), out;
      }
      ok, out := ParseNewline(stmt);
      if ok {
        return Success(true), out;
      }
      r, out := ParseAssign(stmt);
      if r.Failure? || r.value {
        return;
      }
      ok, out := ParseCd(stmt);
      if ok {
        return Success(true), out;
      }
      ok, out := ParseEcho(stmt);
      if ok {
        return Success(true), out;
      }
      ok, out := ParseRead(stmt);
      if ok {
        return Success(true), out;
      }
      ok, out := ParseExit(stmt);
      if ok {
        return Success(true), out;
      }
      r, out := ParseFor(stmt);
      if r.Failure? || r.value {
        return;
      }
      r, out := ParseIf(stmt);
      if r.Failure? || r.value {
        return;
      }
      r, out := ParseWhile(stmt);
      if r.Failure? || r.value {
        return;
      }
      out := ParseCmd(stmt);
      r := Success(true);
    }

    /** `for` word `in` words, newline, `do`, newline, a statement list, `done`; the cursor goes back on failure. */
    method ParseFor(stmt: seq<Exp>) returns (r: Result<bool>, out: seq<Exp>)
      requires Valid()
      modifies this
      decreases |token| + 1 - pos, 1
      ensures Valid()
      ensures Follows(ForAt(token, old(pos)), stmt, old(pos), r, out, pos)
    {
      var bak := pos;
      out := stmt;
      var head := ParseForHead();
      if head.None? {
        pos := bak;
        return Success(false), stmt;
      }
      var (loopVar, iter) := head.value;
      // `parse_sequence` never returns False, so only an exception ends the body early.
      ghost var seqAt := SeqAt(token, pos);
      var res, body := ParseSequence([]);
      if res.Failure? {
        return Failure(res.error), stmt;
      }
      assert [] + seqAt.value.0 == seqAt.value.0;
      var ok := ConsumeNextWordIfIs("done");
      if !ok {
        pos := bak;
        return Success(false), stmt;
      }
      out := stmt + [ForExp(loopVar, iter, body)];
      r := Success(true);
    }

    /**
     * The steps of `parse_for` before its body: `for`, the loop variable, `in`, the words
     * to iterate over, newline, `do`, newline.  `None` where one of them is missing; the
     * caller then puts the cursor back.
     */
    method ParseForHead() returns (head: Option<(WordToken, seq<WordToken>)>)
      requires Valid()
      modifies this
      ensures Valid()
      ensures var h := ForHeadAt(token, old(pos));
        (h.None? ==> head.None?) && (h.Some? ==> head == Some((h.value.0, h.value.1)) && pos == h.value.2)
    {
      var ok := ConsumeNextWordIfIs("for");
      if !ok {
        return None;
      }
      var loopVar := ConsumeNextWord();
      if loopVar.None? {
        return None;
      }
      ok := ConsumeNextWordIfIs("in");
      if !ok {
        return None;
      }
      var iter := ConsumeWords();
      ok := ConsumeNextNewline();
      if ok {
        ok := ConsumeNextWordIfIs("do");
      }
      if ok {
        ok := ConsumeNextNewline();
      }
      if !ok {
        return None;
      }
      head := Some((loopVar.value, iter));
    }

    /**
     * `if` predicate, newline, `then`, newline, a statement list; any number of `elif`
     * clauses of the same form; then what `ParseIfClose` reads.
     */
    method ParseIf(stmt: seq<Exp>) returns (r: Result<bool>, out: seq<Exp>)
      requires Valid()
      modifies this
      decreases |token| + 1 - pos, 1
      ensures Valid()
      ensures Follows(IfAt(token, old(pos)), stmt, old(pos), r, out, pos)
    {
      var bak := pos;
      out := stmt;
      var ok := ConsumeNextWordIfIs("if");
      if !ok {
        pos := bak;
        return Success(false), stmt;
      }
      var clause := ParseThenClause();
      if clause.Failure? {
        return Failure(clause.error), stmt;
      } else if clause.value.None? {
        pos := bak;
        return Success(false), stmt;
      }
      var elifs := ParseElifClauses();
      if elifs.Failure? {
        return Failure(elifs.error), stmt;
      } else if elifs.value.None? {
        pos := bak;
        return Success(false), stmt;
      }
      var (test, body) := clause.value.value;
      var (pred, branch) := elifs.value.value;
      var e := ParseIfClose([test] + pred, [Block(body)] + branch);
      if e.Failure? {
        return Failure(e.error), stmt;
      } else if e.value.None? {
        pos := bak;
        return Success(false), stmt;
      }
      out := stmt + [e.value.value];
      r := Success(true);
    }

    /**
     * The end of `parse_if`, after the `elif` loop: an optional `else`, newline and
     * statement list, then `fi`.  `None` where one of them is missing; the caller then
     * puts the cursor back.  The source checks `next_is_word_with("else")` and then
     * consumes it, which cannot fail.
     */
    method ParseIfClose(pred: seq<Test>, branch: seq<Block>) returns (r: Result<Option<Exp>>)
      requires Valid() && 1 <= |pred| == |branch|
      requires forall i :: 0 <= i < |pred| ==> TestWellFormed(pred[i])
      requires forall i :: 0 <= i < |branch| ==> AllWellFormed(branch[i].stmts)
      modifies this
      decreases |token| + 1 - pos, 0
      ensures Valid()
      ensures var a := IfClose(token, old(pos), pred, branch);
        (a.Failure? ==> r == Failure(a.error)) &&
        (a.Success? && a.value.None? ==> r == Success(None)) &&
        (a.Success? && a.value.Some? ==> r == Success(Some(a.value.value.0)) && pos == a.value.value.1)
    {
      var last := branch;
      if NextIsWordWith("else") {
        var ok := ConsumeNextWordIfIs("else");
        ok := ConsumeNextNewline();
        if !ok {
          return Success(None);
        }
        ghost var seqAt := SeqAt(token, pos);
        var res, body := ParseSequence([]);
        if res.Failure? {
          return Failure(res.error);
        }
        assert [] + seqAt.value.0 == seqAt.value.0;
        last := branch + [Block(body)];
      }
      var ok := ConsumeNextWordIfIs("fi");
      if !ok {
        return Success(None);
      }
      r := Success(Some(IfExp(pred, last)));
    }

    /**
     * The `elif` loop of `parse_if`: the predicates and bodies of the `elif` clauses, as
     * long as the next word is `elif`; `None` when a clause after an `elif` is incomplete.
     */
    method ParseElifClauses() returns (r: Result<Option<(seq<Test>, seq<Block>)>>)
      requires Valid()
      modifies this
      decreases |token| + 1 - pos, 1
      ensures Valid()
      ensures var a := ElifsAt(token, old(pos));
        (a.Failure? ==> r == Failure(a.error)) &&
        (a.Success? && a.value.None? ==> r == Success(None)) &&
        (a.Success? && a.value.Some? ==> r == Success(Some((a.value.value.0, a.value.value.1))) && pos == a.value.value.2)
    {
      var pred: seq<Test> := [];
      var branch: seq<Block> := [];
      ghost var at := pos;
      assert ElifsPrefixed(pred, branch, ElifsAt(token, at)) == ElifsAt(token, at) by {
        var a := ElifsAt(token, at);
        if a.Success? && a.value.Some? {
          assert pred + a.value.value.0 == a.value.value.0 && branch + a.value.value.1 == a.value.value.1;
        }
      }
      var ok := ConsumeNextWordIfIs("elif");
      while ok
        invariant Valid() && old(pos) <= at <= |token| + 1
        invariant ok == WordWithAt(token, at, "elif") && pos == at + (if ok then 1 else 0)
        invariant ElifsAt(token, old(pos)) == ElifsPrefixed(pred, branch, ElifsAt(token, at))
        decreases |token| + 1 - pos
      {
        ElifsAtStep(token, at);
        var clause := ParseThenClause();
        if clause.Failure? {
          return Failure(clause.error);
        } else if clause.value.None? {
          return Success(None);
        }
        var (test, body) := clause.value.value;
        ElifsPrefixedTwice(pred, branch, test, Block(body), ElifsAt(token, pos));
        pred, branch := pred + [test], branch + [Block(body)];
        at := pos;
        ok := ConsumeNextWordIfIs("elif");
      }
      assert pred + [] == pred && branch + [] == branch;
      r := Success(Some((pred, branch)));
    }

    /**
     * What `parse_if` does after `if` and after each `elif`: a predicate, newline, `then`,
     * newline and a statement list.  `None` where one of them is missing; the caller then
     * puts the cursor back.
     */
    method ParseThenClause() returns (r: Result<Option<(Test, seq<Exp>)>>)
      requires Valid()
      modifies this
      decreases |token| + 1 - pos, 1
      ensures Valid()
      ensures var a := ThenAt(token, old(pos));
        (a.Failure? ==> r == Failure(a.error)) &&
        (a.Success? && a.value.None? ==> r == Success(None)) &&
        (a.Success? && a.value.Some? ==> r == Success(Some((a.value.value.0, a.value.value.1))) && pos == a.value.value.2)
    {
      var test := ParsePred();
      if test.None? {
        return Success(None);
      }
      ghost var q := pos;
      var ok := ConsumeNextNewline();
      if ok {
        ok := ConsumeNextWordIfIs("then");
      }
      if ok {
        ok := ConsumeNextNewline();
      }
      if !ok {
        return Success(None);
      }
      assert pos == q + 3;
      ghost var seqAt := SeqAt(token, pos);
      var res, body := ParseSequence([]);
      if res.Failure? {
        return Failure(res.error);
      }
      assert [] + seqAt.value.0 == seqAt.value.0;
      r := Success(Some((test.value, body)));
    }

    /** `while` predicate, newline, `do`, newline, a statement list, `done`; the cursor goes back on failure. */
    method ParseWhile(stmt: seq<Exp>) returns (r: Result<bool>, out: seq<Exp>)
      requires Valid()
      modifies this
      decreases |token| + 1 - pos, 1
      ensures Valid()
      ensures Follows(WhileAt(token, old(pos)), stmt, old(pos), r, out, pos)
    {
      var bak := pos;
      out := stmt;
      var pred := ParseWhileHead();
      if pred.None? {
        pos := bak;
        return Success(false), stmt;
      }
      ghost var seqAt := SeqAt(token, pos);
      var res, body := ParseSequence([]);
      if res.Failure? {
        return Failure(res.error), stmt;
      }
      assert [] + seqAt.value.0 == seqAt.value.0;
      var ok := ConsumeNextWordIfIs("done");
      if !ok {
        pos := bak;
        return Success(false), stmt;
      }
      out := stmt + [WhileExp(pred.value, body)];
      r := Success(true);
    }

    /**
     * The steps of `parse_while` before its body: `while`, the predicate, newline, `do`,
     * newline.  `None` where one of them is missing; the caller then puts the cursor back.
     */
    method ParseWhileHead() returns (pred: Option<Test>)
      requires Valid()
      modifies this
      ensures Valid()
      ensures var h := WhileHeadAt(token, old(pos));
        (h.None? ==> pred.None?) && (h.Some? ==> pred == Some(h.value.0) && pos == h.value.1)
    {
      var ok := ConsumeNextWordIfIs("while");
      if !ok {
        return None;
      }
      pred := ParsePred();
      if pred.None? {
        return None;
      }
      ok := ConsumeNextNewline();
      if ok {
        ok := ConsumeNextWordIfIs("do");
      }
      if ok {
        ok := ConsumeNextNewline();
      }
      if !ok {
        return None;
      }
    }

    /** `parse`: one statement list from the cursor; what follows a top-level terminator is dropped. */
    method Parse() returns (r: Result<seq<Exp>>)
      requires Valid()
      modifies this
      ensures Valid()
      ensures var a := SeqAt(token, old(pos));
        (a.Failure? ==> r == Failure(a.error)) && (a.Success? ==> r == Success(a.value.0) && pos == a.value.1)
    {
      ghost var seqAt := SeqAt(token, pos);
      var res, stmt := ParseSequence([]);
      if res.Failure? {
        return Failure(res.error);
      }
      assert [] + seqAt.value.0 == seqAt.value.0;
      r := Success(stmt);
    }
  }
}
