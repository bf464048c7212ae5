/**
 * What the emitted Python text is like: how a word becomes an expression, how
 * `translate_sequence` lays statements out, when a translation raises, and what the
 * header records.
 */
module PythonFacts {
  import opened Results
  import opened Chars
  import opened Tokens
  import opened Syntax
  import opened WordValues
  import opened PythonCode

  // ---------------------------------------------------------------- words

  /**
   * A word needs `sys` exactly when it is a variable named by digits, and `glob`
   * exactly when it is a bare word with a glob character and no variable to interpolate.
   */
  lemma WordCodeImports(t: WordToken)
    ensures WordCode(t).uses.sys <==> t.Var? && AllDigits(t.name)
    ensures WordCode(t).uses.glob <==>
              (t.Word? || t.Assign?) && DollarAt(t.str) == |t.str| && IsGlobStr(t.str)
    ensures !WordCode(t).uses.os && !WordCode(t).uses.subprocess
  {
    if t.Word? || t.Assign? {
      var w := t.str;
      assert DollarAt(w) < |w| ==> '$' in w;
    }
  }

  lemma SubAllUnfold(w: string, repl: string, i: nat, e: nat)
    requires i == DollarAt(w) && i < |w| && e == LineEnd(w, i + 1)
    ensures SubAll(w, repl) == w[..i] + repl + SubAll(w[e..], repl)
  { }

  lemma SubAllNone(w: string, repl: string)
    requires DollarAt(w) == |w|
    ensures SubAll(w, repl) == w
  { }

  lemma WordStrUnfold(w: string, i: nat, e: nat, repl: string)
    requires i == DollarAt(w) && i < |w| && e == LineEnd(w, i + 1) && repl == "{" + w[i + 1..e] + "}"
    ensures WordStrCode(w) == Code("f\"" + SubAll(w, repl) + "\"", NoImports)
  {
    assert '$' in w by {
      assert w[i] == '$';
    }
    assert WordStrCode(w) == Code("f\"" + SubAll(w, "{" + w[i + 1..LineEnd(w, i + 1)] + "}") + "\"", NoImports);
  }

  /** Within one line `re.sub(r'\$.+', ...)` replaces everything from the first match on. */
  lemma SubAllLine(l: string, repl: string)
    requires '\n' !in l
    ensures SubAll(l, repl) == if DollarAt(l) < |l| then l[..DollarAt(l)] + repl else l
  {
    var i := DollarAt(l);
    if i < |l| {
      LineEndNoNewline(l, i + 1);
      SubAllUnfold(l, repl, i, |l|);
      assert l[|l|..] == [];
      SubAllNone([], repl);
    } else {
      SubAllNone(l, repl);
    }
  }

  /** With no newline left, the greedy `.+` runs to the end. */
  lemma LineEndNoNewline(w: string, j: nat)
    requires j <= |w| && '\n' !in w[j..]
    ensures LineEnd(w, j) == |w|
    ensures w[j..LineEnd(w, j)] == w[j..]
  {
  }

  lemma OneLineSuffix(w: string, j: nat)
    requires j <= |w| && '\n' !in w
    ensures '\n' !in w[j..]
  {
  }

  /** A word of one line with a `$` before its last character becomes an f-string naming the rest. */
  lemma WordStrOneLine(w: string, i: nat)
    requires '\n' !in w && i == DollarAt(w) && i < |w|
    ensures WordStrCode(w).text == "f\"" + (w[..i] + ("{" + w[i + 1..] + "}")) + "\""
    ensures WordStrCode(w).uses == NoImports
  {
    OneLineSuffix(w, i + 1);
    LineEndNoNewline(w, i + 1);
    var repl := "{" + w[i + 1..] + "}";
    WordStrUnfold(w, i, |w|, repl);
    SubAllFirst(w, repl, i);
  }

  lemma SubAllFirst(w: string, repl: string, i: nat)
    requires '\n' !in w && i == DollarAt(w) && i < |w|
    ensures SubAll(w, repl) == w[..i] + repl
  {
    SubAllLine(w, repl);
  }

  /**
   * A bare word from the lexer holds no blank, so a `$` in it, before its last
   * character, turns the word into an f-string in which everything after that `$` is
   * one interpolated expression.
   */
  lemma BareWordWithDollar(t: WordToken, i: nat)
    requires (t.Word? || t.Assign?) && t.WellFormed()
    requires i == DollarAt(t.str) && i < |t.str|
    ensures WordCode(t).text == "f\"" + (t.str[..i] + ("{" + t.str[i + 1..] + "}")) + "\""
    ensures WordCode(t).uses == NoImports
  {
    var w := t.str;
    assert '\n' !in w by {
      if t.Assign? {
        assert forall c :: c in w ==> c in t.name || c == '=' || c in t.value;
      }
    }
    WordStrOneLine(w, i);
  }

  // ---------------------------------------------------------------- translate_sequence

  /**
   * Statement `k` of a sequence that is still being translated is indented exactly when
   * it is the first or the statement before it ended a line (a newline, a comment, an
   * assignment or a cd); nothing else is added between statements.
   */
  lemma WalkLayout(es: seq<Exp>, k: nat, indent: nat)
    requires k < |es| && WalkPrefix(es, k + 1, indent).Walking?
    ensures WalkPrefix(es, k, indent).Walking? && es[k].IsStatement() && StmtCode(es[k], indent).Success?
    ensures WalkPrefix(es, k + 1, indent).body ==
              WalkPrefix(es, k, indent).body + (if k == 0 || es[k - 1].ResetsLine() then Shift(indent) else "") +
              StmtCode(es[k], indent).value.text
  {
    if k > 0 {
      assert WalkPrefix(es, k, indent).bol == es[k - 1].ResetsLine();
    }
  }

  /** The text translated so far only grows. */
  lemma {:induction false} WalkGrows(es: seq<Exp>, j: nat, k: nat, indent: nat)
    requires j <= k <= |es| && WalkPrefix(es, k, indent).Walking?
    ensures WalkPrefix(es, j, indent).Walking?
    ensures WalkPrefix(es, j, indent).body <= WalkPrefix(es, k, indent).body
    decreases k
  {
    if j < k {
      WalkLayout(es, k - 1, indent);
      WalkGrows(es, j, k - 1, indent);
      var a, b := WalkPrefix(es, k - 1, indent).body, WalkPrefix(es, k, indent).body;
      assert a <= b by {
        assert b[..|a|] == a;
      }
    }
  }

  /** A translated non-empty sequence starts with the indentation of its level. */
  lemma SeqCodeIndented(es: seq<Exp>, indent: nat)
    requires es != [] && WalkPrefix(es, |es|, indent).Walking?
    ensures SeqCode(es, indent).Success? && Shift(indent) <= SeqCode(es, indent).value.text
  {
    WalkGrows(es, 1, |es|, indent);
  }

  /**
   * `translate_sequence` gives up, returning the error text, exactly when it reaches a
   * node that is not a statement.
   */
  lemma WalkStops(es: seq<Exp>, k: nat, indent: nat)
    requires k <= |es|
    ensures WalkPrefix(es, k, indent).Stopped? <==>
              exists j :: 0 <= j < k && !es[j].IsStatement() && WalkPrefix(es, j, indent).Walking?
  {
    if WalkPrefix(es, k, indent).Stopped? {
      StoppedHasCause(es, k, indent);
    }
    if exists j :: 0 <= j < k && !es[j].IsStatement() && WalkPrefix(es, j, indent).Walking? {
      var j :| 0 <= j < k && !es[j].IsStatement() && WalkPrefix(es, j, indent).Walking?;
      CauseStops(es, j, k, indent);
    }
  }

  lemma {:induction false} StoppedHasCause(es: seq<Exp>, k: nat, indent: nat)
    requires k <= |es| && WalkPrefix(es, k, indent).Stopped?
    ensures exists j :: 0 <= j < k && !es[j].IsStatement() && WalkPrefix(es, j, indent).Walking?
    decreases k
  {
    var prev := WalkPrefix(es, k - 1, indent);
    if prev.Stopped? {
      StoppedHasCause(es, k - 1, indent);
    } else {
      assert !es[k - 1].IsStatement();
    }
  }

  lemma CauseStops(es: seq<Exp>, j: nat, k: nat, indent: nat)
    requires j < k <= |es| && !es[j].IsStatement() && WalkPrefix(es, j, indent).Walking?
    ensures WalkPrefix(es, k, indent).Stopped?
  {
    assert WalkPrefix(es, j + 1, indent).Stopped?;
    WalkHalted(es, j + 1, k, indent);
  }

  /** The translation of a sequence returns the error text when it reaches a non-statement. */
  lemma SeqCodeNotValid(es: seq<Exp>, j: nat, indent: nat)
    requires j < |es| && !es[j].IsStatement() && WalkPrefix(es, j, indent).Walking?
    ensures SeqCode(es, indent) == Success(Code(NotValid, WalkPrefix(es, j, indent).uses))
  {
    WalkHalted(es, j + 1, |es|, indent);
  }

  // ---------------------------------------------------------------- exceptions

  /** A `cd` without argument somewhere in a statement, nested bodies included. */
  predicate HasBareCd(e: Exp)
    decreases e, 1
  {
    match e
    case CdExp(dir) => dir.None?
    case ForExp(_, _, body) => AnyBareCd(body)
    case IfExp(_, branch) => exists i :: 0 <= i < |branch| && AnyBareCd(branch[i].stmts)
    case WhileExp(_, body) => AnyBareCd(body)
    case _ => false
  }

  predicate AnyBareCd(es: seq<Exp>)
    decreases es, 0
  {
    exists i :: 0 <= i < |es| && HasBareCd(es[i])
  }

  /**
   * A statement list as the parser builds it translates without an exception unless
   * it holds a `cd` without argument, and then the exception is that one: the parser
   * never builds a node `translate_sequence` rejects nor an `if` whose branches and
   * predicates do not line up.
   */
  lemma {:induction false} SeqRaises(es: seq<Exp>, indent: nat)
    requires AllWellFormed(es)
    ensures SeqCode(es, indent).Failure? <==> AnyBareCd(es)
    ensures SeqCode(es, indent).Failure? ==> SeqCode(es, indent).error == CdWithoutDir
    decreases es, 2
  {
    WalkRaises(es, |es|, indent);
    assert es[..|es|] == es;
  }

  lemma {:induction false} WalkRaises(es: seq<Exp>, k: nat, indent: nat)
    requires k <= |es| && AllWellFormed(es)
    ensures WalkPrefix(es, k, indent).Walking? || WalkPrefix(es, k, indent) == Crashed(CdWithoutDir)
    ensures WalkPrefix(es, k, indent).Crashed? <==> AnyBareCd(es[..k])
    decreases es, 1, k
  {
    if k > 0 {
      WalkRaises(es, k - 1, indent);
      AnyBareCdSnoc(es, k);
      var prev := WalkPrefix(es, k - 1, indent);
      if prev.Walking? {
        assert WellFormed(es[k - 1]);
        StmtRaises(es[k - 1], indent);
        WalkStep(es, k - 1, indent, prev.body, prev.bol, prev.uses);
      } else {
        WalkHalted(es, k - 1, k, indent);
      }
    } else {
      assert es[..k] == [];
    }
  }

  /** A prefix holds a bare `cd` when the shorter prefix does or its last statement does. */
  lemma AnyBareCdSnoc(es: seq<Exp>, k: nat)
    requires 0 < k <= |es|
    ensures AnyBareCd(es[..k]) <==> AnyBareCd(es[..k - 1]) || HasBareCd(es[k - 1])
  {
    assert es[..k][k - 1] == es[k - 1];
    if AnyBareCd(es[..k]) {
      var i :| 0 <= i < k && HasBareCd(es[..k][i]);
      if i < k - 1 {
        assert es[..k - 1][i] == es[..k][i];
      }
    }
    if AnyBareCd(es[..k - 1]) {
      var i :| 0 <= i < k - 1 && HasBareCd(es[..k - 1][i]);
      assert es[..k][i] == es[..k - 1][i];
    }
  }

  lemma {:induction false} StmtRaises(e: Exp, indent: nat)
    requires WellFormed(e)
    ensures e.IsStatement()
    ensures StmtCode(e, indent).Failure? <==> HasBareCd(e)
    ensures StmtCode(e, indent).Failure? ==> StmtCode(e, indent).error == CdWithoutDir
    decreases e, 0
  {
    match e
    case ForExp(_, _, body) =>
      SeqRaises(body, indent + 1);
    case WhileExp(_, body) =>
      SeqRaises(body, indent + 1);
    case IfExp(pred, branch) =>
      IfRaises(pred, branch, indent);
    case _ =>
  }

  lemma {:induction false} IfRaises(pred: seq<Test>, branch: seq<Block>, indent: nat)
    requires 1 <= |pred| <= |branch| <= |pred| + 1
    requires forall i :: 0 <= i < |branch| ==> AllWellFormed(branch[i].stmts)
    ensures IfCode(pred, branch, indent).Failure? <==> exists i :: 0 <= i < |branch| && AnyBareCd(branch[i].stmts)
    ensures IfCode(pred, branch, indent).Failure? ==> IfCode(pred, branch, indent).error == CdWithoutDir
    decreases branch, 2
  {
    SeqRaises(branch[0].stmts, indent + 1);
    ElifsRaise(pred, branch, |pred|, indent);
    if |branch| > |pred| {
      SeqRaises(branch[|branch| - 1].stmts, indent + 1);
    }
  }

  lemma {:induction false} ElifsRaise(pred: seq<Test>, branch: seq<Block>, k: nat, indent: nat)
    requires 1 <= k <= |pred| <= |branch|
    requires forall i :: 0 <= i < |branch| ==> AllWellFormed(branch[i].stmts)
    ensures ElifsUpTo(pred, branch, k, indent).Failure? <==> exists i :: 1 <= i < k && AnyBareCd(branch[i].stmts)
    ensures ElifsUpTo(pred, branch, k, indent).Failure? ==> ElifsUpTo(pred, branch, k, indent).error == CdWithoutDir
    decreases branch, 1, k
  {
    if k > 1 {
      ElifsRaise(pred, branch, k - 1, indent);
      SeqRaises(branch[k - 1].stmts, indent + 1);
    }
  }

  // ---------------------------------------------------------------- assignment values

  /** A string with no dollar sign, brace or dollar is left alone by `Strip`. */
  lemma {:induction false} StripClean(s: string)
    requires '$' !in s && '{' !in s && '}' !in s
    ensures Strip(s) == s
  {
    if s != [] {
      StripClean(s[1..]);
      assert s == [s[0]] + s[1..];
    }
  }

  /**
   * The f-string body of a format expression differs from the expression's own text only
   * in how variables are spelled (`{x}` for `$x` or `${x}`): with the dollar signs and
   * braces removed the two agree.
   */
  lemma {:induction false} FormatTextStrip(ws: seq<WordToken>)
    requires forall i :: 0 <= i < |ws| ==> Segment(ws[i])
    ensures Strip(FormatText(ws)) == Strip(Strs(ws))
  {
    if ws != [] {
      var rest := ws[1..];
      assert forall i :: 0 <= i < |rest| ==> rest[i] == ws[i + 1];
      FormatTextStrip(rest);
      var head := if ws[0].Var? then "{" + ws[0].name + "}" else ws[0].str;
      assert Strip(head) == Strip(ws[0].str) by {
        if ws[0].Var? {
          StripBraced(ws[0].name);
        }
      }
      StripAppend(head, FormatText(rest));
      StripAppend(ws[0].str, Strs(rest));
    }
  }

  /** A variable spelled `{name}` strips to its name. */
  lemma StripBraced(name: string)
    requires '$' !in name && '{' !in name && '}' !in name
    ensures Strip("{" + name + "}") == name
  {
    var open, close := "{", "}";
    assert Strip(open) == "" && Strip(close) == "";
    StripClean(name);
    StripAppend(open, name);
    StripAppend(open + name, close);
  }

  /** The f-string built for an assignment piece spells the piece's variables with braces and nothing else. */
  lemma FormatOfPiece(s: string)
    ensures Strip(FormatText(VarExtractor(s))) == Strip(s)
  {
    VarExtractorPieces(s);
    FormatTextStrip(VarExtractor(s));
  }

  /** Without a dollar sign there is no variable match anywhere. */
  lemma {:induction false} NoDollarNoVar(s: string)
    requires '$' !in s
    ensures NextVar(s) == |s|
    decreases |s|
  {
    if s != [] {
      NoDollarNoVar(s[1..]);
    }
  }

  /** A piece without a dollar sign is one literal word and its f-string body is the piece itself. */
  lemma PlainPiece(s: string)
    requires '$' !in s
    ensures VarExtractor(s) == if s == [] then [] else [Word(s)]
    ensures FormatText(VarExtractor(s)) == s
  {
    NoDollarNoVar(s);
    if s != [] {
      assert FormatText([Word(s)]) == s + FormatText([]);
    }
  }

  /**
   * End to end: an assignment token whose value has no dollar sign and no glob character
   * becomes `name = f"value"`, and needs no import.
   */
  lemma PlainAssignment(t: Token)
    requires t.Assign? && t.WellFormed() && '$' !in t.value && !IsGlobStr(t.value)
    ensures AssignValue(t.value).Success?
    ensures AssignCode(t.name, AssignValue(t.value).value) == Code(t.name + " = f\"" + t.value + "\"", NoImports)
  {
    AssignTokenValueIsOnePiece(t);
    PlainPiece(t.value);
    var f := FormatExp(VarExtractor(t.value));
    assert ValueCode(f) == Code("f\"" + t.value + "\"", NoImports);
    SingleValueCode(f, WordTyp);
  }

  /** A list of one element translates as that element alone. */
  lemma SingleValueCode(v: Value, typ: Typ)
    ensures ValueCode(ListExp([(v, typ)])) == Code(ValueCode(v).text, Union(NoImports, ValueCode(v).uses))
  {
    var list := [(v, typ)];
    ValuesCodeAt(list, 0);
    var elems := ValuesCode(list);
    assert elems[..0] == [];
    assert UsesOf(elems) == Union(UsesOf(elems[..0]), elems[0].uses);
  }

  // ---------------------------------------------------------------- if

  /**
   * With bodies that translate, the `elif` loop up to `k` raises `IndexError` exactly when
   * it reaches a predicate with no branch of its own.
   */
  lemma {:induction false} ElifsIndex(pred: seq<Test>, branch: seq<Block>, k: nat, indent: nat)
    requires 1 <= k <= |pred| && |branch| >= 1
    requires forall i :: 0 <= i < |branch| ==> SeqCode(branch[i].stmts, indent + 1).Success?
    ensures ElifsUpTo(pred, branch, k, indent).Failure? <==> k > |branch|
    ensures ElifsUpTo(pred, branch, k, indent).Failure? ==> ElifsUpTo(pred, branch, k, indent).error == IfBranchIndex
    decreases k
  {
    if k > 1 {
      ElifsIndex(pred, branch, k - 1, indent);
    }
  }

  /**
   * With bodies that translate, `translate_if` raises `IndexError` exactly when there is
   * no predicate, or fewer branches than predicates; extra branches past `|pred| + 1`
   * are skipped, since the `else` clause is always the last one.
   */
  lemma IfBranchIndexIff(pred: seq<Test>, branch: seq<Block>, indent: nat)
    requires forall i :: 0 <= i < |branch| ==> SeqCode(branch[i].stmts, indent + 1).Success?
    ensures IfCode(pred, branch, indent).Failure? <==> |pred| == 0 || |branch| < |pred|
    ensures IfCode(pred, branch, indent).Failure? ==> IfCode(pred, branch, indent).error == IfBranchIndex
  {
    if |pred| > 0 && |branch| > 0 {
      ElifsIndex(pred, branch, |pred|, indent);
    }
  }

  // ---------------------------------------------------------------- header

  /** Each import line has its own length, and the header's length adds them up. */
  lemma HeaderLength(u: Imports)
    ensures |Header(u)| == |Shebang| + (if u.glob then 12 else 0) + (if u.os then 10 else 0) +
                           (if u.subprocess then 18 else 0) + (if u.sys then 11 else 0)
  {
  }

  /**
   * The header determines which modules the program imports: no two sets of flags give
   * the same header, because every sum of a subset of the line lengths 12, 10, 18 and 11
   * is different.
   */
  lemma HeaderInjective(u: Imports, v: Imports)
    requires Header(u) == Header(v)
    ensures u == v
  {
    HeaderLength(u);
    HeaderLength(v);
  }
}
