/**
 * The text `Translator` emits, as functions of the syntax tree.  Each `translate_*`
 * method of the source returns a string and may set some of the four import flags; here
 * the corresponding function returns a `Code`: the text and the flags it sets.  The
 * `Translator` class applies those flags to its fields.
 */
module PythonCode {
  import opened Results
  import opened Chars
  import opened Tokens
  import opened Syntax

  /** The four flags `glob_import`, `os_import`, `subprocess_import`, `sys_import`. */
  datatype Imports = Imports(glob: bool, os: bool, subprocess: bool, sys: bool)

  const NoImports := Imports(false, false, false, false)
  const GlobImport := Imports(true, false, false, false)
  const OsImport := Imports(false, true, false, false)
  const SubprocessImport := Imports(false, false, true, false)
  const SysImport := Imports(false, false, false, true)

  /** Setting the flags of `b` after those of `a`: a flag is never turned off. */
  function Union(a: Imports, b: Imports): (u: Imports)
    ensures Covers(u, a) && Covers(u, b)
  {
    Imports(a.glob || b.glob, a.os || b.os, a.subprocess || b.subprocess, a.sys || b.sys)
  }

  /** `Union` sets no flag that neither side sets: any flags covering both cover the union. */
  lemma UnionLeast(a: Imports, b: Imports, c: Imports)
    requires Covers(c, a) && Covers(c, b)
    ensures Covers(c, Union(a, b))
  {
  }

  /** Every flag set in `b` is set in `a`. */
  predicate Covers(a: Imports, b: Imports) {
    (b.glob ==> a.glob) && (b.os ==> a.os) && (b.subprocess ==> a.subprocess) && (b.sys ==> a.sys)
  }

  datatype Code = Code(text: string, uses: Imports)

  /** A translation's text, or the exception it raised. */
  function TextOf(r: Result<Code>): Result<string> {
    match r
    case Success(c) => Success(c.text)
    case Failure(e) => Failure(e)
  }

  /** The exceptions a translation can raise. */
  predicate TranslateError(e: Crash) {
    e == CdWithoutDir || e == IfBranchIndex
  }

  const NotValid: string := "error: not valid exp"
  const Shebang: string := "#!/usr/bin/python3 -u\n"

  /**
   * Where `re.search(r'\$(.+)', w)` matches: the first `$` with a character after it that
   * is not a newline (`.` does not match one); `|w|` when there is none.
   */
  function DollarAt(w: string): (i: nat)
    ensures i <= |w|
    ensures i < |w| ==> i + 1 < |w| && w[i] == '$' && w[i + 1] != '\n'
    decreases |w|
  {
    if |w| < 2 then |w|
    else if w[0] == '$' && w[1] != '\n' then 0
    else 1 + DollarAt(w[1..])
  }

  /** Where the greedy `.+` after position `i` stops: the next newline, or the end. */
  function LineEnd(w: string, i: nat): (e: nat)
    requires i <= |w|
    ensures i <= e <= |w|
    ensures e < |w| ==> w[e] == '\n'
    ensures '\n' !in w[i..e]
  {
    i + IndexOf(w[i..], '\n')
  }

  /**
   * `re.sub(r'\$.+', repl, w)`: every match, from a `$` with a non-newline character
   * after it to the end of its line, left to right, replaced by `repl`.
   */
  function SubAll(w: string, repl: string): (r: string)
    ensures w[..DollarAt(w)] <= r
    ensures DollarAt(w) == |w| ==> r == w
    decreases |w|
  {
    var i := DollarAt(w);
    if i == |w| then w
    else
      var e := LineEnd(w, i + 1);
      w[..i] + repl + SubAll(w[e..], repl)
  }

  /** `translate_word_str` */
  function WordStrCode(w: string): (c: Code)
    ensures Covers(GlobImport, c.uses)
    ensures c.uses.glob ==> IsGlobStr(w) && DollarAt(w) == |w|
  {
    if '$' in w && DollarAt(w) < |w| then
      var i := DollarAt(w);
      var group := w[i + 1..LineEnd(w, i + 1)];
      Code("f\"" + SubAll(w, "{" + group + "}") + "\"", NoImports)
    else if IsGlobStr(w) then
      Code("sorted(glob.glob(\"" + w + "\"))", GlobImport)
    else
      Code("'" + w + "'", NoImports)
  }

  /** `translate_word`: quoted words verbatim, variables by name (`sys.argv` for a digit name). */
  function WordCode(t: WordToken): (c: Code)
    ensures !c.uses.os && !c.uses.subprocess
    ensures c.uses.sys ==> t.Var? && AllDigits(t.name)
  {
    match t
    case SQuote(s, _) => Code(s, NoImports)
    case DQuote(s, _) => Code(s, NoImports)
    case Var(_, name) =>
      if AllDigits(name) then Code("sys.argv[" + name + "]", SysImport) else Code(name, NoImports)
    case Word(s) => WordStrCode(s)
    case Assign(s, _, _) => WordStrCode(s)
  }

  /** `list(map(self.translate_word, ws))` */
  function WordCodes(ws: seq<WordToken>): (r: seq<Code>)
    ensures |r| == |ws|
  {
    seq(|ws|, i requires 0 <= i < |ws| => WordCode(ws[i]))
  }

  /** `", ".join(map(self.translate_word, ws))`, with the flags of every word. */
  function WordsCode(ws: seq<WordToken>): Code {
    var cs := WordCodes(ws);
    Code(Join(CodeTexts(cs), ", "), UsesOf(cs))
  }

  /** The texts of the translations `cs`, in order. */
  function CodeTexts(cs: seq<Code>): (r: seq<string>)
    ensures |r| == |cs|
  {
    if cs == [] then [] else CodeTexts(cs[..|cs| - 1]) + [cs[|cs| - 1].text]
  }

  /** The flags the translations `cs` set, one after the other. */
  function UsesOf(cs: seq<Code>): Imports {
    if cs == [] then NoImports else Union(UsesOf(cs[..|cs| - 1]), cs[|cs| - 1].uses)
  }

  /** Flags that cover every translation cover them all together. */
  lemma {:induction false} UsesOfCovered(cs: seq<Code>, u: Imports)
    requires forall i :: 0 <= i < |cs| ==> Covers(u, cs[i].uses)
    ensures Covers(u, UsesOf(cs))
  {
    if cs != [] {
      UsesOfCovered(cs[..|cs| - 1], u);
      UnionLeast(UsesOf(cs[..|cs| - 1]), cs[|cs| - 1].uses, u);
    }
  }

  /** Translating one more word or value appends its text and adds its flags. */
  lemma CodesSnoc(cs: seq<Code>, i: nat)
    requires i < |cs|
    ensures CodeTexts(cs[..i + 1]) == CodeTexts(cs[..i]) + [cs[i].text]
    ensures UsesOf(cs[..i + 1]) == Union(UsesOf(cs[..i]), cs[i].uses)
  {
    assert cs[..i + 1][..i] == cs[..i];
  }

  /** `translate_pred` */
  function PredCode(t: Test): (c: Code)
    ensures t.FileAccessTestExp? ==> c.uses.os
    ensures !c.uses.subprocess
  {
    match t
    case FileAccessTestExp(op, file) =>
      var flag :=
        if op.str == "-r" then "os.R_OK"
        else if op.str == "-w" then "os.W_OK"
        else if op.str == "-x" then "os.X_OK"
        else "None";
      var f := WordCode(file);
      Code("os.access(" + f.text + ", " + flag + ")", Union(OsImport, f.uses))
    case CmpTestExp(op, lhs, rhs) =>
      var o := if op.str == "=" then "==" else op.str;
      var l := WordCode(lhs);
      var r := WordCode(rhs);
      Code(l.text + " " + o + " " + r.text, Union(l.uses, r.uses))
  }

  /** The content of the f-string `translate_value` makes of a `FormatExp`. */
  function FormatText(parts: seq<WordToken>): string {
    if parts == [] then ""
    else (if parts[0].Var? then "{" + parts[0].name + "}" else parts[0].str) + FormatText(parts[1..])
  }

  /** `translate_value` */
  function ValueCode(v: Value): (c: Code)
    ensures Covers(GlobImport, c.uses)
    decreases v, 1
  {
    match v
    case ListExp(list) =>
      var elems := ValuesCode(list);
      UsesOfCovered(elems, GlobImport);
      Code(if |elems| == 1 then elems[0].text else "[" + Join(CodeTexts(elems), ", ") + "]",
           UsesOf(elems))
    case GlobExp(str, _) => Code("sorted(glob.glob(\"" + str + "\"))", GlobImport)
    case FormatExp(parts) => Code("f\"" + FormatText(parts) + "\"", NoImports)
  }

  /** The translations of the elements of a `ListExp`, in order. */
  function ValuesCode(list: seq<(Value, Typ)>): (r: seq<Code>)
    ensures |r| == |list|
    ensures forall i :: 0 <= i < |r| ==> Covers(GlobImport, r[i].uses)
    decreases list, 0
  {
    if list == [] then []
    else
      var (head, _) := list[0];
      assert list[0] in list && head < list[0];
      [ValueCode(head)] + ValuesCode(list[1..])
  }

  /** `translate_comment`: the content already starts with `#`, so the line starts with `##`. */
  function CommentCode(content: string): Code {
    Code("#" + content, NoImports)
  }

  /** `translate_assign` */
  function AssignCode(name: string, value: Value): Code {
    var v := ValueCode(value);
    Code(name + " = " + v.text, v.uses)
  }

  /** `translate_cd`: a `cd` without argument reaches `None.str` and raises. */
  function CdCode(dir: Option<WordToken>): Result<Code> {
    match dir
    case None => Failure(CdWithoutDir)
    case Some(d) =>
      var w := WordCode(d);
      Success(Code("os.chdir(" + w.text + ")", Union(OsImport, w.uses)))
  }

  /** `translate_exit`: the argument's raw text. */
  function ExitCode(code: Option<WordToken>): Code {
    Code("sys.exit(" + (if code.Some? then code.value.str else "") + ")", SysImport)
  }

  /** `translate_read`: the argument's raw text as the variable assigned. */
  function ReadCode(arg: Option<WordToken>): Code {
    Code((if arg.Some? then arg.value.str + " = " else "") + "input()", SysImport)
  }

  function EchoCode(args: seq<WordToken>): Code {
    var a := WordsCode(args);
    Code("print(" + a.text + ")", a.uses)
  }

  function CmdCode(cmd: seq<WordToken>): Code {
    var a := WordsCode(cmd);
    Code("subprocess.call([" + a.text + "])", Union(SubprocessImport, a.uses))
  }

  /** How far `translate_sequence` has got: still going, returned the error text, or raised. */
  datatype Walk =
    | Walking(body: string, bol: bool, uses: Imports)
    | Stopped(uses: Imports)
    | Crashed(error: Crash)

  function Shift(indent: nat): string {
    Spaces(4 * indent)
  }

  /**
   * The state of `translate_sequence(es, indent)` after its first `k` iterations: the
   * body so far, `beginning_of_line`, and the flags set so far.  A node it cannot
   * translate makes it return the error text, with the flags already set still set.
   */
  function WalkPrefix(es: seq<Exp>, k: nat, indent: nat): (w: Walk)
    requires k <= |es|
    decreases es, 1, k
  {
    if k == 0 then Walking("", true, NoImports)
    else
      match WalkPrefix(es, k - 1, indent)
      case Walking(body, bol, uses) =>
        var e := es[k - 1];
        var shifted := if bol then body + Shift(indent) else body;
        if !e.IsStatement() then Stopped(uses)
        else (
          match StmtCode(e, indent)
          case Failure(err) => Crashed(err)
          case Success(c) => Walking(shifted + c.text, e.ResetsLine(), Union(uses, c.uses))
        )
      case Stopped(uses) => Stopped(uses)
      case Crashed(err) => Crashed(err)
  }

  /** The walk stops with an exception only when a statement's translation raised it. */
  lemma {:induction false} WalkPrefixErrors(es: seq<Exp>, k: nat, indent: nat)
    requires k <= |es|
    ensures WalkPrefix(es, k, indent).Crashed? ==> TranslateError(WalkPrefix(es, k, indent).error)
    decreases es, 1, k + 1
  {
    if k > 0 {
      WalkPrefixErrors(es, k - 1, indent);
    }
  }

  /** `translate_sequence(es, indent)` */
  function SeqCode(es: seq<Exp>, indent: nat): (r: Result<Code>)
    ensures r.Failure? ==> TranslateError(r.error)
    decreases es, 2
  {
    WalkPrefixErrors(es, |es|, indent);
    match WalkPrefix(es, |es|, indent)
    case Walking(body, _, uses) => Success(Code(body, uses))
    case Stopped(uses) => Success(Code(NotValid, uses))
    case Crashed(err) => Failure(err)
  }

  /** The translation of one statement, nested bodies one level deeper. */
  function StmtCode(e: Exp, indent: nat): (r: Result<Code>)
    requires e.IsStatement()
    ensures r.Failure? ==> TranslateError(r.error)
    decreases e, 0
  {
    match e
    case NewlineExp => Success(Code("\n", NoImports))
    case CommentExp(content) => Success(CommentCode(content))
    case AssignExp(name, value, _) => Success(AssignCode(name, value))
    case CdExp(dir) => CdCode(dir)
    case ExitExp(code) => Success(ExitCode(code))
    case ReadExp(arg) => Success(ReadCode(arg))
    case EchoExp(args) => Success(EchoCode(args))
    case ForExp(loopVar, iter, body) =>
      var header := WordsCode(iter);
      var b :- SeqCode(body, indent + 1);
      Success(Code("for " + loopVar.str + " in " + header.text + ":\n" + b.text, Union(header.uses, b.uses)))
    case IfExp(pred, branch) => IfCode(pred, branch, indent)
    case WhileExp(cond, body) =>
      var p := PredCode(cond);
      var b :- SeqCode(body, indent + 1);
      Success(Code("while " + p.text + ":\n" + b.text, Union(p.uses, b.uses)))
    case CmdExp(cmd) => Success(CmdCode(cmd))
  }

  /**
   * `translate_if`: the `if` clause, the `elif` clauses `1 .. |pred|-1`, and an `else`
   * clause with the last branch when there are more branches than predicates.
   */
  function IfCode(pred: seq<Test>, branch: seq<Block>, indent: nat): (r: Result<Code>)
    ensures r.Failure? ==> TranslateError(r.error)
    ensures r.Success? ==> 0 < |pred| <= |branch|
    decreases branch, 2
  {
    if |pred| == 0 || |branch| == 0 then Failure(IfBranchIndex)
    else
      var head := PredCode(pred[0]);
      var first :- SeqCode(branch[0].stmts, indent + 1);
      var elifs :- ElifsUpTo(pred, branch, |pred|, indent);
      var last :- ElseCode(pred, branch, indent);
      Success(Code("if " + head.text + ":\n" + first.text + elifs.text + last.text,
                   Union(Union(Union(head.uses, first.uses), elifs.uses), last.uses)))
  }

  /** `IfCode` from its parts, each flag set by some part being set by the whole. */
  lemma IfCodeOf(pred: seq<Test>, branch: seq<Block>, indent: nat, first: Code, elifs: Code, last: Code)
    requires |pred| > 0 && |branch| > 0
    requires SeqCode(branch[0].stmts, indent + 1) == Success(first)
    requires ElifsUpTo(pred, branch, |pred|, indent) == Success(elifs)
    requires ElseCode(pred, branch, indent) == Success(last)
    ensures IfCode(pred, branch, indent) ==
              Success(Code("if " + PredCode(pred[0]).text + ":\n" + first.text + elifs.text + last.text,
                           Union(Union(Union(PredCode(pred[0]).uses, first.uses), elifs.uses), last.uses)))
  { }

  /** The `elif` clauses `1 .. k-1` of `translate_if`'s loop; `branch[i]` past the end raises. */
  function ElifsUpTo(pred: seq<Test>, branch: seq<Block>, k: nat, indent: nat): (r: Result<Code>)
    requires 1 <= k <= |pred|
    ensures r.Failure? ==> TranslateError(r.error)
    ensures r.Success? && k > 1 ==> k <= |branch|
    decreases branch, 1, k
  {
    if k == 1 then Success(Code("", NoImports))
    else
      var before :- ElifsUpTo(pred, branch, k - 1, indent);
      var clause :- ElifCode(pred, branch, k - 1, indent);
      Success(Code(before.text + clause.text, Union(before.uses, clause.uses)))
  }

  /** One `elif` clause of `translate_if`. */
  function ElifCode(pred: seq<Test>, branch: seq<Block>, i: nat, indent: nat): (r: Result<Code>)
    requires i < |pred|
    ensures r.Failure? ==> TranslateError(r.error)
    ensures r.Success? ==> i < |branch|
    decreases branch, 0
  {
    var p := PredCode(pred[i]);
    if i >= |branch| then Failure(IfBranchIndex)
    else
      var b :- SeqCode(branch[i].stmts, indent + 1);
      Success(Code("elif " + p.text + ":\n" + b.text, Union(p.uses, b.uses)))
  }

  /** The `else` clause of `translate_if`, empty when there are no more branches than predicates. */
  function ElseCode(pred: seq<Test>, branch: seq<Block>, indent: nat): (r: Result<Code>)
    ensures r.Failure? ==> TranslateError(r.error)
    decreases branch, 0
  {
    if |branch| > |pred| then
      var b :- SeqCode(branch[|branch| - 1].stmts, indent + 1);
      Success(Code("else:\n" + b.text, b.uses))
    else Success(Code("", NoImports))
  }

  /** The interpreter line, then an `import` line for each flag set, in this fixed order. */
  function Header(u: Imports): (h: string)
    ensures Shebang <= h
    ensures u == NoImports ==> h == Shebang
  {
    Shebang +
    (if u.glob then "import glob\n" else "") +
    (if u.os then "import os\n" else "") +
    (if u.subprocess then "import subprocess\n" else "") +
    (if u.sys then "import sys\n" else "")
  }

  /** `translate`, with the flags as they were before it ran. */
  function Program(before: Imports, ast: seq<Exp>): (r: Result<string>)
    ensures r.Failure? <==> SeqCode(ast, 0).Failure?
    ensures r.Success? ==> Shebang <= r.value
  {
    var c :- SeqCode(ast, 0);
    var h := Header(Union(before, c.uses));
    assert (h + c.text)[..|Shebang|] == h[..|Shebang|];
    Success(h + c.text)
  }

  /** `ValuesCode` translates the elements one by one. */
  lemma {:induction false} ValuesCodeAt(list: seq<(Value, Typ)>, i: nat)
    requires i < |list|
    ensures ValuesCode(list)[i] == ValueCode(list[i].0)
  {
    if i > 0 {
      ValuesCodeAt(list[1..], i - 1);
    }
  }

  /** Once `translate_sequence` has returned or raised, the later nodes change nothing. */
  lemma {:induction false} WalkHalted(es: seq<Exp>, k: nat, j: nat, indent: nat)
    requires k <= j <= |es|
    requires !WalkPrefix(es, k, indent).Walking?
    ensures WalkPrefix(es, j, indent) == WalkPrefix(es, k, indent)
    decreases j
  {
    if j > k {
      WalkHalted(es, k, j - 1, indent);
    }
  }

  /** Once an `elif` clause has raised, the later ones are never reached. */
  lemma {:induction false} ElifsHalted(pred: seq<Test>, branch: seq<Block>, k: nat, j: nat, indent: nat)
    requires 1 <= k <= j <= |pred|
    requires ElifsUpTo(pred, branch, k, indent).Failure?
    ensures ElifsUpTo(pred, branch, j, indent) == ElifsUpTo(pred, branch, k, indent)
    decreases j
  {
    if j > k {
      ElifsHalted(pred, branch, k, j - 1, indent);
    }
  }

  /** One iteration of `translate_sequence`'s loop. */
  lemma WalkStep(es: seq<Exp>, i: nat, indent: nat, body: string, bol: bool, uses: Imports)
    requires i < |es| && WalkPrefix(es, i, indent) == Walking(body, bol, uses)
    ensures !es[i].IsStatement() ==> WalkPrefix(es, i + 1, indent) == Stopped(uses)
    ensures es[i].IsStatement() && StmtCode(es[i], indent).Failure? ==>
              WalkPrefix(es, i + 1, indent) == Crashed(StmtCode(es[i], indent).error)
    ensures es[i].IsStatement() && StmtCode(es[i], indent).Success? ==>
              var c := StmtCode(es[i], indent).value;
              WalkPrefix(es, i + 1, indent) ==
                Walking((if bol then body + Shift(indent) else body) + c.text, es[i].ResetsLine(), Union(uses, c.uses))
  { }

  /**
   * One iteration of `translate_sequence`'s loop, from what the chain of translators gave
   * for `es[i]` (the empty text when none applies): an exception or the error text ends
   * the whole sequence, any other text is appended after the indentation.
   */
  lemma WalkAdvance(es: seq<Exp>, i: nat, indent: nat, body: string, bol: bool, uses: Imports, step: Result<string>)
      returns (next: Walk)
    requires i < |es| && WalkPrefix(es, i, indent) == Walking(body, bol, uses)
    requires es[i].IsStatement() ==> step == TextOf(StmtCode(es[i], indent))
    requires !es[i].IsStatement() ==> step == Success("")
    ensures step.Failure? ==> SeqCode(es, indent) == Failure(step.error)
    ensures step == Success("") ==> SeqCode(es, indent) == Success(Code(NotValid, uses))
    ensures step.Success? && step.value != "" ==>
              es[i].IsStatement() && StmtCode(es[i], indent).Success? &&
              WalkPrefix(es, i + 1, indent) == next &&
              next == Walking((if bol then body + Shift(indent) else body) + step.value, es[i].ResetsLine(),
                              Union(uses, StmtCode(es[i], indent).value.uses))
  {
    next := WalkPrefix(es, i + 1, indent);
    if step.Failure? || step == Success("") {
      if es[i].IsStatement() && step == Success("") {
        StmtTextNonEmpty(es[i], indent);
      }
      WalkHalted(es, i + 1, |es|, indent);
    }
  }

  /** Every statement translates to some text, so the first translator that applies is the one used. */
  lemma StmtTextNonEmpty(e: Exp, indent: nat)
    requires e.IsStatement() && StmtCode(e, indent).Success?
    ensures StmtCode(e, indent).value.text != ""
  {
    if e.IfExp? {
      assert StmtCode(e, indent) == IfCode(e.pred, e.branch, indent);
    }
  }
}
