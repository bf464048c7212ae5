/**
 * sheepy.py `Translator`: walks the syntax tree and returns the Python program as text,
 * setting one of four flags whenever the text it emits needs a module; `Translate` puts
 * the `import` lines of the flags that are set after the interpreter line.  Every method
 * is proved to return the text (or raise the exception) that the corresponding function
 * of `PythonCode` gives, and to set exactly that function's flags on top of those already
 * set.
 */
module Translating {
  import opened Results
  import opened Chars
  import opened Tokens
  import opened Syntax
  import opened PythonCode

  class Translator {
    const ast: seq<Exp>
    var globImport: bool
    var osImport: bool
    var subprocessImport: bool
    var sysImport: bool

    function Flags(): Imports
      reads this
    {
      Imports(globImport, osImport, subprocessImport, sysImport)
    }

    constructor(ast: seq<Exp>)
      ensures this.ast == ast && Flags() == NoImports
    {
      this.ast := ast;
      globImport, osImport, subprocessImport, sysImport := false, false, false, false;
    }

    /** `translate`: the body first, then the header with the flags the body set. */
    method Translate() returns (r: Result<string>)
      modifies this
      ensures r == Program(old(Flags()), ast)
      ensures SeqCode(ast, 0).Success? ==> Flags() == Union(old(Flags()), SeqCode(ast, 0).value.uses)
    {
      var header := Shebang;
      var body :- TranslateSequence(ast, 0);
      ghost var u := Flags();
      if globImport {
        header := header + "import glob\n";
      }
      assert header == Shebang + (if u.glob then "import glob\n" else "");
      if osImport {
        header := header + "import os\n";
      }
      assert header == Shebang + (if u.glob then "import glob\n" else "") + (if u.os then "import os\n" else "");
      if subprocessImport {
        header := header + "import subprocess\n";
      }
      if sysImport {
        header := header + "import sys\n";
      }
      assert header == Header(u);
      r := Success(header + body);
    }

    /**
     * `translate_sequence`: each statement's text after the indentation of `indent`
     * levels whenever the previous statement ended a line; the error text as soon as a
     * node is none of the statements.
     */
    method TranslateSequence(es: seq<Exp>, indent: nat) returns (r: Result<string>)
      modifies this
      ensures r == TextOf(SeqCode(es, indent))
      ensures r.Success? ==> Flags() == Union(old(Flags()), SeqCode(es, indent).value.uses)
      decreases es, 4
    {
      var body := "";
      var bol := true;
      var shift := Spaces(4 * indent);
      ghost var uses := NoImports;
      for i := 0 to |es|
        invariant WalkPrefix(es, i, indent) == Walking(body, bol, uses)
        invariant Flags() == Union(old(Flags()), uses)
      {
        ghost var before, atStart := body, bol;
        if bol {
          body := body + shift;
          bol := false;
        }
        var step := TranslateStatement(es[i], indent);
        ghost var next := WalkAdvance(es, i, indent, before, atStart, uses, step);
        if step.Failure? {
          return Failure(step.error);
        }
        if step.value == "" {
          return Success(NotValid);
        }
        body := body + step.value;
        bol := es[i].ResetsLine();
        uses := next.uses;
      }
      assert SeqCode(es, indent) == Success(Code(body, uses));
      r := Success(body);
    }

    /**
     * One iteration of `translate_sequence`'s loop: the translators in the source's
     * order, the first non-empty text winning; the empty text when none applies.
     */
    method TranslateStatement(e: Exp, indent: nat) returns (r: Result<string>)
      modifies this
      ensures e.IsStatement() ==> r == TextOf(StmtCode(e, indent))
      ensures e.IsStatement() && r.Success? ==> Flags() == Union(old(Flags()), StmtCode(e, indent).value.uses)
      ensures !e.IsStatement() ==> r == Success("") && Flags() == old(Flags())
      decreases e, 4
    {
      var s := TranslateNewline(e);
      if s != "" { return Success(s); }
      s := TranslateComment(e);
      if s != "" { return Success(s); }
      s := TranslateAssign(e);
      if s != "" { return Success(s); }
      r := TranslateCd(e);
      if r != Success("") { return; }
      s := TranslateExit(e);
      if s != "" { return Success(s); }
      s := TranslateRead(e);
      if s != "" { return Success(s); }
      s := TranslateEcho(e);
      if s != "" { return Success(s); }
      r := TranslateCompound(e, indent);
    }

    /** The rest of the chain of `translate_sequence`: the compound statements, then a command. */
    method TranslateCompound(e: Exp, indent: nat) returns (r: Result<string>)
      requires !(e.NewlineExp? || e.CommentExp? || e.AssignExp? || e.CdExp? || e.ExitExp? || e.ReadExp? || e.EchoExp?)
      modifies this
      ensures e.IsStatement() ==> r == TextOf(StmtCode(e, indent))
      ensures e.IsStatement() && r.Success? ==> Flags() == Union(old(Flags()), StmtCode(e, indent).value.uses)
      ensures !e.IsStatement() ==> r == Success("") && Flags() == old(Flags())
      decreases e, 3
    {
      r := TranslateFor(e, indent);
      if r != Success("") { return; }
      r := TranslateIf(e, indent);
      if r != Success("") { return; }
      r := TranslateWhile(e, indent);
      if r != Success("") { return; }
      var s := TranslateCmd(e);
      return Success(s);
    }

    method TranslateNewline(e: Exp) returns (s: string)
      ensures s == if e.NewlineExp? then "\n" else ""
    {
      s := if e.NewlineExp? then "\n" else "";
    }

    method TranslateComment(e: Exp) returns (s: string)
      ensures s == if e.CommentExp? then CommentCode(e.content).text else ""
    {
      s := if e.CommentExp? then "#" + e.content else "";
    }

    /** `translate_word` */
    method TranslateWord(t: WordToken) returns (s: string)
      modifies this
      ensures s == WordCode(t).text && Flags() == Union(old(Flags()), WordCode(t).uses)
    {
      match t
      case SQuote(str, _) => s := str;
      case DQuote(str, _) => s := str;
      case Var(_, name) =>
        if AllDigits(name) {
          sysImport := true;
          s := "sys.argv[" + name + "]";
        } else {
          s := name;
        }
      case Word(str) => s := TranslateWordStr(str);
      case Assign(str, _, _) => s := TranslateWordStr(str);
    }

    /** `translate_word_str` */
    method TranslateWordStr(w: string) returns (s: string)
      modifies this
      ensures s == WordStrCode(w).text && Flags() == Union(old(Flags()), WordStrCode(w).uses)
    {
      if '$' in w {
        var i := DollarAt(w);
        if i < |w| {
          var group := w[i + 1..LineEnd(w, i + 1)];
          return "f\"" + SubAll(w, "{" + group + "}") + "\"";
        }
      }
      if IsGlobStr(w) {
        globImport := true;
        return "sorted(glob.glob(\"" + w + "\"))";
      }
      return "'" + w + "'";
    }

    /** `", ".join(map(self.translate_word, ws))`, the words translated left to right. */
    method TranslateWords(ws: seq<WordToken>) returns (s: string)
      modifies this
      ensures s == WordsCode(ws).text && Flags() == Union(old(Flags()), WordsCode(ws).uses)
    {
      var texts: seq<string> := [];
      ghost var cs := WordCodes(ws);
      for i := 0 to |ws|
        invariant texts == CodeTexts(cs[..i])
        invariant Flags() == Union(old(Flags()), UsesOf(cs[..i]))
      {
        var t := TranslateWord(ws[i]);
        CodesSnoc(cs, i);
        texts := texts + [t];
      }
      assert cs[..|ws|] == cs;
      s := Join(texts, ", ");
    }

    /** `translate_cd`: raises when the `cd` has no argument. */
    method TranslateCd(e: Exp) returns (r: Result<string>)
      modifies this
      ensures e.CdExp? ==> r == TextOf(CdCode(e.dir))
      ensures e.CdExp? && r.Success? ==> Flags() == Union(old(Flags()), CdCode(e.dir).value.uses)
      ensures !e.CdExp? ==> r == Success("") && Flags() == old(Flags())
    {
      if !e.CdExp? {
        return Success("");
      }
      osImport := true;
      if e.dir.None? {
        return Failure(CdWithoutDir);
      }
      var w := TranslateWord(e.dir.value);
      r := Success("os.chdir(" + w + ")");
    }

    /** `translate_value`: the elements of a list one after the other. */
    method TranslateValue(v: Value) returns (s: string)
      modifies this
      ensures s == ValueCode(v).text && Flags() == Union(old(Flags()), ValueCode(v).uses)
      decreases v, 1
    {
      match v
      case ListExp(list) =>
        var texts := TranslateList(list);
        ghost var cs := ValuesCode(list);
        assert |texts| == 1 ==> texts[0] == cs[0].text;
        s := if |texts| == 1 then texts[0] else "[" + Join(texts, ", ") + "]";
      case GlobExp(str, _) =>
        globImport := true;
        s := "sorted(glob.glob(\"" + str + "\"))";
      case FormatExp(parts) =>
        s := "f\"" + FormatText(parts) + "\"";
    }

    /** The loop of `translate_value` over the elements of a list. */
    method TranslateList(list: seq<(Value, Typ)>) returns (texts: seq<string>)
      modifies this
      ensures texts == CodeTexts(ValuesCode(list))
      ensures Flags() == Union(old(Flags()), UsesOf(ValuesCode(list)))
      decreases list, 0
    {
      texts := [];
      ghost var cs := ValuesCode(list);
      for i := 0 to |list|
        invariant texts == CodeTexts(cs[..i])
        invariant Flags() == Union(old(Flags()), UsesOf(cs[..i]))
      {
        var (elem, _) := list[i];
        assert list[i] in list && elem < list[i];
        var t := TranslateValue(elem);
        ValuesCodeAt(list, i);
        CodesSnoc(cs, i);
        texts := texts + [t];
      }
      assert cs[..|list|] == cs;
    }

    method TranslateAssign(e: Exp) returns (s: string)
      modifies this
      ensures e.AssignExp? ==> s == AssignCode(e.name, e.value).text &&
                               Flags() == Union(old(Flags()), AssignCode(e.name, e.value).uses)
      ensures !e.AssignExp? ==> s == "" && Flags() == old(Flags())
    {
      if !e.AssignExp? {
        return "";
      }
      var value := TranslateValue(e.value);
      s := e.name + " = " + value;
    }

    method TranslateExit(e: Exp) returns (s: string)
      modifies this
      ensures e.ExitExp? ==> s == ExitCode(e.exitCode).text && Flags() == Union(old(Flags()), SysImport)
      ensures !e.ExitExp? ==> s == "" && Flags() == old(Flags())
    {
      if !e.ExitExp? {
        return "";
      }
      sysImport := true;
      var code := if e.exitCode.None? then "" else e.exitCode.value.str;
      s := "sys.exit(" + code + ")";
    }

    method TranslateRead(e: Exp) returns (s: string)
      modifies this
      ensures e.ReadExp? ==> s == ReadCode(e.arg).text && Flags() == Union(old(Flags()), SysImport)
      ensures !e.ReadExp? ==> s == "" && Flags() == old(Flags())
    {
      if !e.ReadExp? {
        return "";
      }
      sysImport := true;
      var arg := if e.arg.None? then "" else e.arg.value.str + " = ";
      s := arg + "input()";
    }

    method TranslateEcho(e: Exp) returns (s: string)
      modifies this
      ensures e.EchoExp? ==> s == EchoCode(e.args).text && Flags() == Union(old(Flags()), EchoCode(e.args).uses)
      ensures !e.EchoExp? ==> s == "" && Flags() == old(Flags())
    {
      if !e.EchoExp? {
        return "";
      }
      var args := TranslateWords(e.args);
      s := "print(" + args + ")";
    }

    /** `translate_for`: the header, then the body one level deeper. */
    method TranslateFor(e: Exp, indent: nat) returns (r: Result<string>)
      modifies this
      ensures e.ForExp? ==> r == TextOf(StmtCode(e, indent))
      ensures e.ForExp? && r.Success? ==> Flags() == Union(old(Flags()), StmtCode(e, indent).value.uses)
      ensures !e.ForExp? ==> r == Success("") && Flags() == old(Flags())
      decreases e, 2
    {
      if !e.ForExp? {
        return Success("");
      }
      var iter := TranslateWords(e.iter);
      var header := "for " + e.loopVar.str + " in " + iter + ":\n";
      var body :- TranslateSequence(e.body, indent + 1);
      r := Success(header + body);
    }

    /** `translate_pred` */
    method TranslatePred(t: Test) returns (s: string)
      modifies this
      ensures s == PredCode(t).text && Flags() == Union(old(Flags()), PredCode(t).uses)
    {
      match t
      case FileAccessTestExp(op, file) =>
        osImport := true;
        var flag := "None";
        if op.str == "-r" {
          flag := "os.R_OK";
        } else if op.str == "-w" {
          flag := "os.W_OK";
        } else if op.str == "-x" {
          flag := "os.X_OK";
        }
        var f := TranslateWord(file);
        s := "os.access(" + f + ", " + flag + ")";
      case CmpTestExp(op, lhs, rhs) =>
        var o := if op.str == "=" then "==" else op.str;
        var l := TranslateWord(lhs);
        var rr := TranslateWord(rhs);
        s := l + " " + o + " " + rr;
    }

    /**
     * `translate_if`: the `if` clause, then one `elif` clause per further predicate, then
     * the `else` clause when there is a branch left over; indexing past the end of the
     * predicates or the branches raises.
     */
    method TranslateIf(e: Exp, indent: nat) returns (r: Result<string>)
      modifies this
      ensures e.IfExp? ==> r == TextOf(StmtCode(e, indent))
      ensures e.IfExp? && r.Success? ==> Flags() == Union(old(Flags()), StmtCode(e, indent).value.uses)
      ensures !e.IfExp? ==> r == Success("") && Flags() == old(Flags())
      decreases e, 2
    {
      if !e.IfExp? {
        return Success("");
      }
      var pred, branch := e.pred, e.branch;
      assert StmtCode(e, indent) == IfCode(pred, branch, indent);
      if |pred| == 0 {
        return Failure(IfBranchIndex);
      }
      var head := TranslatePred(pred[0]);
      if |branch| == 0 {
        return Failure(IfBranchIndex);
      }
      assert branch[0] in branch;
      var first :- TranslateSequence(branch[0].stmts, indent + 1);
      var elifs :- TranslateElifs(e, indent);
      var last :- TranslateElse(e, indent);
      ghost var f, el, la := SeqCode(branch[0].stmts, indent + 1).value, ElifsUpTo(pred, branch, |pred|, indent).value,
        ElseCode(pred, branch, indent).value;
      IfCodeOf(pred, branch, indent, f, el, la);
      r := Success("if " + head + ":\n" + first + elifs + last);
    }

    /** The `elif` loop of `translate_if`. */
    method TranslateElifs(e: Exp, indent: nat) returns (r: Result<string>)
      requires e.IfExp? && |e.pred| >= 1
      modifies this
      ensures r == TextOf(ElifsUpTo(e.pred, e.branch, |e.pred|, indent))
      ensures r.Success? ==> Flags() == Union(old(Flags()), ElifsUpTo(e.pred, e.branch, |e.pred|, indent).value.uses)
      decreases e, 1
    {
      var pred, branch := e.pred, e.branch;
      var code := "";
      ghost var uses := NoImports;
      for i := 1 to |pred|
        invariant ElifsUpTo(pred, branch, i, indent) == Success(Code(code, uses))
        invariant Flags() == Union(old(Flags()), uses)
      {
        var clause := TranslateElif(e, i, indent);
        if clause.Failure? {
          ElifsHalted(pred, branch, i + 1, |pred|, indent);
          return Failure(clause.error);
        }
        code := code + clause.value;
        uses := Union(uses, ElifCode(pred, branch, i, indent).value.uses);
      }
      r := Success(code);
    }

    /** One pass of the `elif` loop of `translate_if`: `branch[i]` past the end raises. */
    method TranslateElif(e: Exp, i: nat, indent: nat) returns (r: Result<string>)
      requires e.IfExp? && i < |e.pred|
      modifies this
      ensures r == TextOf(ElifCode(e.pred, e.branch, i, indent))
      ensures r.Success? ==> Flags() == Union(old(Flags()), ElifCode(e.pred, e.branch, i, indent).value.uses)
      decreases e, 0
    {
      var pred, branch := e.pred, e.branch;
      var p := TranslatePred(pred[i]);
      if i >= |branch| {
        return Failure(IfBranchIndex);
      }
      assert branch[i] in branch;
      var b :- TranslateSequence(branch[i].stmts, indent + 1);
      r := Success("elif " + p + ":\n" + b);
    }

    /** The `else` clause of `translate_if`: the last branch, when there is one more branch than predicates. */
    method TranslateElse(e: Exp, indent: nat) returns (r: Result<string>)
      requires e.IfExp?
      modifies this
      ensures r == TextOf(ElseCode(e.pred, e.branch, indent))
      ensures r.Success? ==> Flags() == Union(old(Flags()), ElseCode(e.pred, e.branch, indent).value.uses)
      ensures !(|e.branch| > |e.pred|) ==> Flags() == old(Flags())
      decreases e, 0
    {
      var pred, branch := e.pred, e.branch;
      if |branch| > |pred| {
        assert branch[|branch| - 1] in branch;
        var b :- TranslateSequence(branch[|branch| - 1].stmts, indent + 1);
        r := Success("else:\n" + b);
      } else {
        r := Success("");
      }
    }

    method TranslateWhile(e: Exp, indent: nat) returns (r: Result<string>)
      modifies this
      ensures e.WhileExp? ==> r == TextOf(StmtCode(e, indent))
      ensures e.WhileExp? && r.Success? ==> Flags() == Union(old(Flags()), StmtCode(e, indent).value.uses)
      ensures !e.WhileExp? ==> r == Success("") && Flags() == old(Flags())
      decreases e, 2
    {
      if !e.WhileExp? {
        return Success("");
      }
      var p := TranslatePred(e.cond);
      var header := "while " + p + ":\n";
      var body :- TranslateSequence(e.body, indent + 1);
      r := Success(header + body);
    }

    method TranslateCmd(e: Exp) returns (s: string)
      modifies this
      ensures e.CmdExp? ==> s == CmdCode(e.cmd).text && Flags() == Union(old(Flags()), CmdCode(e.cmd).uses)
      ensures !e.CmdExp? ==> s == "" && Flags() == old(Flags())
    {
      if !e.CmdExp? {
        return "";
      }
      subprocessImport := true;
      var args := TranslateWords(e.cmd);
      s := "subprocess.call([" + args + "])";
    }
  }
}
