/**
 * The syntax tree the parser builds (sheepy.py `Typ`, `Exp` and their subclasses).
 * Words inside the tree are `WordToken`s, the lexer's tokens themselves, so that the
 * translator can tell a quoted word or a variable from a bare one.
 */
module Syntax {
  import opened Results
  import opened Tokens

  const FileAccessOperators: seq<string> := ["-r", "-w", "-x"]
  const StrCmpOperators: seq<string> := ["=", "!="]

  datatype Typ = WordTyp | ListTyp

  /** `FileAccessTestExp` and `CmpTestExp`, the two forms of a `test` predicate. */
  datatype Test =
    | FileAccessTestExp(op: WordToken, file: WordToken)
    | CmpTestExp(op: WordToken, lhs: WordToken, rhs: WordToken)

  /** The value expressions an assignment's right-hand side is built from. */
  datatype Value =
    | ListExp(list: seq<(Value, Typ)>)
    | GlobExp(str: string, typ: Typ)
    | FormatExp(parts: seq<WordToken>)

  /**
   * The statements, plus `TestNode` and `ValueNode` for a test or a value expression
   * standing where a statement is expected: the parser never puts one there, but
   * `translate_sequence` has a branch for any node it does not know.
   */
  datatype Exp =
    | NewlineExp
    | CommentExp(content: string)
    | AssignExp(name: string, value: Value, typ: Typ)
    | CdExp(dir: Option<WordToken>)
    | ExitExp(exitCode: Option<WordToken>)
    | ReadExp(arg: Option<WordToken>)
    | EchoExp(args: seq<WordToken>)
    | ForExp(loopVar: WordToken, iter: seq<WordToken>, body: seq<Exp>)
    | IfExp(pred: seq<Test>, branch: seq<Block>)
    | WhileExp(cond: Test, body: seq<Exp>)
    | CmdExp(cmd: seq<WordToken>)
    | TestNode(test: Test)
    | ValueNode(value: Value)
  {
    /** One of the statement classes `translate_sequence` knows. */
    predicate IsStatement() {
      !TestNode? && !ValueNode?
    }

    /** After these four, `translate_sequence` indents the next statement again. */
    predicate ResetsLine() {
      NewlineExp? || CommentExp? || AssignExp? || CdExp?
    }
  }

  /** One branch of an `IfExp`: the statement list of its body. */
  datatype Block = Block(stmts: seq<Exp>)

  /** A predicate as `parse_pred_*` builds it: the operator is one the form accepts. */
  predicate TestWellFormed(t: Test) {
    match t
    case FileAccessTestExp(op, _) => op.str in FileAccessOperators
    case CmpTestExp(op, _, _) => op.str in StrCmpOperators
  }

  /** A right-hand side as `parse_assign` builds it: one format expression per space-separated piece. */
  predicate AssignValueWellFormed(v: Value) {
    v.ListExp? && |v.list| >= 1 &&
    forall i :: 0 <= i < |v.list| ==> v.list[i].0.FormatExp? && v.list[i].1 == WordTyp
  }

  /** The shape of every statement the parser appends. */
  predicate WellFormed(e: Exp)
    decreases e, 1
  {
    match e
    case NewlineExp => true
    case CommentExp(_) => true
    case AssignExp(_, v, typ) => AssignValueWellFormed(v) && typ == ListTyp
    case CdExp(_) => true
    case ExitExp(_) => true
    case ReadExp(_) => true
    case EchoExp(_) => true
    case ForExp(_, _, body) => AllWellFormed(body)
    case IfExp(pred, branch) =>
      1 <= |pred| <= |branch| <= |pred| + 1 &&
      (forall i :: 0 <= i < |pred| ==> TestWellFormed(pred[i])) &&
      (forall i :: 0 <= i < |branch| ==> AllWellFormed(branch[i].stmts))
    case WhileExp(cond, body) => TestWellFormed(cond) && AllWellFormed(body)
    case CmdExp(cmd) => |cmd| >= 1
    case TestNode(_) => false
    case ValueNode(_) => false
  }

  predicate AllWellFormed(es: seq<Exp>)
    decreases es, 0
  {
    forall i :: 0 <= i < |es| ==> WellFormed(es[i])
  }
}
