/** Option, and the Result that stands for "the translator raised an exception here". */
module Results {

  datatype Option<+T> = None | Some(value: T)

  /** The exceptions the Python program can raise, and the lexer's `None` return. */
  datatype Crash =
    | ShebangNotFound   // `m.span()` on the `None` that `re.search` gives when `#!/bin/dash\n` is absent
    | NoRuleMatches     // `tokenize` returning `None`: no lexical rule matches a non-empty remainder
    | GlobExpArity      // `GlobExp(fmtexp)` called with one argument where the constructor takes two
    | CdWithoutDir      // `translate_word(None)` reaching `word.str` for a `cd` without argument
    | IfBranchIndex     // `exp.pred[0]` or `exp.branch[i]` out of range in an `IfExp` not built by the parser

  datatype Result<+T> = Success(value: T) | Failure(error: Crash) {

    predicate IsFailure() {
      Failure?
    }

    function PropagateFailure<U>(): Result<U>
      requires Failure?
    {
      Failure(error)
    }

    function Extract(): T
      requires Success?
    {
      value
    }
  }
}
