/**
 * The lexer's tokens.  In the source `SQuote`, `DQuote`, `Assign` and `Var` are
 * subclasses of `Word`: every token except a comment and a newline carries the
 * literal text `str` it was lexed from, and the parser accepts all of them wherever
 * it asks for a word.
 */
module Tokens {
  import opened Chars

  datatype Token =
    | Comment(content: string)
    | Newline
    | Word(str: string)
    | SQuote(str: string, content: string)
    | DQuote(str: string, content: string)
    | Assign(str: string, name: string, value: string)
    | Var(str: string, name: string)
  {
    /** `Word.is_word`: an instance of `Word` or of one of its subclasses. */
    predicate IsWord() {
      !Comment? && !Newline?
    }

    /** What the lexer's rules guarantee about the token they build. */
    predicate WellFormed() {
      match this
      case Comment(c) => |c| > 0 && c[0] == '#' && '\n' !in c
      case Newline => true
      case Word(w) => |w| > 0 && NoBlank(w)
      case SQuote(s, c) => s == "'" + c + "'" && '\'' !in c
      case DQuote(s, c) => s == "\"" + c + "\"" && '"' !in c
      case Assign(s, n, v) =>
        s == n + "=" + v && |n| > 0 && AllWordChars(n) && |v| > 0 && NoBlank(v)
      case Var(s, n) => |n| > 0 && AllWordChars(n) && (s == "$" + n || s == "${" + n + "}")
    }
  }

  /** The tokens that may stand where the parser asks for a word. */
  type WordToken = t: Token | t.IsWord() witness Word("")

  /** `Word.is_word_with(t, s)` */
  predicate IsWordWith(t: Token, s: string) {
    t.IsWord() && t.str == s
  }

  /** A glob metacharacter. */
  predicate IsGlobChar(c: char) {
    c == '*' || c == '?' || c == '[' || c == ']'
  }

  /** `is_glob_str`: the word holds one of the glob metacharacters `*`, `?`, `[`, `]`. */
  function IsGlobStr(s: string): (b: bool)
    ensures b <==> exists i :: 0 <= i < |s| && IsGlobChar(s[i])
  {
    '*' in s || '?' in s || '[' in s || ']' in s
  }

  /** The source text a token was cut from; a comment's text includes the newline it consumed. */
  function Text(t: Token): string {
    match t
    case Comment(c) => c + "\n"
    case Newline => "\n"
    case Word(w) => w
    case SQuote(s, _) => s
    case DQuote(s, _) => s
    case Assign(s, _, _) => s
    case Var(s, _) => s
  }

  function Texts(ts: seq<Token>): string {
    if ts == [] then "" else Text(ts[0]) + Texts(ts[1..])
  }
}
