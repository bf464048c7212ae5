# sheepy — a verified model of a dash-to-Python translator

`sheepy.py` reads a script written in a small subset of the dash shell and prints a
Python 3 program that does the same thing. It works in three stages, all modelled here:

- **Lexer** (`lexing.dfy`): the `Lexer` class cuts its `input` string from the front and
  appends to its `token` list. After the `#!/bin/dash` line, nine rules are tried in a
  fixed priority order. Each rule is a regular expression, searched with `re.search` and
  accepted only when the match starts at offset 0. Here each rule is a hand-written
  prefix matcher (`MatchComment` … `MatchEmpty`). `Lex` is the whole `while True` loop
  as a function, and `Lexer.Tokenize` is proved to compute it.
- **Parser** (`parsing.dfy`, `wordvalues.dfy`): recursive descent over the tokens with a
  `pos` cursor. The `for`, `if`, `while` and `test` parsers save the cursor and put it
  back when they fail. Each `Parse*` method takes the statement list the source appends
  to in place (`stmt`) and returns it as `out`. `var_extractor`, `str_exp_mapper` and
  `re.split(' +', …)` decide what an assignment's value becomes; they are functions in
  `wordvalues.dfy`.
- **Translator** (`pythoncode.dfy`, `translating.dfy`): a tree walk that returns Python
  text and sets four import flags (`glob`, `os`, `subprocess`, `sys`). `translate`
  places one `import` line per flag that is set, after the interpreter line. In
  `pythoncode.dfy` each `translate_*` is a function giving the text together with the
  flags it sets (`Code`). The `Translator` class in `translating.dfy` holds the flags as
  fields. Each of its methods is proved to return exactly that function's text and to
  add exactly its flags. `pythonfacts.dfy` proves what the emitted text is like.

Python exceptions are modelled as values of `Results.Crash`, carried in a `Result`:

| Crash | What raises it in the source |
|---|---|
| `ShebangNotFound` | `m.span()` on `None` when `#!/bin/dash\n` occurs nowhere in the input |
| `GlobExpArity` | `GlobExp(fmtexp)` is called with one argument, so an assignment value holding `*`, `?`, `[` or `]` raises |
| `CdWithoutDir` | `translate_word(None)` for a `cd` without argument |
| `IfBranchIndex` | `exp.pred[0]` or `exp.branch[i]` out of range in an `IfExp` the parser does not build |

Behaviours of the code that a reader may not expect:

- **Directive line.** It is stripped only at offset 0, and the program raises when the
  directive appears nowhere at all.
- **Lexer failure.** Lexing cannot fail once the directive step has passed: every
  non-empty input starts with either `\S+` or `\s+` (`Lexing.Step`).
- **Assignment values.** They are split at runs of spaces, not at any whitespace. A glob
  character in the value raises (`GlobExpArity`) instead of producing a glob
  expression. The words of `echo`, a command or a `for` list are never classified this
  way; they go through `translate_word`.
- **Unknown node.** `translate_sequence` does not abort. It returns the text
  `error: not valid exp` as the body, and the header is still printed.
- **`$` in a bare word.** Everything from the first `$` to the end of the word becomes
  one interpolated expression: `a$b.txt` gives `f"a{b.txt}"`. It is not just the
  variable's name.
- **Blank lines.** A newline that follows spaces or tabs is taken into the same `\s+` run
  and gives no `Newline` token (`Lexing.BlankRunSwallowsNewline`). A comment's newline
  is part of the comment token. So blank lines are not carried over one for one.

## Model

| member | source | states |
|---|---|---|
| Chars.Find | sheepy.py:132 | `re.search` for a literal pattern: the leftmost offset at which the pattern occurs, or none when it occurs nowhere |
| Chars.Run | sheepy.py:207-224 | the greedy `\S+` or `\s+` at the front: every character it takes is in the class, and the next one is not |
| Lexing.MatchComment | sheepy.py:137-145 | matches exactly when the input starts with `#` and holds a newline; the match is a well-formed `Comment` token whose text is the non-empty prefix it cuts |
| Lexing.MatchSQuote | sheepy.py:147-155 | matches exactly when the input starts with `'` and another `'` follows; the match is a well-formed `SQuote` token whose text is the prefix it cuts |
| Lexing.MatchDQuote | sheepy.py:157-165 | the same for `"` and a `DQuote` token |
| Lexing.MatchNewline | sheepy.py:167-175 | matches exactly at a newline; the match is one `Newline` token over one character |
| Lexing.MatchAssign | sheepy.py:177-185 | matches exactly when a non-empty run of word characters is followed by `=` and a non-blank character; the match is a well-formed `Assign` token named by that run, whose text is the prefix cut, followed by a blank or by the end of the input |
| Lexing.MatchVar | sheepy.py:187-195 | matches exactly at `$` followed by a word character; the match is a well-formed `Var` token over the prefix it cuts, followed by a non-word character or by the end |
| Lexing.MatchVarCurly | sheepy.py:197-205 | matches exactly at `${`, a non-empty run of word characters and `}`; the match is a well-formed `Var` token named by the text between the braces, whose text is the prefix cut |
| Lexing.MatchWord | sheepy.py:207-215 | matches exactly at a non-blank character; the match is a well-formed `Word` token over the prefix it cuts, followed by a blank or by the end |
| Lexing.MatchEmpty | sheepy.py:217-224 | matches exactly at a blank; the match cuts a blank prefix, followed by a non-blank character or by the end, and gives no token |
| Lexing.Step | sheepy.py:105-128 | a match cuts a non-empty prefix and gives a well-formed token with that text, or no token for a blank prefix; no rule matches exactly when the input is empty, so lexing never fails on a non-empty input |
| Lexing.StepRuleOrder | sheepy.py:105-122 | the rules are tried in the source's order: an assignment is lexed as one even though it also starts a word, and `$` followed by a word character, or the `${name}` form, is lexed as a variable and never as a word |
| Lexing.Lex | sheepy.py:104-129 | the loop as a function: every token it gives is well formed |
| Lexing.LexKeepsNonBlank | sheepy.py:104-129 | the non-blank characters of the input come out in the tokens' texts, in input order, none lost or added |
| Lexing.StripShebang | sheepy.py:131-135 | fails exactly when the directive occurs nowhere; it is cut when it starts the input, and otherwise the input is unchanged |
| Lexing.LexScript | sheepy.py:103-129 | `tokenize` fails with `ShebangNotFound` exactly when the directive is absent |
| Lexing.BlankRunSwallowsNewline | sheepy.py:217-224 | spaces or tabs, a newline and any blanks after it are one blank run with no `Newline` token: lexing goes on at the first non-blank character |
| Lexing.CommentKeepsHashAndNewline | sheepy.py:137-145 | a comment line gives one `Comment` token starting with `#`, and its newline gives no `Newline` token |
| Lexing.ShebangCutOnce | sheepy.py:131-135 | a leading directive is cut once; the rest is lexed as it stands |
| Lexing.Lexer.constructor | sheepy.py:99-101 | the input is stored and the token list is empty |
| Lexing.Lexer.Tokenize | sheepy.py:103-129 | raises as `LexScript` does, and otherwise appends exactly `Lex` of the input after the directive; on success the list it returns is the object's token list and the input is used up |
| Lexing.Lexer.LexNext | sheepy.py:105-122 | one loop turn: succeeds exactly when `Step` matches; then it cuts `Step`'s length and appends its token; otherwise nothing changes |
| Lexing.Lexer.Shebang | sheepy.py:131-135 | reports whether the directive was found, leaves the input as `StripShebang` gives it, and appends no token |
| Lexing.Lexer.Accept | sheepy.py:140-145 | on a match, appends the token and cuts the match; on no match, changes nothing |
| Lexing.Lexer.LexComment | sheepy.py:137-145 | succeeds exactly when `MatchComment` does, cutting and appending what it gives |
| Lexing.Lexer.LexSQuote | sheepy.py:147-155 | the same with `MatchSQuote` |
| Lexing.Lexer.LexDQuote | sheepy.py:157-165 | the same with `MatchDQuote` |
| Lexing.Lexer.LexNewline | sheepy.py:167-175 | succeeds exactly when `MatchNewline` does; then it appends one `Newline` token and cuts one character |
| Lexing.Lexer.LexAssign | sheepy.py:177-185 | the same with `MatchAssign` |
| Lexing.Lexer.LexVar | sheepy.py:187-195 | the same with `MatchVar` |
| Lexing.Lexer.LexVarCurly | sheepy.py:197-205 | the same with `MatchVarCurly` |
| Lexing.Lexer.LexWord | sheepy.py:207-215 | the same with `MatchWord` |
| Lexing.Lexer.LexEmpty | sheepy.py:217-224 | succeeds exactly when `MatchEmpty` does; then it cuts what that matches and leaves the tokens unchanged |
| Lexing.Lexer.Cut | sheepy.py:229-230 | drops the input up to the end of the match and keeps the tokens |
| Lexing.Lexer.Eof | sheepy.py:226-227 | true exactly when no rule matches, that is, when the input is used up |
| Tokens.IsGlobStr | sheepy.py:27-30 | true exactly when the string holds `*`, `?`, `[` or `]` |
| WordValues.Strip | sheepy.py:576 | `re.sub(r'[${}]', '', …)`: no `$`, `{` or `}` is left |
| WordValues.StripAppend | sheepy.py:576 | stripping distributes over concatenation |
| WordValues.VarLen | sheepy.py:552-553 | the match of `\$(\w+\|{\w+})` at the front starts with `$` and lies inside the string |
| WordValues.VarLenAgreesWithLexer | sheepy.py:552-553 | the variable match at the front is as long as what the lexer's `$name` rule cuts, or else its `${name}` rule; it is empty when neither matches |
| WordValues.VarLenMatchesVariable | sheepy.py:574-577 | what the pattern matches is a well-formed variable token whose name is its text stripped |
| WordValues.NextVar | sheepy.py:553-558 | where `re.finditer` finds its next match: a match starts there, or there is none |
| WordValues.NextVarAtStart | sheepy.py:553-560 | the first match starts at offset 0 exactly when the string starts with a variable |
| WordValues.NextVarLeftmost | sheepy.py:553-558 | no match starts before `NextVar`: the match found is the leftmost one |
| WordValues.VarExtractor | sheepy.py:551-580 | the `str` fields of the pieces, concatenated, give back the input |
| WordValues.VarExtractorPieces | sheepy.py:551-580 | every piece is non-empty; each is a literal word or a well-formed variable whose name is its text stripped; no two literal pieces are adjacent; the first piece is a variable exactly when the input starts with one |
| WordValues.SplitSpaces | sheepy.py:599 | `re.split(' +', …)` gives at least one piece |
| WordValues.SplitSpacesPieces | sheepy.py:599 | no piece holds a space; the pieces together are the input without its spaces; the input stays whole exactly when it has no space |
| WordValues.FoldSpaces | sheepy.py:599 | the input with each run of spaces folded to one space: never longer, starting with a space exactly when the input does, with no two spaces side by side |
| WordValues.SplitSpacesJoin | sheepy.py:599 | joining the pieces with one space gives the input with each run of spaces folded to one |
| WordValues.StrExpMapper | sheepy.py:583-593 | raises `GlobExpArity` exactly when the piece holds a glob character; otherwise a word-typed `FormatExp` whose parts concatenate to the piece |
| WordValues.GlobInParts | sheepy.py:585-589 | the loop over the parts finds a glob character exactly when the whole piece holds one |
| WordValues.MapStrExp | sheepy.py:600 | `map` raises exactly when some piece holds a glob character; otherwise one mapped element per piece, in order |
| WordValues.AssignValue | sheepy.py:597-601 | raises `GlobExpArity` exactly when the value holds a glob character; otherwise a `ListExp` of word-typed `FormatExp`s, one per piece |
| WordValues.GlobInPieces | sheepy.py:597-601 | a glob character is never a space, so it lands in one of the pieces |
| WordValues.AssignTokenValueIsOnePiece | sheepy.py:595-601 | an assignment token's value has no blank, so it is one piece, and the `ListExp` holds exactly the `FormatExp` of its `var_extractor` pieces |
| Parsing.WordAt | sheepy.py:509-514 | the token at a position, exactly when it exists and is a word |
| Parsing.FileAccessAt | sheepy.py:695-721 | a result is a file-access test whose operator is `-r`, `-w` or `-x`, and its three tokens lie within the list |
| Parsing.StrCmpAt | sheepy.py:723-756 | a result is a comparison whose operator is `=` or `!=`, and its four tokens lie within the list |
| Parsing.PredAt | sheepy.py:688-693 | a result is a well-formed test whose tokens lie within the list |
| Parsing.WordsAt | sheepy.py:875-878 | the maximal run of words from a position: words only, inside the list, with no word right after them |
| Parsing.SeqAt | sheepy.py:400-445 | the grammar of `parse_sequence`: well-formed statements, stopping at the end of the tokens or at a terminator, which is not consumed; the only exception is `GlobExpArity` |
| Parsing.StmtAt | sheepy.py:409-441 | one turn of that loop, the statement forms tried in the source's order: a well-formed statement that consumes at least one token; the only exception is `GlobExpArity` |
| Parsing.ForHeadAt | sheepy.py:641-667 | a match reads `for`, a word, `in`, the words to iterate over, a newline, `do` and a newline, and the body starts right after them |
| Parsing.ForAt | sheepy.py:641-685 | the grammar of `parse_for`: a well-formed `ForExp` read from `for` up to `done`; the only exception is `GlobExpArity` |
| Parsing.ThenAt | sheepy.py:768-790 | a clause: the predicate `PredAt` reads at the position, then a well-formed statement list; the only exception is `GlobExpArity` |
| Parsing.ElifsAt | sheepy.py:792-816 | the `elif` loop: as many predicates as bodies, all well formed, stopping where `elif` is no longer next |
| Parsing.IfAt | sheepy.py:758-837 | the grammar of `parse_if`: a well-formed `IfExp` from `if` up to `fi` whose first predicate is the one after `if` |
| Parsing.IfClose | sheepy.py:817-837 | the end of `parse_if`: the `IfExp` keeps the clauses read so far, ends at `fi`, and has one more branch than predicates exactly when `else` came next |
| Parsing.WhileHeadAt | sheepy.py:839-863 | a match reads `while`, a predicate, a newline, `do` and a newline, and the body starts right after them |
| Parsing.WhileAt | sheepy.py:839-873 | the grammar of `parse_while`: a well-formed `WhileExp` from `while` up to `done` whose condition is the predicate after `while` |
| Parsing.Parser.constructor | sheepy.py:389-392 | the tokens are stored and the cursor starts at 0 |
| Parsing.Parser.PosOutOfRange | sheepy.py:449-450 | past the end there is no word, no newline and no terminator |
| Parsing.Parser.NextIsComment | sheepy.py:452-457 | a comment at the cursor is neither a word nor a newline |
| Parsing.Parser.NextIsWord | sheepy.py:459-464 | true exactly when `WordAt` finds a word at the cursor |
| Parsing.Parser.NextIsWordWith | sheepy.py:466-471 | when true, the cursor is at a word whose text is the keyword |
| Parsing.Parser.NextIsNewline | sheepy.py:473-478 | a newline at the cursor is not a word |
| Parsing.Parser.NextIsAssign | sheepy.py:480-485 | an assignment at the cursor is also a word, as `Assign` is a kind of `Word` |
| Parsing.Parser.NextIsTerminator | sheepy.py:487-500 | true exactly when the next token is the word `done`, `elif`, `else` or `fi` |
| Parsing.Parser.ConsumeNextComment | sheepy.py:502-507 | takes the comment at the cursor and advances by one, or does nothing |
| Parsing.Parser.ConsumeNextWord | sheepy.py:509-514 | takes the word at the cursor and advances by one, or does nothing |
| Parsing.Parser.ConsumeNextWordIfIs | sheepy.py:516-520 | advances by one exactly when the next token is that word |
| Parsing.Parser.ConsumeNextNewline | sheepy.py:522-526 | advances by one exactly when the next token is a newline |
| Parsing.Parser.ConsumeNextAssign | sheepy.py:528-533 | takes the assignment token at the cursor and advances by one, or does nothing |
| Parsing.Parser.ParseNewline | sheepy.py:537-541 | appends `NewlineExp` and advances by one exactly at a newline |
| Parsing.Parser.ParseComment | sheepy.py:543-549 | exactly at a comment token: appends its content and advances by two, so the token after a comment is skipped |
| Parsing.Parser.ParseAssign | sheepy.py:595-605 | exactly at an assignment token: advances by one and raises `GlobExpArity` exactly when the value holds a glob character, otherwise appends `AssignExp(name, AssignValue(value), ListTyp)`; anywhere else changes nothing |
| Parsing.Parser.ParseCd | sheepy.py:607-614 | exactly at `cd`: appends `CdExp` of the next word if there is one, consuming it too; otherwise changes nothing |
| Parsing.Parser.ParseExit | sheepy.py:616-623 | the same for `exit` and `ExitExp` |
| Parsing.Parser.ParseRead | sheepy.py:625-630 | the same for `read` and `ReadExp` |
| Parsing.Parser.ParseEcho | sheepy.py:632-639 | exactly at `echo`: appends `EchoExp` of `WordsAt` the token after it and moves past those words; otherwise changes nothing |
| Parsing.Parser.ConsumeWords | sheepy.py:635-636 | returns `WordsAt` the cursor and moves past those words |
| Parsing.Parser.ParseCmd | sheepy.py:875-880 | appends `CmdExp` of `WordsAt` the cursor and moves past those words |
| Parsing.Parser.ParsePredFileAccess | sheepy.py:695-721 | gives `FileAccessAt` and advances by three, or leaves the cursor where it was |
| Parsing.Parser.ParsePredStrCmp | sheepy.py:723-756 | gives `StrCmpAt` and advances by four, or leaves the cursor where it was |
| Parsing.Parser.ParsePred | sheepy.py:688-693 | gives `PredAt` and advances by its length, or leaves the cursor |
| Parsing.Parser.ParseSequence | sheepy.py:400-445 | exactly `SeqAt` from the cursor: its exception, or its statements appended to the list with the cursor where it stops; it never returns False |
| Parsing.Parser.ParseStatement | sheepy.py:409-441 | exactly `StmtAt` at the cursor: its exception, or its statement appended with the cursor after it |
| Parsing.Parser.ParseFor | sheepy.py:641-685 | exactly `ForAt` at the cursor: its exception; False with the list and the cursor as on entry; or its `ForExp` appended with the cursor after `done` |
| Parsing.Parser.ParseForHead | sheepy.py:641-667 | exactly `ForHeadAt`: the loop variable and the words, with the cursor at the body, or none |
| Parsing.Parser.ParseIf | sheepy.py:758-837 | exactly `IfAt` at the cursor, with the same three outcomes as `ParseFor` |
| Parsing.Parser.ParseIfClose | sheepy.py:817-837 | exactly `IfClose` at the cursor for the clauses read so far |
| Parsing.Parser.ParseElifClauses | sheepy.py:792-816 | exactly `ElifsAt` at the cursor: its exception, none, or its clauses with the cursor after them |
| Parsing.Parser.ParseThenClause | sheepy.py:768-790 | exactly `ThenAt` at the cursor: its exception, none, or the predicate and the body with the cursor after them |
| Parsing.Parser.ParseWhile | sheepy.py:839-873 | exactly `WhileAt` at the cursor, with the same three outcomes as `ParseFor` |
| Parsing.Parser.ParseWhileHead | sheepy.py:839-863 | exactly `WhileHeadAt`: the predicate, with the cursor at the body, or none |
| Parsing.Parser.Parse | sheepy.py:395-398 | the statements `SeqAt` reads from the start, or its exception |
| PythonCode.Union | sheepy.py:1010 | setting the flags of a further translation never clears one already set |
| PythonCode.UnionLeast | sheepy.py:1010 | flags that cover both sides cover the union, so no flag is set that neither side sets |
| PythonCode.DollarAt | sheepy.py:995 | a place where `\$(.+)` matches, a `$` followed by a character other than a newline, or the end of the word when there is none |
| PythonCode.LineEnd | sheepy.py:995-998 | from a given offset, the greedy `.+` stops at the next newline or at the end |
| PythonCode.SubAll | sheepy.py:998 | the word up to the first `\$.+` match stays as it is, and a word with no match is unchanged |
| PythonCode.WordStrCode | sheepy.py:993-1006 | sets at most `glob`, and sets it only for a word with a glob character and no `$` match |
| PythonCode.WordCode | sheepy.py:978-991 | never sets `os` or `subprocess`, and sets `sys` only for a variable named by digits |
| PythonCode.PredCode | sheepy.py:1092-1115 | a file-access test sets `os`; no test sets `subprocess` |
| PythonCode.ValueCode | sheepy.py:1016-1036 | sets at most `glob` |
| PythonCode.ValuesCode | sheepy.py:1019-1021 | one translation per element, none of them setting more than `glob` |
| PythonCode.UsesOfCovered | sheepy.py:1019-1021 | flags that cover each element's flags cover all of them together |
| PythonCode.CodesSnoc | sheepy.py:1020-1021 | translating one more element appends its text and adds its flags |
| PythonCode.ValuesCodeAt | sheepy.py:1019-1021 | element `i` of a list translates as `translate_value` of element `i` |
| PythonCode.WalkHalted | sheepy.py:961-963 | once `translate_sequence` has returned or raised, the later nodes change nothing |
| PythonCode.WalkPrefixErrors | sheepy.py:903-964 | the walk raises nothing but `CdWithoutDir` or `IfBranchIndex` |
| PythonCode.SeqCode | sheepy.py:903-964 | `translate_sequence` raises nothing but `CdWithoutDir` or `IfBranchIndex` |
| PythonCode.StmtCode | sheepy.py:913-960 | one statement raises nothing but `CdWithoutDir` or `IfBranchIndex` |
| PythonCode.IfCode | sheepy.py:1117-1135 | raises nothing but those two; when it succeeds there is a predicate and at least as many branches as predicates |
| PythonCode.ElifsUpTo | sheepy.py:1123-1127 | raises nothing but those two; when it succeeds past the first predicate there was a branch for each predicate it read |
| PythonCode.ElifCode | sheepy.py:1124-1127 | raises nothing but those two; when it succeeds the branch index was in range |
| PythonCode.ElseCode | sheepy.py:1128-1131 | raises nothing but those two |
| PythonCode.Header | sheepy.py:890-899 | starts with the interpreter line, and is exactly that line when no flag is set |
| PythonCode.Program | sheepy.py:890-901 | raises exactly when the body does; otherwise the text starts with the interpreter line |
| PythonCode.WalkAdvance | sheepy.py:907-963 | the same turn, starting from the text the chain of translators gave |
| PythonCode.StmtTextNonEmpty | sheepy.py:913-960 | every statement that translates gives non-empty text, so the first translator that applies is the one used |
| PythonFacts.WordCodeImports | sheepy.py:978-1006 | a word sets `sys` exactly when it is a variable named by digits, and `glob` exactly when it is a bare word with a glob character and no `$` match; it never sets `os` or `subprocess` |
| PythonFacts.SubAllLine | sheepy.py:998 | on one line, `re.sub(r'\$.+', …)` replaces everything from the first match to the end |
| PythonFacts.WordStrOneLine | sheepy.py:993-1000 | a one-line word with a `$` match becomes `f"prefix{rest}"`, where `rest` is everything after that `$`, and sets no flag |
| PythonFacts.BareWordWithDollar | sheepy.py:993-1000 | a well-formed bare or assignment word with a `$` match becomes `f"prefix{rest}"` and sets no flag |
| PythonFacts.WalkLayout | sheepy.py:907-963 | while the walk goes on, statement `k` is indented exactly when it is the first or follows a newline, comment, assignment or `cd`; nothing else comes between statements |
| PythonFacts.WalkGrows | sheepy.py:903-964 | while the walk goes on, every earlier point of it was going on too, and its text is a prefix of the later text |
| PythonFacts.SeqCodeIndented | sheepy.py:906-910 | a translated non-empty list starts with `4 * indent` spaces |
| PythonFacts.WalkStops | sheepy.py:961-963 | the walk returns the error text exactly when it reaches a node that is not a statement |
| PythonFacts.StoppedHasCause | sheepy.py:961-963 | a stopped walk passed a node that is not a statement |
| PythonFacts.CauseStops | sheepy.py:961-963 | reaching a node that is not a statement stops the walk for good |
| PythonFacts.SeqCodeNotValid | sheepy.py:961-963 | the first node that is not a statement makes the body exactly `error: not valid exp`, with the flags set before it |
| PythonFacts.SeqRaises | sheepy.py:1008-1014 | a parser-built list raises exactly when it holds a `cd` without argument, and then with `CdWithoutDir` |
| PythonFacts.WalkRaises | sheepy.py:903-964 | every prefix of the walk either goes on or has raised `CdWithoutDir`, and it has raised exactly when the prefix holds a bare `cd` |
| PythonFacts.AnyBareCdSnoc | sheepy.py:1008-1014 | a prefix holds a bare `cd` when the shorter prefix does or its last statement does |
| PythonFacts.StmtRaises | sheepy.py:1008-1014 | a parser-built statement raises exactly when it holds a bare `cd`, nested bodies included |
| PythonFacts.IfRaises | sheepy.py:1117-1135 | a parser-built `if` raises exactly when one of its branches holds a bare `cd` |
| PythonFacts.ElifsRaise | sheepy.py:1123-1127 | the `elif` loop raises exactly when one of its branches holds a bare `cd` |
| PythonFacts.StripClean | sheepy.py:576 | a string without `$`, `{` or `}` strips to itself |
| PythonFacts.FormatTextStrip | sheepy.py:1028-1036 | once `$`, `{` and `}` are removed, the f-string body and the pieces' text are the same |
| PythonFacts.StripBraced | sheepy.py:1031 | `{name}` strips to the name |
| PythonFacts.FormatOfPiece | sheepy.py:1028-1036 | once `$`, `{` and `}` are removed, the f-string body built for an assignment piece is the piece itself |
| PythonFacts.NoDollarNoVar | sheepy.py:553 | without a `$` there is no variable match |
| PythonFacts.PlainPiece | sheepy.py:551-580 | a piece without `$` is one literal word, or none when it is empty, and its f-string body is the piece itself |
| PythonFacts.PlainAssignment | sheepy.py:1038-1046 | an assignment whose value has no `$` and no glob character becomes `name = f"value"` and needs no import |
| PythonFacts.SingleValueCode | sheepy.py:1022-1023 | a list of one element translates as that element alone |
| PythonFacts.ElifsIndex | sheepy.py:1123-1127 | with bodies that translate, the `elif` loop up to predicate `k` raises `IfBranchIndex` exactly when it goes past the last branch |
| PythonFacts.IfBranchIndexIff | sheepy.py:1117-1135 | with bodies that translate, `translate_if` raises `IfBranchIndex` exactly when there is no predicate or there are fewer branches than predicates |
| PythonFacts.HeaderLength | sheepy.py:890-901 | the header is the interpreter line plus one import line of fixed length for each flag that is set |
| PythonFacts.HeaderInjective | sheepy.py:890-901 | different flags give different headers |
| Translating.Translator.constructor | sheepy.py:883-888 | all four flags start cleared |
| Translating.Translator.Translate | sheepy.py:890-901 | `Program`: the header with one import line per flag set before or during the body, then the body; raises when the body does; on success the flags are those set before together with the body's |
| Translating.Translator.TranslateSequence | sheepy.py:903-964 | the text, or the exception, of `SeqCode`, adding exactly its flags |
| Translating.Translator.TranslateStatement | sheepy.py:913-963 | for a statement, the text or the exception of `StmtCode`, adding exactly its flags; for any other node, the empty text and no flag |
| Translating.Translator.TranslateCompound | sheepy.py:946-960 | the same as `TranslateStatement`, for the `for`, `if`, `while` and command nodes at the end of the chain |
| Translating.Translator.TranslateNewline | sheepy.py:966-969 | a newline for `NewlineExp`, the empty text otherwise |
| Translating.Translator.TranslateComment | sheepy.py:971-974 | the text of `CommentCode` for `CommentExp`, the empty text otherwise |
| Translating.Translator.TranslateWord | sheepy.py:978-991 | the text of `WordCode`, adding exactly its flags |
| Translating.Translator.TranslateWordStr | sheepy.py:993-1006 | the text of `WordStrCode`, adding exactly its flags |
| Translating.Translator.TranslateWords | sheepy.py:1077-1078 | the text of `WordsCode`, the words joined by `, `, adding exactly their flags |
| Translating.Translator.TranslateCd | sheepy.py:1008-1014 | for `CdExp`, the text or the exception (`CdWithoutDir`) of `CdCode`, adding exactly its flags; for any other node, the empty text and no flag |
| Translating.Translator.TranslateValue | sheepy.py:1016-1036 | the text of `ValueCode`, adding exactly its flags |
| Translating.Translator.TranslateList | sheepy.py:1018-1021 | the elements' texts from `ValuesCode`, in order, adding exactly all their flags |
| Translating.Translator.TranslateAssign | sheepy.py:1038-1046 | for `AssignExp`, the text of `AssignCode`, adding exactly its flags; the empty text and no flag otherwise |
| Translating.Translator.TranslateExit | sheepy.py:1048-1058 | for `ExitExp`, the text of `ExitCode`, setting `sys`; the empty text and no flag otherwise |
| Translating.Translator.TranslateRead | sheepy.py:1060-1072 | for `ReadExp`, the text of `ReadCode`, setting `sys`; the empty text and no flag otherwise |
| Translating.Translator.TranslateEcho | sheepy.py:1074-1080 | for `EchoExp`, the text of `EchoCode`, adding exactly its flags; the empty text and no flag otherwise |
| Translating.Translator.TranslateFor | sheepy.py:1082-1090 | for `ForExp`, the text or the exception of `StmtCode`, adding exactly its flags; the empty text and no flag otherwise |
| Translating.Translator.TranslatePred | sheepy.py:1092-1115 | the text of `PredCode`, adding exactly its flags |
| Translating.Translator.TranslateIf | sheepy.py:1117-1135 | for `IfExp`, the text or the exception (`IfBranchIndex`, `CdWithoutDir`) of `StmtCode`, adding exactly its flags; the empty text and no flag otherwise |
| Translating.Translator.TranslateElifs | sheepy.py:1123-1127 | the text or the exception of `ElifsUpTo` over all predicates after the first, adding exactly its flags |
| Translating.Translator.TranslateElif | sheepy.py:1124-1127 | the text or the exception of `ElifCode` for one predicate, adding exactly its flags |
| Translating.Translator.TranslateElse | sheepy.py:1128-1131 | the text or the exception of `ElseCode`, adding exactly its flags; no flag when there is no `else` branch |
| Translating.Translator.TranslateWhile | sheepy.py:1137-1145 | for `WhileExp`, the text or the exception of `StmtCode`, adding exactly its flags; the empty text and no flag otherwise |
| Translating.Translator.TranslateCmd | sheepy.py:1147-1154 | for `CmdExp`, the text of `CmdCode`, adding exactly its flags; the empty text and no flag otherwise |

## Left out

- `__main__` (reading the file, checking `argv`, printing the result), `repl_test`, and
  the debug printers `eprint` and `eeprint`: these are I/O only.
- The `re` engine: each pattern is a hand-written matcher. `\s` is ASCII whitespace, `\w`
  is ASCII letters, digits and `_`, and `\d` is ASCII digits. Unicode classes are not
  modelled.
- The backslash escapes that `re.sub` processes in a replacement template. In
  `translate_word_str`, a word whose text after `$` holds a backslash would be changed
  further by `re.sub`. `WordStrCode` inserts the text as it stands.
- What the generated Python does when run: globbing, `os.access`, `os.chdir`,
  `subprocess.call`, `input()`. Only the emitted text is modelled.
- `Typ()` as the default `typ` of `translate_value` and the `typ` of each list element:
  neither is ever read, so the model drops them.
- PythonFacts.WordStrOneLine: proved only for words of one line. Across several lines
  `SubAll` replaces from each line's first `$`, and no separate property is stated for
  that case.
- Several source methods are split into more than one Dafny method so that each proof
  stays small. `TranslateCompound` is the second half of the statement chain.
  `TranslateElifs`, `TranslateElif` and `TranslateElse` are the parts of `translate_if`.
  `TranslateList` is the loop of `translate_value`. `ParseThenClause`,
  `ParseElifClauses` and `ParseIfClose` are the parts of `parse_if`; `ParseForHead` and
  `ParseWhileHead` read the heads of `parse_for` and `parse_while`. The order of the
  steps and the point at which an exception is raised are unchanged. Where the source
  returns False after one of several checks in a row (newline, `do` or `then`, newline),
  the model makes the same checks in the same order and stops at the first that fails.
- The statement lists that the parser appends to in place are passed in and returned as
  values, so aliasing between them is not modelled. No list is shared in the source
  either.
