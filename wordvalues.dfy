/**
 * How the parser classifies the right-hand side of an assignment: `re.split(' +', ...)`,
 * `Parser.var_extractor` and `Parser.str_exp_mapper`.  These loop over local lists only,
 * so they are functions here.
 */
module WordValues {
  import opened Results
  import opened Chars
  import opened Tokens
  import opened Syntax
  import Lexing

  /** `re.sub(r'[${}]', '', s)`: `s` without its dollar signs and braces. */
  function Strip(s: string): (r: string)
    ensures |r| <= |s|
    ensures '$' !in r && '{' !in r && '}' !in r
  {
    if s == [] then ""
    else (if s[0] == '$' || s[0] == '{' || s[0] == '}' then "" else [s[0]]) + Strip(s[1..])
  }

  lemma {:induction false} StripAppend(a: string, b: string)
    ensures Strip(a + b) == Strip(a) + Strip(b)
  {
    if a == [] {
      assert a + b == b;
    } else {
      assert (a + b)[1..] == a[1..] + b;
      StripAppend(a[1..], b);
    }
  }

  /** Word characters survive `Strip` unchanged. */
  lemma {:induction false} StripWordChars(s: string)
    requires AllWordChars(s)
    ensures Strip(s) == s
  {
    if s != [] {
      StripWordChars(s[1..]);
      assert s == [s[0]] + s[1..];
    }
  }

  /**
   * Length of the match of `\$(\w+|{\w+})` at the front of `s`, 0 when there is none:
   * a dollar sign and a maximal word run, or `${`, a maximal word run and `}`.
   */
  function VarLen(s: string): (n: nat)
    ensures n <= |s|
    ensures n > 0 ==> |s| >= 2 && s[0] == '$'
  {
    if |s| >= 2 && s[0] == '$' then
      var w := Run(s[1..], WordChars);
      if w > 0 then w + 1
      else if s[1] == '{' then
        var m := Run(s[2..], WordChars);
        if m > 0 && m + 2 < |s| && s[m + 2] == '}' then m + 3 else 0
      else 0
    else 0
  }

  /**
   * The parser's `\$(\w+|{\w+})` and the lexer's two variable rules find the same
   * variable: a plain one where the lexer's `\$(\w+)` matches, else a braced one where
   * its `\${(\w+)}` matches, else none.
   */
  lemma VarLenAgreesWithLexer(s: string)
    ensures VarLen(s) ==
      if Lexing.MatchVar(s).Some? then Lexing.MatchVar(s).value.len
      else if Lexing.MatchVarCurly(s).Some? then Lexing.MatchVarCurly(s).value.len
      else 0
  {
    if |s| >= 2 && s[0] == '$' && Run(s[1..], WordChars) == 0 {
      assert !IsWordChar(s[1]);
    }
  }

  /** What `VarLen` matches is a well-formed variable token whose name is the match stripped. */
  lemma VarLenMatchesVariable(s: string)
    requires VarLen(s) > 0
    ensures Var(s[..VarLen(s)], Strip(s[..VarLen(s)])).WellFormed()
  {
    var w := Run(s[1..], WordChars);
    if w > 0 {
      assert s[..w + 1] == "$" + s[1..w + 1];
      PlainVarWellFormed(s[1..w + 1]);
    } else {
      var m := Run(s[2..], WordChars);
      assert s[..m + 3] == "${" + s[2..m + 2] + "}";
      CurlyVarWellFormed(s[2..m + 2]);
    }
  }

  lemma PlainVarWellFormed(name: string)
    requires |name| > 0 && AllWordChars(name)
    ensures Var("$" + name, Strip("$" + name)).WellFormed()
  {
    var x := "$" + name;
    assert Strip(x) == Strip(name) by {
      assert x[0] == '$' && x[1..] == name;
    }
    StripWordChars(name);
  }

  lemma CurlyVarWellFormed(name: string)
    requires |name| > 0 && AllWordChars(name)
    ensures Var("${" + name + "}", Strip("${" + name + "}")).WellFormed()
  {
    var x := "${" + name + "}";
    assert Strip(x) == Strip(name + "}") by {
      assert x[0] == '$' && x[1..][0] == '{' && x[1..][1..] == name + "}";
    }
    assert Strip(name + "}") == name by {
      StripAppend(name, "}");
      StripWordChars(name);
      assert Strip("}") == "" && name + "" == name;
    }
  }

  /** Where `re.finditer` finds its next match: the first offset a match starts at, `|s|` if none. */
  function NextVar(s: string): (k: nat)
    ensures k <= |s|
    ensures k < |s| ==> VarLen(s[k..]) > 0
    decreases |s|
  {
    if s == [] then 0
    else if VarLen(s) > 0 then 0
    else
      var k := NextVar(s[1..]);
      assert s[1..][k..] == s[1 + k..];
      1 + k
  }

  /** The first match starts at offset 0 exactly when `s` starts with a variable. */
  lemma NextVarAtStart(s: string)
    requires s != []
    ensures NextVar(s) == 0 <==> VarLen(s) > 0
  {
  }

  /** No match starts before `NextVar(s)`: the match it finds is the leftmost one. */
  lemma {:induction false} NextVarLeftmost(s: string, j: nat)
    requires j < NextVar(s)
    ensures VarLen(s[j..]) == 0
    decreases |s|
  {
    if j > 0 {
      NextVarLeftmost(s[1..], j - 1);
      assert s[1..][j - 1..] == s[j..];
    } else {
      assert s[0..] == s;
    }
  }

  /** Concatenation of the `str` fields. */
  function Strs(ws: seq<WordToken>): string {
    if ws == [] then "" else ws[0].str + Strs(ws[1..])
  }

  lemma {:induction false} StrsAppend(a: seq<WordToken>, b: seq<WordToken>)
    ensures Strs(a + b) == Strs(a) + Strs(b)
  {
    if a == [] {
      assert a + b == b;
    } else {
      assert (a + b)[1..] == a[1..] + b;
      StrsAppend(a[1..], b);
    }
  }

  /** The parts of a format expression: literal words and variables, in text order. */
  predicate Segment(w: WordToken) {
    |w.str| > 0 && (w.Word? || (w.Var? && w.name == Strip(w.str) && w.WellFormed()))
  }

  /** Two literal words never stand side by side. */
  predicate Alternates(ws: seq<WordToken>) {
    forall i :: 0 <= i < |ws| - 1 ==> !(ws[i].Word? && ws[i + 1].Word?)
  }

  /** `var_extractor`: the list of the `FormatExp` it builds, gaps as `Word`s and matches as `Var`s. */
  function VarExtractor(s: string): (r: seq<WordToken>)
    ensures Strs(r) == s
    decreases |s|
  {
    if s == [] then []
    else
      var k := NextVar(s);
      if k == |s| then
        assert Strs([Word(s)]) == s + Strs([]);
        [Word(s)]
      else
        var m := k + VarLen(s[k..]);
        var rest := VarExtractor(s[m..]);
        MatchPiecesThen(s, k, m, rest);
        MatchPieces(s, k) + rest
  }

  /** The literal gap before the match at `k` (left out when empty) and the match itself. */
  function MatchPieces(s: string, k: nat): seq<WordToken>
    requires k < |s| && VarLen(s[k..]) > 0
  {
    var v := s[k..k + VarLen(s[k..])];
    (if k > 0 then [Word(s[..k])] else []) + [Var(v, Strip(v))]
  }

  /** The match at `k` followed by pieces that spell the rest spell all of `s`. */
  lemma MatchPiecesThen(s: string, k: nat, m: nat, rest: seq<WordToken>)
    requires k < |s| && m == k + VarLen(s[k..]) && m > k
    requires Strs(rest) == s[m..]
    ensures Strs(MatchPieces(s, k) + rest) == s
  {
    StrsAppend(MatchPieces(s, k), rest);
    MatchPiecesText(s, k, m - k);
    assert s == s[..m] + s[m..];
  }

  lemma MatchPiecesText(s: string, k: nat, n: nat)
    requires k < |s| && n == VarLen(s[k..]) && n > 0
    ensures Strs(MatchPieces(s, k)) == s[..k + n]
  {
    var x: WordToken := Var(s[k..k + n], Strip(s[k..k + n]));
    var gap: seq<WordToken> := if k > 0 then [Word(s[..k])] else [];
    assert MatchPieces(s, k) == gap + [x];
    StrsAppend(gap, [x]);
    assert Strs([x]) == s[k..k + n] + Strs([]);
    assert Strs(gap) == s[..k] by {
      if k > 0 {
        assert Strs(gap) == s[..k] + Strs([]);
      }
    }
    Split3(s[..k + n], k, k + n);
  }

  /**
   * Every piece is non-empty and is a literal word or a well-formed variable whose name
   * is its text stripped of `$`, `{` and `}`; two literal pieces are never adjacent; the
   * first piece is a variable exactly when `s` starts with one.
   */
  lemma {:induction false} VarExtractorPieces(s: string)
    ensures forall i :: 0 <= i < |VarExtractor(s)| ==> Segment(VarExtractor(s)[i])
    ensures Alternates(VarExtractor(s))
    ensures |VarExtractor(s)| > 0 ==> (VarExtractor(s)[0].Word? <==> VarLen(s) == 0)
    decreases |s|
  {
    if s != [] {
      var k := NextVar(s);
      NextVarAtStart(s);
      if k < |s| {
        var m := k + VarLen(s[k..]);
        var pre, rest := MatchPieces(s, k), VarExtractor(s[m..]);
        VarExtractorUnfold(s, k, m);
        MatchPiecesShape(s, k);
        VarExtractorPieces(s[m..]);
        MatchBetween(pre, rest);
        assert (pre + rest)[0] == pre[0];
      }
    }
  }

  lemma {:induction false} VarExtractorUnfold(s: string, k: nat, m: nat)
    requires s != [] && k == NextVar(s) && k < |s| && m == k + VarLen(s[k..])
    ensures VarExtractor(s) == MatchPieces(s, k) + VarExtractor(s[m..])
  {
  }

  /** The gap, when there is one, is a literal segment and the match a variable segment. */
  lemma MatchPiecesShape(s: string, k: nat)
    requires k < |s| && VarLen(s[k..]) > 0
    ensures 1 <= |MatchPieces(s, k)| <= 2
    ensures forall i :: 0 <= i < |MatchPieces(s, k)| ==> Segment(MatchPieces(s, k)[i])
    ensures Alternates(MatchPieces(s, k))
    ensures MatchPieces(s, k)[|MatchPieces(s, k)| - 1].Var?
    ensures MatchPieces(s, k)[0].Word? <==> k > 0
  {
    var n := VarLen(s[k..]);
    VarLenMatchesVariable(s[k..]);
    assert s[k..][..n] == s[k..k + n];
  }

  /** Pieces ending in a variable, followed by well-formed alternating pieces, still alternate. */
  lemma MatchBetween(pre: seq<WordToken>, rest: seq<WordToken>)
    requires |pre| > 0 && pre[|pre| - 1].Var?
    requires (forall i :: 0 <= i < |pre| ==> Segment(pre[i])) && Alternates(pre)
    requires (forall i :: 0 <= i < |rest| ==> Segment(rest[i])) && Alternates(rest)
    ensures forall i :: 0 <= i < |pre + rest| ==> Segment((pre + rest)[i])
    ensures Alternates(pre + rest)
  {
    var r := pre + rest;
    assert forall i :: 0 <= i < |rest| ==> r[|pre| + i] == rest[i];
  }

  /** Python's `re.split(' +', s)`: the pieces between runs of spaces (empty at a leading or trailing run). */
  function SplitSpaces(s: string): (r: seq<string>)
    ensures |r| >= 1
    decreases |s|
  {
    var i := IndexOf(s, ' ');
    if i == |s| then [s]
    else
      var n := Run(s[i..], Space);
      [s[..i]] + SplitSpaces(s[i + n..])
  }

  lemma SplitSpacesUnfold(s: string, i: nat, n: nat)
    requires i == IndexOf(s, ' ') && i < |s| && n == Run(s[i..], Space)
    ensures SplitSpaces(s) == [s[..i]] + SplitSpaces(s[i + n..])
  {
  }

  /** The run of spaces at the first space of `s` is not empty and lies inside `s`. */
  lemma SpaceRun(s: string, i: nat, n: nat)
    requires i == IndexOf(s, ' ') && i < |s| && n == Run(s[i..], Space)
    ensures 0 < n && i + n <= |s|
    ensures forall k :: i <= k < i + n ==> s[k] == ' '
  {
    assert s[i..][0] == ' ';
    assert forall k :: i <= k < i + n ==> s[k] == s[i..][k - i];
  }

  /** Removing the spaces of `s` = a space-free prefix, a run of spaces, the rest. */
  lemma RemoveSpacesAround(s: string, i: nat, n: nat)
    requires i + n <= |s|
    requires forall j :: 0 <= j < i ==> s[j] != ' '
    requires forall k :: i <= k < i + n ==> s[k] == ' '
    ensures RemoveSpaces(s) == s[..i] + RemoveSpaces(s[i + n..])
  {
    var a, b, c := s[..i], s[i..i + n], s[i + n..];
    assert s == a + (b + c) by {
      Split3(s, i, i + n);
    }
    assert ' ' !in a by {
      assert forall j :: 0 <= j < |a| ==> a[j] == s[j];
    }
    RemoveSpacesNone(a);
    RemoveSpacesAll(b);
    RemoveSpacesAppend(b, c);
    assert RemoveSpaces(b + c) == RemoveSpaces(c);
    RemoveSpacesAppend(a, b + c);
  }

  /**
   * The split finds every space: no piece holds one, the pieces together are `s` with its
   * spaces removed, and `s` stays whole exactly when it has no space.
   */
  lemma {:induction false} SplitSpacesPieces(s: string)
    ensures forall j :: 0 <= j < |SplitSpaces(s)| ==> ' ' !in SplitSpaces(s)[j]
    ensures Concat(SplitSpaces(s)) == RemoveSpaces(s)
    ensures ' ' !in s <==> SplitSpaces(s) == [s]
    decreases |s|
  {
    var i := IndexOf(s, ' ');
    if i == |s| {
      RemoveSpacesNone(s);
      assert Concat([s]) == s + Concat([]);
    } else {
      var n := Run(s[i..], Space);
      SpaceRun(s, i, n);
      SplitSpacesUnfold(s, i, n);
      RemoveSpacesAround(s, i, n);
      SplitSpacesPieces(s[i + n..]);
      ConsPieces(s[..i], SplitSpaces(s[i + n..]));
      assert |s[..i]| < |s|;
    }
  }

  /** `s` with each run of spaces folded to one space. */
  function FoldSpaces(s: string): (r: string)
    ensures |r| <= |s|
    ensures s != [] ==> r != [] && (r[0] == ' ' <==> s[0] == ' ')
    ensures forall i :: 0 <= i < |r| - 1 ==> !(r[i] == ' ' && r[i + 1] == ' ')
    decreases |s|
  {
    if s == [] then ""
    else if s[0] == ' ' then
      var n := Run(s, Space);
      " " + FoldSpaces(s[n..])
    else [s[0]] + FoldSpaces(s[1..])
  }

  /**
   * Joining the pieces with one space gives `s` back up to the length of its runs of
   * spaces: the split loses only how long each run was.
   */
  lemma {:induction false} SplitSpacesJoin(s: string)
    ensures Join(SplitSpaces(s), " ") == FoldSpaces(s)
    decreases |s|
  {
    var i := IndexOf(s, ' ');
    if i == |s| {
      FoldSpacesNone(s);
    } else {
      var n := Run(s[i..], Space);
      var t := s[i + n..];
      SpaceRun(s, i, n);
      var pieces := [s[..i]] + SplitSpaces(t);
      calc {
        Join(SplitSpaces(s), " ");
        { SplitSpacesUnfold(s, i, n); }
        Join(pieces, " ");
        { assert pieces[1..] == SplitSpaces(t); }
        s[..i] + " " + Join(SplitSpaces(t), " ");
        { SplitSpacesJoin(t); }
        s[..i] + (" " + FoldSpaces(t));
        { assert s[i..][0] == ' ' && s[i..][n..] == t; }
        s[..i] + FoldSpaces(s[i..]);
        { FoldSpacesPrefix(s, i); }
        FoldSpaces(s);
      }
    }
  }

  lemma {:induction false} FoldSpacesNone(s: string)
    requires ' ' !in s
    ensures FoldSpaces(s) == s
  {
    if s != [] {
      FoldSpacesNone(s[1..]);
    }
  }

  /** A prefix without spaces is kept as it is. */
  lemma {:induction false} FoldSpacesPrefix(s: string, i: nat)
    requires i <= |s| && forall j :: 0 <= j < i ==> s[j] != ' '
    ensures FoldSpaces(s) == s[..i] + FoldSpaces(s[i..])
  {
    if i > 0 {
      FoldSpacesPrefix(s[1..], i - 1);
      assert s[1..][i - 1..] == s[i..];
      assert s[..i] == [s[0]] + s[1..][..i - 1];
    }
  }

  lemma ConsPieces(head: string, rest: seq<string>)
    requires ' ' !in head
    requires forall j :: 0 <= j < |rest| ==> ' ' !in rest[j]
    ensures forall j :: 0 <= j < |[head] + rest| ==> ' ' !in ([head] + rest)[j]
    ensures Concat([head] + rest) == head + Concat(rest)
  {
    assert ([head] + rest)[1..] == rest;
  }

  /** `s` with every space removed. */
  function RemoveSpaces(s: string): string {
    if s == [] then "" else (if s[0] == ' ' then "" else [s[0]]) + RemoveSpaces(s[1..])
  }

  lemma {:induction false} RemoveSpacesAppend(a: string, b: string)
    ensures RemoveSpaces(a + b) == RemoveSpaces(a) + RemoveSpaces(b)
  {
    if a == [] {
      assert a + b == b;
    } else {
      assert (a + b)[1..] == a[1..] + b;
      RemoveSpacesAppend(a[1..], b);
    }
  }

  lemma {:induction false} RemoveSpacesNone(s: string)
    requires ' ' !in s
    ensures RemoveSpaces(s) == s
  {
    if s != [] {
      RemoveSpacesNone(s[1..]);
      assert s == [s[0]] + s[1..];
    }
  }

  lemma {:induction false} RemoveSpacesAll(s: string)
    requires forall i :: 0 <= i < |s| ==> s[i] == ' '
    ensures RemoveSpaces(s) == ""
  {
    if s != [] {
      RemoveSpacesAll(s[1..]);
    }
  }

  /**
   * `str_exp_mapper`: a piece becomes a format expression of word type, unless one of
   * its parts holds a glob character, where the source calls `GlobExp` with one
   * argument too few and raises.  The parts together are the piece, so that happens
   * exactly when the piece itself holds a glob character.
   */
  function StrExpMapper(s: string): (r: Result<(Value, Typ)>)
    ensures r.Failure? <==> IsGlobStr(s)
    ensures r.Failure? ==> r.error == GlobExpArity
    ensures r.Success? ==> r.value == (FormatExp(VarExtractor(s)), WordTyp) && Strs(r.value.0.parts) == s
  {
    var parts := VarExtractor(s);
    GlobInParts(parts);
    if HasGlobPart(parts) then Failure(GlobExpArity)
    else Success((FormatExp(parts), WordTyp))
  }

  /** The loop of `str_exp_mapper`: some part's text holds a glob character. */
  function HasGlobPart(ws: seq<WordToken>): bool {
    ws != [] && (IsGlobStr(ws[0].str) || HasGlobPart(ws[1..]))
  }

  lemma {:induction false} GlobInParts(ws: seq<WordToken>)
    ensures HasGlobPart(ws) <==> IsGlobStr(Strs(ws))
  {
    if ws != [] {
      GlobInParts(ws[1..]);
      GlobAppend(ws[0].str, Strs(ws[1..]));
    }
  }

  lemma GlobAppend(a: string, b: string)
    ensures IsGlobStr(a + b) <==> IsGlobStr(a) || IsGlobStr(b)
  {
    assert forall c :: c in a + b <==> c in a || c in b;
  }

  /** `list(map(Parser.str_exp_mapper, pieces))`: the first raising piece raises. */
  function MapStrExp(pieces: seq<string>): (r: Result<seq<(Value, Typ)>>)
    ensures r.Failure? <==> exists i :: 0 <= i < |pieces| && IsGlobStr(pieces[i])
    ensures r.Failure? ==> r.error == GlobExpArity
    ensures r.Success? ==> |r.value| == |pieces|
    ensures r.Success? ==> forall i :: 0 <= i < |pieces| ==> r.value[i] == StrExpMapper(pieces[i]).value
  {
    if pieces == [] then Success([])
    else
      match StrExpMapper(pieces[0])
      case Failure(e) => Failure(e)
      case Success(first) =>
        match MapStrExp(pieces[1..])
        case Failure(e) =>
          assert forall i :: 1 <= i < |pieces| ==> pieces[1..][i - 1] == pieces[i];
          Failure(e)
        case Success(rest) =>
          assert forall i :: 1 <= i < |pieces| ==> pieces[1..][i - 1] == pieces[i];
          Success([first] + rest)
  }

  /**
   * The value `parse_assign` stores: a `ListExp` of one format expression per piece
   * between runs of spaces; it raises exactly when the value holds a glob character.
   */
  function AssignValue(v: string): (r: Result<Value>)
    ensures r.Failure? <==> IsGlobStr(v)
    ensures r.Failure? ==> r.error == GlobExpArity
    ensures r.Success? ==> AssignValueWellFormed(r.value) && |r.value.list| == |SplitSpaces(v)|
  {
    var pieces := SplitSpaces(v);
    GlobInPieces(v, pieces);
    match MapStrExp(pieces)
    case Failure(e) => Failure(e)
    case Success(list) => Success(ListExp(list))
  }

  /** A glob character is never a space, so it lands in one of the pieces. */
  lemma GlobInPieces(v: string, r: seq<string>)
    requires r == SplitSpaces(v)
    ensures IsGlobStr(v) <==> exists i :: 0 <= i < |r| && IsGlobStr(r[i])
  {
    SplitSpacesPieces(v);
    GlobRemoveSpaces(v);
    GlobConcat(r);
  }

  lemma {:induction false} GlobRemoveSpaces(s: string)
    ensures IsGlobStr(RemoveSpaces(s)) <==> IsGlobStr(s)
  {
    if s != [] {
      GlobRemoveSpaces(s[1..]);
      assert s == [s[0]] + s[1..];
      GlobAppend([s[0]], s[1..]);
      GlobAppend(if s[0] == ' ' then "" else [s[0]], RemoveSpaces(s[1..]));
    }
  }

  lemma {:induction false} GlobConcat(r: seq<string>)
    ensures IsGlobStr(Concat(r)) <==> exists i :: 0 <= i < |r| && IsGlobStr(r[i])
  {
    if r != [] {
      GlobConcat(r[1..]);
      GlobAppend(r[0], Concat(r[1..]));
      assert forall i :: 1 <= i < |r| ==> r[1..][i - 1] == r[i];
      assert forall i :: 0 <= i < |r| - 1 ==> r[1..][i] == r[i + 1];
    }
  }

  /**
   * The value of an assignment token has no blank, so `re.split` leaves it whole and the
   * `ListExp` always has exactly one element: the format expression of the whole value.
   */
  lemma AssignTokenValueIsOnePiece(t: Token)
    requires t.Assign? && t.WellFormed()
    ensures SplitSpaces(t.value) == [t.value]
    ensures AssignValue(t.value).Success? ==>
      AssignValue(t.value).value == ListExp([(FormatExp(VarExtractor(t.value)), WordTyp)])
  {
    assert ' ' !in t.value by {
      forall i | 0 <= i < |t.value|
        ensures t.value[i] != ' '
      {
        assert !IsBlank(t.value[i]);
      }
    }
    SplitSpacesPieces(t.value);
  }
}
