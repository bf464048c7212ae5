/**
 * The character classes of the lexer's regular expressions and the string helpers
 * the three stages share.  `\s` is ASCII whitespace, `\w` ASCII letters, digits and
 * underscore, `\d` ASCII digits.
 */
module Chars {
  import opened Results

  /** `\s`: space, tab, newline, vertical tab, form feed, carriage return. */
  predicate IsBlank(c: char) {
    c == ' ' || 9 <= c as int <= 13
  }

  /** `\w` */
  predicate IsWordChar(c: char) {
    'a' <= c <= 'z' || 'A' <= c <= 'Z' || '0' <= c <= '9' || c == '_'
  }

  /** `\d` */
  predicate IsDigit(c: char) {
    '0' <= c <= '9'
  }

  /** `re.fullmatch(r'\d+', s)` */
  predicate AllDigits(s: string) {
    |s| > 0 && forall i :: 0 <= i < |s| ==> IsDigit(s[i])
  }

  predicate AllWordChars(s: string) {
    forall i :: 0 <= i < |s| ==> IsWordChar(s[i])
  }

  predicate AllBlank(s: string) {
    forall i :: 0 <= i < |s| ==> IsBlank(s[i])
  }

  predicate NoBlank(s: string) {
    forall i :: 0 <= i < |s| ==> !IsBlank(s[i])
  }

  /** The classes a greedy run `[...]+` is taken over; `Space` is the literal blank of ` +`. */
  datatype CharClass = WordChars | Blank | NonBlank | Space

  predicate In(c: char, cls: CharClass) {
    match cls
    case WordChars => IsWordChar(c)
    case Blank => IsBlank(c)
    case NonBlank => !IsBlank(c)
    case Space => c == ' '
  }

  /** Length of the longest prefix of `s` inside `cls`: what a greedy `\w*`, `\s*` or `\S*` takes. */
  function Run(s: string, cls: CharClass): (n: nat)
    ensures n <= |s|
    ensures forall i :: 0 <= i < n ==> In(s[i], cls)
    ensures n == |s| || !In(s[n], cls)
  {
    if s == [] || !In(s[0], cls) then 0 else 1 + Run(s[1..], cls)
  }

  lemma {:induction false} RunAppend(a: string, b: string, cls: CharClass)
    requires forall i :: 0 <= i < |a| ==> In(a[i], cls)
    ensures Run(a + b, cls) == |a| + Run(b, cls)
  {
    if a != [] {
      assert (a + b)[1..] == a[1..] + b;
      RunAppend(a[1..], b, cls);
    } else {
      assert a + b == b;
    }
  }

  /** Index of the first `c` in `s`, or `|s|` when `c` does not occur. */
  function IndexOf(s: string, c: char): (i: nat)
    ensures i <= |s|
    ensures i < |s| ==> s[i] == c
    ensures forall j :: 0 <= j < i ==> s[j] != c
  {
    if s == [] then 0 else if s[0] == c then 0 else 1 + IndexOf(s[1..], c)
  }

  /** `re.search(pat, s)` for a pattern without metacharacters: the leftmost occurrence. */
  function Find(pat: string, s: string): (r: Option<nat>)
    ensures r.Some? ==> r.value + |pat| <= |s| && pat <= s[r.value..]
    ensures r.Some? ==> forall j :: 0 <= j < r.value ==> !(pat <= s[j..])
    ensures r.None? ==> forall j :: 0 <= j <= |s| ==> !(pat <= s[j..])
    ensures r == Some(0) <==> pat <= s
    decreases |s|
  {
    if pat <= s then Some(0)
    else if s == [] then None
    else
      match Find(pat, s[1..])
      case None =>
        NotInTail(pat, s, |s|);
        None
      case Some(i) =>
        NotInTail(pat, s, i);
        assert s[i + 1..] == s[1..][i..];
        Some(i + 1)
  }

  /** What does not occur in `s[1..]` before `k` does not occur in `s` between 1 and `k`. */
  lemma NotInTail(pat: string, s: string, k: nat)
    requires s != [] && k <= |s|
    requires forall j :: 0 <= j < k ==> !(pat <= s[1..][j..])
    ensures forall j :: 1 <= j <= k ==> !(pat <= s[j..])
  {
    forall j | 1 <= j <= k
      ensures !(pat <= s[j..])
    {
      assert s[j..] == s[1..][j - 1..];
    }
  }

  function Spaces(n: nat): (r: string)
    ensures |r| == n
    ensures forall i :: 0 <= i < n ==> r[i] == ' '
  {
    if n == 0 then "" else " " + Spaces(n - 1)
  }

  function Concat(parts: seq<string>): string {
    if parts == [] then "" else parts[0] + Concat(parts[1..])
  }

  /** Python's `sep.join(parts)`. */
  function Join(parts: seq<string>, sep: string): string {
    if parts == [] then ""
    else if |parts| == 1 then parts[0]
    else parts[0] + sep + Join(parts[1..], sep)
  }

  /** The characters of `s` that are not blank, in order. */
  function Squeeze(s: string): string {
    if s == [] then "" else (if IsBlank(s[0]) then "" else [s[0]]) + Squeeze(s[1..])
  }

  lemma {:induction false} SqueezeAppend(a: string, b: string)
    ensures Squeeze(a + b) == Squeeze(a) + Squeeze(b)
  {
    if a != [] {
      assert (a + b)[1..] == a[1..] + b;
      SqueezeAppend(a[1..], b);
    } else {
      assert a + b == b;
    }
  }

  lemma {:induction false} SqueezeBlank(s: string)
    requires AllBlank(s)
    ensures Squeeze(s) == ""
  {
    if s != [] {
      SqueezeBlank(s[1..]);
    }
  }

  /** Cutting a sequence at two points and gluing the three parts back gives it again. */
  lemma Split3<T>(s: seq<T>, i: nat, j: nat)
    requires i <= j <= |s|
    ensures s == s[..i] + s[i..j] + s[j..]
  {
  }
}
