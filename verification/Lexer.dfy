/**
 From text to tokens. Lex is the simple reference: at each position take the longest prefix
 that some rule matches. Tokenize is the scanner's loop over its automaton.
 */
module Lexer {
  import opened ConfigModel
  import opened Scanner

  /** The token actions: rule r matched `text`. Blanks and line ends give no token. */
  function TokenOf(r: nat, text: string): (ts: seq<Token>)
    requires r == FirstRule(text)
  {
    match r
    case 1 => [Equals]
    case 2 => [DateBegin]
    case 3 => [DateEnd]
    case 4 => [SectionBegin]
    case 5 => [SectionEnd]
    case 6 => [ListBegin]
    case 7 => [ListEnd]
    case 8 => [SectionDate(text)]
    case 9 => [Str(text[1..|text| - 1])]
    case 10 => [Str(text)]
    case 11 => [ItemComment(text[2..])]
    case 12 => [SectionComment(text[1..])]
    case 13 => [Comma]
    case _ => []
  }

  /** The longest prefix of s, no longer than n, that some rule matches. */
  function LongestMatch(s: string, n: nat): (m: nat)
    requires 1 <= n <= |s|
    ensures 1 <= m <= n
  {
    if n == 1 || FirstRule(s[..n]) != 0 then n else LongestMatch(s, n - 1)
  }

  function Lex(s: string): (ts: seq<Token>)
    decreases |s|
  {
    if s == [] then []
    else
      var n := LongestMatch(s, |s|);
      TokenOf(FirstRule(s[..n]), s[..n]) + Lex(s[n..])
  }

  lemma {:induction false} LongestMatchIsLongest(s: string, n: nat, k: nat, r: nat)
    requires Longest(s, k, r) && k <= n <= |s|
    ensures LongestMatch(s, n) == k
    decreases n
  {
    if k < n {
      assert FirstRule(s[..n]) == 0;
      LongestMatchIsLongest(s, n - 1, k, r);
    }
  }

  /** A known longest match peels one token off the front. */
  lemma LexStep(s: string, n: nat, r: nat)
    requires Longest(s, n, r)
    ensures Lex(s) == TokenOf(r, s[..n]) + Lex(s[n..])
  {
    LongestMatchIsLongest(s, |s|, n, r);
  }

  /** One call of the scanner: match a token and perform its action. */
  method NextToken(text: string) returns (length: nat, tokens: seq<Token>)
    requires text != []
    ensures 1 <= length <= |text|
    ensures Lex(text) == tokens + Lex(text[length..])
  {
    var act;
    length, act := MatchToken(text);
    LexStep(text, length, act);
    tokens := TokenOf(act, text[..length]);
  }

  /** The scanner called until the end of the text. */
  method Tokenize(text: string) returns (tokens: seq<Token>)
    ensures tokens == Lex(text)
  {
    tokens := [];
    var rest := text;
    while rest != []
      invariant tokens + Lex(rest) == Lex(text)
      decreases |rest|
    {
      var length, next := NextToken(rest);
      tokens := tokens + next;
      rest := rest[length..];
    }
  }
}
