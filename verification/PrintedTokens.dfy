/**
 How printed text is scanned: the tokens of every printed piece, provided the strings stay
 within the characters a token can carry at all.
 */
module PrintedTokens {
  import opened ConfigModel
  import opened Scanner
  import opened Lexer
  import opened Writer

  // ---------------------------------------------------------------- single tokens

  lemma LongestAlone(s: string, n: nat, r: nat)
    requires 1 <= n <= |s| && r == FirstRule(s[..n]) != 0
    requires n < |s| ==> Hopeless(s[..n + 1])
    ensures Longest(s, n, r)
  {
    forall m | n < m <= |s|
      ensures FirstRule(s[..m]) == 0
    {
      assert s[..n + 1] + s[n + 1..m] == s[..m];
    }
  }

  /** A character that is a token, or a blank, by itself. */
  predicate Lone(c: char) {
    Blank(c) || c == '\n' || c == '\r' || c == '=' || c == '[' || c == ']' || c == '{' || c == '}' || c == ','
  }

  function LoneTokens(c: char): seq<Token> {
    match c
    case '=' => [Equals]
    case '[' => [SectionBegin]
    case ']' => [SectionEnd]
    case '{' => [ListBegin]
    case '}' => [ListEnd]
    case ',' => [Comma]
    case _ => []
  }

  lemma LoneRule(c: char)
    requires Lone(c)
    ensures FirstRule([c]) != 0 && TokenOf(FirstRule([c]), [c]) == LoneTokens(c)
  {
  }

  lemma LexLone(c: char, rest: string)
    requires Lone(c)
    ensures Lex([c] + rest) == LoneTokens(c) + Lex(rest)
  {
    var s := [c] + rest;
    assert s[..1] == [c] && s[1..] == rest;
    LoneRule(c);
    if |s| > 1 {
      HopelessWord(s[..2], 0);
    }
    LongestAlone(s, 1, FirstRule([c]));
    LexStep(s, 1, FirstRule([c]));
  }

  /** The token of a string of word characters: a STRING unless it looks like part of a date. */
  function WordToken(w: string): Token
    requires IsWord(w)
  {
    if w == "(" then DateBegin
    else if w == ")" then DateEnd
    else if IsDate(w) then SectionDate(w)
    else Str(w)
  }

  predicate Ends(rest: string) {
    rest == [] || !WordChar(rest[0])
  }

  lemma WordRule(w: string)
    requires IsWord(w) && w[0] != '"'
    ensures FirstRule(w) != 0 && TokenOf(FirstRule(w), w) == [WordToken(w)]
  {
  }

  lemma LexWord(w: string, rest: string)
    requires IsWord(w) && w[0] != '"' && Ends(rest)
    ensures Lex(w + rest) == [WordToken(w)] + Lex(rest)
  {
    var s := w + rest;
    assert s[..|w|] == w && s[|w|..] == rest;
    WordRule(w);
    if rest != [] {
      var u := s[..|w| + 1];
      assert u[|w|] == rest[0] && u[0] == w[0];
      HopelessWord(u, |w|);
    }
    LongestAlone(s, |w|, FirstRule(w));
    LexStep(s, |w|, FirstRule(w));
  }

  /** What may follow a closing quote: a special character, at once or after a blank or comma. */
  predicate EndsQuote(rest: string) {
    || (|rest| >= 1 && Special(rest[0]))
    || (|rest| >= 2 && (Blank(rest[0]) || rest[0] == ',') && Special(rest[1]))
  }

  lemma QuoteRule(v: string)
    requires NoSpecial(v)
    ensures FirstRule(Quoted(v)) == 9 && TokenOf(9, Quoted(v)) == [Str(v)]
  {
    var q := Quoted(v);
    assert q[0] == '"' && q[|q| - 1] == '"' && q[1..|q| - 1] == v;
    assert forall i :: 1 <= i < |q| - 1 ==> q[i] == v[i - 1];
  }

  lemma LexQuoted(v: string, rest: string)
    requires NoSpecial(v) && EndsQuote(rest)
    ensures Lex(Quoted(v) + rest) == [Str(v)] + Lex(rest)
  {
    var q := Quoted(v);
    var s := q + rest;
    assert s[..|q|] == q && s[|q|..] == rest;
    QuoteRule(v);
    forall m | |q| < m <= |s|
      ensures FirstRule(s[..m]) == 0
    {
      var u := s[..m];
      assert u[0] == '"';
      if Special(rest[0]) {
        assert u[|q|] == rest[0];
        HopelessQuoted(u, |q|);
        assert u + [] == u;
      } else if m > |q| + 1 {
        assert u[|q| + 1] == rest[1];
        HopelessQuoted(u, |q| + 1);
        assert u + [] == u;
      } else {
        NoTokenEndsHere(u);
      }
    }
    assert Longest(s, |q|, 9);
    LexStep(s, |q|, 9);
  }

  lemma NoTokenEndsHere(u: string)
    requires |u| >= 2 && u[0] == '"' && (Blank(u[|u| - 1]) || u[|u| - 1] == ',')
    ensures FirstRule(u) == 0
  {
    assert !WordChar(u[|u| - 1]);
  }

  /** A token that a line feed ends. */
  lemma LexLine(c: string, rest: string)
    requires c != [] && FirstRule(c) != 0 && Hopeless(c + ['\n'])
    ensures Lex(c + (['\n'] + rest)) == TokenOf(FirstRule(c), c) + Lex(rest)
  {
    var s := c + (['\n'] + rest);
    assert s[..|c|] == c && s[|c|..] == ['\n'] + rest && s[..|c| + 1] == c + ['\n'];
    LongestAlone(s, |c|, FirstRule(c));
    LexStep(s, |c|, FirstRule(c));
    LexLone('\n', rest);
  }

  lemma SectionCommentRule(line: string)
    requires CommentText(line)
    ensures FirstRule(['#'] + line) == 12 && TokenOf(12, ['#'] + line) == [SectionComment(line)]
    ensures Hopeless(['#'] + line + ['\n'])
  {
    var c := ['#'] + line;
    assert c[1..] == line;
    assert |c| >= 2 ==> c[1] == line[0];
    var u := c + ['\n'];
    assert u[0] == '#' && u[|c|] == '\n' && (|c| >= 2 ==> u[1] == line[0]);
    HopelessComment(u, |c|);
  }

  lemma ItemCommentRule(line: string)
    requires CommentText(line)
    ensures FirstRule(['#', '#'] + line) == 11 && TokenOf(11, ['#', '#'] + line) == [ItemComment(line)]
    ensures Hopeless(['#', '#'] + line + ['\n'])
  {
    var c := ['#', '#'] + line;
    assert c[2..] == line && c[0] == '#' && c[1] == '#';
    var u := c + ['\n'];
    assert u[0] == '#' && u[|c|] == '\n' && u[1] == '#';
    HopelessComment(u, |c|);
  }

  lemma LexSectionComment(line: string, rest: string)
    requires CommentText(line)
    ensures Lex(['#'] + line + (['\n'] + rest)) == [SectionComment(line)] + Lex(rest)
  {
    SectionCommentRule(line);
    LexLine(['#'] + line, rest);
  }

  lemma LexItemComment(line: string, rest: string)
    requires CommentText(line)
    ensures Lex(['#', '#'] + line + (['\n'] + rest)) == [ItemComment(line)] + Lex(rest)
  {
    ItemCommentRule(line);
    LexLine(['#', '#'] + line, rest);
  }

  // ---------------------------------------------------------------- printed strings

  /** Characters of a string printed without quotes: word characters and commas. */
  predicate Plain(s: string) {
    forall i :: 0 <= i < |s| ==> s[i] == ',' || (WordChar(s[i]) && s[i] != '"')
  }

  /** What an unquoted string is scanned as: the pieces between its commas, and the commas. */
  function RawTokens(s: string): seq<Token>
    requires Plain(s)
    decreases |s|
  {
    if s == [] then []
    else if s[0] == ',' then [Comma] + RawTokens(s[1..])
    else
      var n := IndexOf(s, ',');
      [WordToken(s[..n])] + RawTokens(s[n..])
  }

  lemma {:induction false} LexRaw(s: string, rest: string)
    requires Plain(s) && Ends(rest)
    ensures Lex(s + rest) == RawTokens(s) + Lex(rest)
    decreases |s|
  {
    hide Lex, WordToken;
    if s == [] {
      assert s + rest == rest;
    } else if s[0] == ',' {
      assert s + rest == [','] + (s[1..] + rest);
      LexLone(',', s[1..] + rest);
      LexRaw(s[1..], rest);
    } else {
      var n := IndexOf(s, ',');
      LexPiece(s, n, rest);
      LexRaw(s[n..], rest);
    }
  }

  lemma LexPiece(s: string, n: nat, rest: string)
    requires Plain(s) && s != [] && s[0] != ',' && n == IndexOf(s, ',') && Ends(rest)
    ensures n > 0 && Plain(s[n..]) && IsWord(s[..n])
    ensures Lex(s + rest) == [WordToken(s[..n])] + Lex(s[n..] + rest)
  {
    var w, tail := s[..n], s[n..] + rest;
    assert s == s[..n] + s[n..];
    Extend(s[..n], s[n..], rest);
    assert Ends(tail) by {
      if n < |s| {
        assert tail[0] == ',';
      } else {
        assert tail == rest;
      }
    }
    assert w[0] == s[0];
    LexWord(w, tail);
  }

  lemma PlainUnlessQuoted(s: string)
    requires NoSpecial(s) && !NeedsQuotes(s)
    ensures Plain(s)
  {
  }

  function NameTokens(s: string): seq<Token>
    requires NoSpecial(s)
  {
    if NeedsQuotes(s) then [Str(s)] else PlainUnlessQuoted(s); RawTokens(s)
  }

  function SingleTokens(s: string): seq<Token>
    requires NoSpecial(s)
  {
    if NeedsQuotes(s) || ',' in s || s == "" then [Str(s)] else PlainUnlessQuoted(s); RawTokens(s)
  }

  function ListedTokens(s: string): seq<Token>
    requires NoSpecial(s)
  {
    if s == "" || NeedsQuotes(s) then [Str(s)] else PlainUnlessQuoted(s); RawTokens(s)
  }

  /** A printed string followed by text that cannot continue it. */
  lemma LexName(s: string, rest: string)
    requires NoSpecial(s) && EndsQuote(rest)
    ensures Lex(NameText(s) + rest) == NameTokens(s) + Lex(rest)
  {
    if NeedsQuotes(s) {
      LexQuoted(s, rest);
    } else {
      PlainUnlessQuoted(s);
      LexRaw(s, rest);
    }
  }

  lemma LexSingle(s: string, rest: string)
    requires NoSpecial(s) && EndsQuote(rest)
    ensures Lex(SingleText(s) + rest) == SingleTokens(s) + Lex(rest)
  {
    if NeedsQuotes(s) || ',' in s || s == "" {
      LexQuoted(s, rest);
    } else {
      PlainUnlessQuoted(s);
      LexRaw(s, rest);
    }
  }

  lemma LexListed(s: string, rest: string)
    requires NoSpecial(s) && EndsQuote(rest)
    ensures Lex(ListedText(s) + rest) == ListedTokens(s) + Lex(rest)
  {
    if s == "" || NeedsQuotes(s) {
      LexQuoted(s, rest);
    } else {
      PlainUnlessQuoted(s);
      LexRaw(s, rest);
    }
  }

  // ---------------------------------------------------------------- comments

  /** Comments may contain anything but a hash; line feeds separate their lines. */
  predicate NoHash(s: string) {
    forall i :: 0 <= i < |s| ==> s[i] != '#'
  }

  function Lines(comment: string): (ls: seq<string>)
    ensures ls != []
    decreases |comment|
  {
    var i := IndexOf(comment, '\n');
    if i == |comment| then [comment] else [comment[..i]] + Lines(comment[i + 1..])
  }

  function SectionCommentTokens(lines: seq<string>): seq<Token> {
    if lines == [] then [] else [SectionComment(lines[0])] + SectionCommentTokens(lines[1..])
  }

  function ItemCommentTokens(lines: seq<string>): seq<Token> {
    if lines == [] then [] else [ItemComment(lines[0])] + ItemCommentTokens(lines[1..])
  }

  lemma SplitLine(prefix: string, comment: string, i: nat, rest: string)
    requires i == IndexOf(comment, '\n') < |comment|
    ensures CommentLines(prefix, comment) + rest
         == prefix + comment[..i] + (['\n'] + (CommentLines(prefix, comment[i + 1..]) + rest))
    ensures Lines(comment)[0] == comment[..i] && Lines(comment)[1..] == Lines(comment[i + 1..])
  {
    var l, t := prefix + comment[..i], CommentLines(prefix, comment[i + 1..]);
    assert CommentLines(prefix, comment) == l + ['\n'] + t;
    Extend(l, ['\n'], t);
    Extend(l, ['\n'] + t, rest);
    Extend(['\n'], t, rest);
  }

  lemma LastLine(prefix: string, comment: string, rest: string)
    requires IndexOf(comment, '\n') == |comment|
    ensures CommentLines(prefix, comment) + rest == prefix + comment + (['\n'] + rest)
    ensures Lines(comment) == [comment]
  {
  }

  lemma LineHasNoHash(comment: string)
    requires NoHash(comment)
    ensures var i := IndexOf(comment, '\n');
            CommentText(comment[..i]) && (i < |comment| ==> NoHash(comment[i + 1..]))
  {
  }

  lemma {:induction false} LexSectionComments(comment: string, rest: string)
    requires NoHash(comment)
    ensures Lex(CommentLines("#", comment) + rest) == SectionCommentTokens(Lines(comment)) + Lex(rest)
    decreases |comment|
  {
    hide Lex, CommentLines, Lines, CommentText, NoHash;
    LineHasNoHash(comment);
    var i := IndexOf(comment, '\n');
    if i == |comment| {
      LastLine("#", comment, rest);
      LexSectionComment(comment, rest);
      assert SectionCommentTokens([comment]) == [SectionComment(comment)];
    } else {
      SplitLine("#", comment, i, rest);
      LexSectionComment(comment[..i], CommentLines("#", comment[i + 1..]) + rest);
      LexSectionComments(comment[i + 1..], rest);
    }
  }

  lemma {:induction false} LexItemComments(comment: string, rest: string)
    requires NoHash(comment)
    ensures Lex(CommentLines("\t##", comment) + rest) == ItemCommentTokens(Lines(comment)) + Lex(rest)
    decreases |comment|
  {
    hide Lex, CommentLines, Lines, CommentText, NoHash;
    LineHasNoHash(comment);
    var i := IndexOf(comment, '\n');
    if i == |comment| {
      LastLine("\t##", comment, rest);
      LexTabbedComment(comment, rest);
      assert ItemCommentTokens([comment]) == [ItemComment(comment)];
    } else {
      SplitLine("\t##", comment, i, rest);
      LexTabbedComment(comment[..i], CommentLines("\t##", comment[i + 1..]) + rest);
      LexItemComments(comment[i + 1..], rest);
    }
  }

  lemma LexTabbedComment(line: string, rest: string)
    requires CommentText(line)
    ensures Lex("\t##" + line + (['\n'] + rest)) == [ItemComment(line)] + Lex(rest)
  {
    var c := ['#', '#'] + line + (['\n'] + rest);
    assert "\t##" + line + (['\n'] + rest) == ['\t'] + c;
    LexLone('\t', c);
    LexItemComment(line, rest);
  }
}
