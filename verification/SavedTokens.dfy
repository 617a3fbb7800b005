/**
 The tokens of a whole printed configuration. A configuration is legal when its strings stay
 within the characters the scanner's tokens can carry; then scanning commutes with printing.
 */
module SavedTokens {
  import opened ConfigModel
  import opened Scanner
  import opened Lexer
  import opened Writer
  import opened PrintedTokens

  predicate LegalItem(item: Item) {
    NoSpecial(item.name) && NoHash(item.comment) && forall v :: v in item.values ==> NoSpecial(v)
  }

  predicate LegalItems(items: seq<Item>) {
    forall i :: i in items ==> LegalItem(i)
  }

  predicate LegalSection(s: Section) {
    && NoSpecial(s.name)
    && NoHash(s.comment)
    && (s.date.Some? ==> IsDate(s.date.value))
    && LegalItems(s.items)
  }

  predicate LegalConfig(c: Config) {
    forall s :: s in c ==> LegalSection(s)
  }

  // ---------------------------------------------------------------- the tokens

  /** The lines a comment is printed on: none if it is empty. */
  function PrintedLines(comment: string): seq<string> {
    if comment == "" then [] else Lines(comment)
  }

  function ListTokens(values: seq<string>): seq<Token>
    requires forall v :: v in values ==> NoSpecial(v)
  {
    if values == [] then []
    else ListedTokens(values[0]) + LineTokens(values, ListTokens(values[1..]))
  }

  function ValuesTokens(values: seq<string>): seq<Token>
    requires forall v :: v in values ==> NoSpecial(v)
  {
    if |values| == 0 then [Str("")]
    else if |values| == 1 then SingleTokens(values[0])
    else [ListBegin] + (ListTokens(values) + [ListEnd])
  }

  function ItemTokens(item: Item): seq<Token>
    requires LegalItem(item)
  {
    ItemCommentTokens(PrintedLines(item.comment)) + (NameTokens(item.name) + ([Equals] + ValuesTokens(item.values)))
  }

  function ItemsTokens(items: seq<Item>): seq<Token>
    requires LegalItems(items)
  {
    if items == [] then [] else ItemTokens(items[0]) + ItemsTokens(items[1..])
  }

  /** A printed date is scanned, with its parentheses, as one STRING. */
  function DateTokens(date: Option<string>): seq<Token> {
    match date
    case None => []
    case Some(d) => [Str("(" + d + ")")]
  }

  function SectionTokens(s: Section): seq<Token>
    requires LegalSection(s)
  {
    SectionCommentTokens(PrintedLines(s.comment))
    + ([SectionBegin] + (NameTokens(s.name) + ([SectionEnd] + (DateTokens(s.date) + ItemsTokens(s.items)))))
  }

  function ConfigTokens(c: Config): seq<Token>
    requires LegalConfig(c)
  {
    if c == [] then [] else SectionTokens(c[0]) + ConfigTokens(c[1..])
  }

  // ---------------------------------------------------------------- shapes of the printed text

  lemma CatFour(a: string, b: string, c: string, d: string)
    ensures a + b + c + d == a + (b + (c + d))
  {
    Extend(a + b, c, d);
    Extend(a, b, c + d);
  }

  lemma CatSix(a: string, b: string, c: string, d: string, e: string, f: string)
    ensures a + b + c + d + e + f == a + (b + (c + (d + (e + f))))
  {
    CatFour(a + b + c, d, e, f);
    CatFour(a, b, c, d + (e + f));
  }

  /** The tail of a list line: a comma unless it is the last one, and the line feed. */
  function LineEnd(values: seq<string>, more: string): string {
    if |values| > 1 then [','] + (['\n'] + more) else ['\n'] + more
  }

  lemma ListLineShape(values: seq<string>, rest: string)
    requires values != []
    ensures ListLines(values) + rest
         == ['\t'] + (['\t'] + (ListedText(values[0]) + LineEnd(values, ListLines(values[1..]) + rest)))
  {
    var v, more := ListedText(values[0]), ListLines(values[1..]);
    var comma := if |values| > 1 then "," else "";
    CatSix("\t\t", v, comma, "\n", more, rest);
    assert comma + ("\n" + (more + rest)) == LineEnd(values, more + rest);
    Extend("\t", "\t", v + LineEnd(values, more + rest));
  }

  lemma ListBlockShape(values: seq<string>, rest: string)
    requires |values| > 1
    ensures ValuesText(values) + rest
         == ['\n'] + (['\t'] + (['{'] + (['\n'] + (ListLines(values) + (['\t'] + (['}'] + (['\n'] + rest)))))))
  {
    var lines := ListLines(values);
    CatSeven("\n", "\t{", "\n", lines, "\t}", "\n", rest);
    TwoChars('\t', '}', "\n" + rest);
    TwoChars('\t', '{', "\n" + (lines + ("\t}" + ("\n" + rest))));
  }

  lemma CatSeven(a: string, b: string, c: string, d: string, e: string, f: string, g: string)
    ensures a + b + c + d + e + f + g == a + (b + (c + (d + (e + (f + g)))))
  {
    CatSix(a + b, c, d, e, f, g);
    Extend(a, b, c + (d + (e + (f + g))));
  }

  lemma TwoChars(a: char, b: char, rest: string)
    ensures [a, b] + rest == [a] + ([b] + rest)
  {
  }

  lemma ItemShape(item: Item, rest: string)
    ensures ItemText(item) + rest
         == CommentBlock("\t##", item.comment)
            + (['\t'] + (NameText(item.name) + ([' '] + (['='] + ([' '] + (ValuesText(item.values) + rest))))))
  {
    var c, n, v := CommentBlock("\t##", item.comment), NameText(item.name), ValuesText(item.values);
    CatSix(c, "\t", n, " = ", v, rest);
    assert " = " == " " + "=" + " ";
    CatFour(" ", "=", " ", v + rest);
  }

  lemma SectionShape(s: Section, rest: string)
    ensures SectionText(s) + rest
         == CommentBlock("#", s.comment)
            + (['['] + (NameText(s.name) + ([']'] + (DateText(s.date) + (['\n'] + (ItemsText(s.items) + rest))))))
  {
    var c, n, d, i := CommentBlock("#", s.comment), NameText(s.name), DateText(s.date), ItemsText(s.items);
    CatFour(c + "[" + n + "]", d, "\n" + i, rest);
    CatFour(c, "[", n, "]");
    Extend(c + "[" + n + "]" + d, "\n", i);
    Extend("\n", i, rest);
    CatFour(c, "[", n, "]" + (d + ("\n" + (i + rest))));
    Extend(c + "[" + n, "]", d + ("\n" + (i + rest)));
  }

  lemma DateShape(d: string, rest: string)
    requires IsDate(d)
    ensures IsWord("(" + d + ")") && WordToken("(" + d + ")") == Str("(" + d + ")")
    ensures DateText(Some(d)) + rest == [' '] + ("(" + d + ")" + rest)
  {
    var w := "(" + d + ")";
    assert w[0] == '(' && w[|w| - 1] == ')';
    assert forall i :: 1 <= i < |w| - 1 ==> w[i] == d[i - 1];
    assert |w| == 12;
    assert " (" + d + ")" == [' '] + w;
    Extend([' '], w, rest);
  }

  // ---------------------------------------------------------------- scanning the printed text

  lemma LexBlank(c: char, rest: string)
    requires Blank(c) || c == '\n'
    ensures Lex([c] + rest) == Lex(rest)
  {
    LexLone(c, rest);
    assert LoneTokens(c) == [];
  }

  lemma LexMark(c: char, t: Token, rest: string)
    requires Lone(c) && LoneTokens(c) == [t]
    ensures Lex([c] + rest) == [t] + Lex(rest)
  {
    LexLone(c, rest);
  }

  lemma LexEquals(rest: string)
    ensures Lex([' '] + (['='] + ([' '] + rest))) == [Equals] + Lex(rest)
  {
    LexBlank(' ', rest);
    LexMark('=', Equals, [' '] + rest);
    LexBlank(' ', ['='] + ([' '] + rest));
  }

  /** The comma after a list value, if any. */
  function LineTokens(values: seq<string>, more: seq<Token>): seq<Token> {
    if |values| > 1 then [Comma] + more else more
  }

  lemma LexLineEnd(values: seq<string>, more: string)
    ensures Lex(LineEnd(values, more)) == LineTokens(values, Lex(more))
    ensures EndsQuote(LineEnd(values, more))
  {
    LexBlank('\n', more);
    if |values| > 1 {
      LexMark(',', Comma, ['\n'] + more);
    }
  }

  lemma LexListLine(values: seq<string>, more: string)
    requires values != [] && NoSpecial(values[0])
    ensures Lex(['\t'] + (['\t'] + (ListedText(values[0]) + LineEnd(values, more))))
         == ListedTokens(values[0]) + LineTokens(values, Lex(more))
  {
    var line := ListedText(values[0]) + LineEnd(values, more);
    LexLineEnd(values, more);
    LexListed(values[0], LineEnd(values, more));
    LexBlank('\t', line);
    LexBlank('\t', ['\t'] + line);
  }

  lemma {:induction false} LexListLines(values: seq<string>, rest: string)
    requires forall v :: v in values ==> NoSpecial(v)
    ensures Lex(ListLines(values) + rest) == ListTokens(values) + Lex(rest)
    decreases |values|
  {
    if values == [] {
      assert ListLines(values) + rest == rest;
    } else {
      LexListLines(values[1..], rest);
      LexListLine(values, ListLines(values[1..]) + rest);
      ListLineShape(values, rest);
      var l, t := ListedTokens(values[0]), ListTokens(values[1..]);
      TokensAssoc(l, t, Lex(rest));
      TokensAssoc([Comma], t, Lex(rest));
      TokensAssoc(l, [Comma] + t, Lex(rest));
    }
  }

  lemma TokensAssoc(a: seq<Token>, b: seq<Token>, c: seq<Token>)
    ensures (a + b) + c == a + (b + c)
  {
  }

  lemma LexListBlock(values: seq<string>, rest: string)
    requires |values| > 1 && forall v :: v in values ==> NoSpecial(v)
    ensures Lex(['\n'] + (['\t'] + (['{'] + (['\n'] + (ListLines(values) + (['\t'] + (['}'] + (['\n'] + rest))))))))
         == ValuesTokens(values) + Lex(rest)
  {
    var close := ['\t'] + (['}'] + (['\n'] + rest));
    LexCloseList(rest);
    LexListLines(values, close);
    LexOpenList(ListLines(values) + close);
    TokensAssoc(ListTokens(values), [ListEnd], Lex(rest));
    TokensAssoc([ListBegin], ListTokens(values) + [ListEnd], Lex(rest));
  }

  lemma LexOpenList(rest: string)
    ensures Lex(['\n'] + (['\t'] + (['{'] + (['\n'] + rest)))) == [ListBegin] + Lex(rest)
  {
    LexBlank('\n', rest);
    LexMark('{', ListBegin, ['\n'] + rest);
    LexBlank('\t', ['{'] + (['\n'] + rest));
    LexBlank('\n', ['\t'] + (['{'] + (['\n'] + rest)));
  }

  lemma LexCloseList(rest: string)
    ensures Lex(['\t'] + (['}'] + (['\n'] + rest))) == [ListEnd] + Lex(rest)
  {
    LexBlank('\n', rest);
    LexMark('}', ListEnd, ['\n'] + rest);
    LexBlank('\t', ['}'] + (['\n'] + rest));
  }

  lemma LexValues(values: seq<string>, rest: string)
    requires forall v :: v in values ==> NoSpecial(v)
    ensures Lex(ValuesText(values) + rest) == ValuesTokens(values) + Lex(rest)
  {
    if |values| <= 1 {
      LexOneValue(values, rest);
    } else {
      ListBlockShape(values, rest);
      LexListBlock(values, rest);
    }
  }

  lemma LexOneValue(values: seq<string>, rest: string)
    requires |values| <= 1 && forall v :: v in values ==> NoSpecial(v)
    ensures Lex(ValuesText(values) + rest) == ValuesTokens(values) + Lex(rest)
  {
    LexBlank('\n', rest);
    if |values| == 0 {
      Extend(Quoted(""), ['\n'], rest);
      LexQuoted("", ['\n'] + rest);
    } else {
      Extend(SingleText(values[0]), ['\n'], rest);
      LexSingle(values[0], ['\n'] + rest);
    }
  }

  lemma LexItemHead(item: Item, rest: string)
    requires LegalItem(item)
    ensures Lex(['\t'] + (NameText(item.name) + ([' '] + (['='] + ([' '] + rest)))))
         == NameTokens(item.name) + ([Equals] + Lex(rest))
  {
    var tail := [' '] + (['='] + ([' '] + rest));
    LexEquals(rest);
    LexName(item.name, tail);
    LexBlank('\t', NameText(item.name) + tail);
  }

  lemma LexItemBody(item: Item, rest: string)
    requires LegalItem(item)
    ensures Lex(['\t'] + (NameText(item.name) + ([' '] + (['='] + ([' '] + (ValuesText(item.values) + rest))))))
         == NameTokens(item.name) + ([Equals] + ValuesTokens(item.values)) + Lex(rest)
  {
    LexValues(item.values, rest);
    LexItemHead(item, ValuesText(item.values) + rest);
    TokensAssoc([Equals], ValuesTokens(item.values), Lex(rest));
    TokensAssoc(NameTokens(item.name), [Equals] + ValuesTokens(item.values), Lex(rest));
  }

  lemma LexItem(item: Item, rest: string)
    requires LegalItem(item)
    ensures Lex(ItemText(item) + rest) == ItemTokens(item) + Lex(rest)
  {
    var head := ['\t'] + (NameText(item.name) + ([' '] + (['='] + ([' '] + (ValuesText(item.values) + rest)))));
    ItemShape(item, rest);
    LexItemBody(item, rest);
    LexItemPrefix(item.comment, head);
    TokensAssoc(ItemCommentTokens(PrintedLines(item.comment)),
                NameTokens(item.name) + ([Equals] + ValuesTokens(item.values)), Lex(rest));
  }

  lemma LexItemPrefix(comment: string, rest: string)
    requires NoHash(comment)
    ensures Lex(CommentBlock("\t##", comment) + rest) == ItemCommentTokens(PrintedLines(comment)) + Lex(rest)
  {
    if comment == "" {
      assert "" + rest == rest;
    } else {
      LexItemComments(comment, rest);
    }
  }

  lemma LexSectionPrefix(comment: string, rest: string)
    requires NoHash(comment)
    ensures Lex(CommentBlock("#", comment) + rest) == SectionCommentTokens(PrintedLines(comment)) + Lex(rest)
  {
    if comment == "" {
      assert "" + rest == rest;
    } else {
      LexSectionComments(comment, rest);
    }
  }

  lemma {:induction false} LexItems(items: seq<Item>, rest: string)
    requires LegalItems(items)
    ensures Lex(ItemsText(items) + rest) == ItemsTokens(items) + Lex(rest)
    decreases |items|
  {
    if items == [] {
      assert ItemsText(items) + rest == rest;
    } else {
      var more := ItemsText(items[1..]);
      CatFour(ItemText(items[0]), ['\n'], more, rest);
      LexItem(items[0], ['\n'] + (more + rest));
      LexBlank('\n', more + rest);
      LexItems(items[1..], rest);
      TokensAssoc(ItemTokens(items[0]), ItemsTokens(items[1..]), Lex(rest));
    }
  }

  lemma LexDate(date: Option<string>, rest: string)
    requires date.Some? ==> IsDate(date.value)
    ensures Lex(DateText(date) + (['\n'] + rest)) == DateTokens(date) + Lex(rest)
  {
    LexBlank('\n', rest);
    if date.None? {
      assert "" + (['\n'] + rest) == ['\n'] + rest;
    } else {
      var w := "(" + date.value + ")";
      DateShape(date.value, ['\n'] + rest);
      LexWord(w, ['\n'] + rest);
      LexBlank(' ', w + (['\n'] + rest));
    }
  }

  lemma LexSectionHead(s: Section, rest: string)
    requires LegalSection(s)
    ensures Lex(['['] + (NameText(s.name) + ([']'] + (DateText(s.date) + (['\n'] + rest)))))
         == [SectionBegin] + (NameTokens(s.name) + ([SectionEnd] + (DateTokens(s.date) + Lex(rest))))
  {
    var date := DateText(s.date) + (['\n'] + rest);
    LexDate(s.date, rest);
    LexMark(']', SectionEnd, date);
    LexName(s.name, [']'] + date);
    LexMark('[', SectionBegin, NameText(s.name) + ([']'] + date));
  }

  lemma LexSection(s: Section, rest: string)
    requires LegalSection(s)
    ensures Lex(SectionText(s) + rest) == SectionTokens(s) + Lex(rest)
  {
    var items := ItemsText(s.items) + rest;
    SectionShape(s, rest);
    LexItems(s.items, rest);
    LexSectionHead(s, items);
    LexSectionPrefix(s.comment, ['['] + (NameText(s.name) + ([']'] + (DateText(s.date) + (['\n'] + items)))));
    SectionAssoc(SectionCommentTokens(PrintedLines(s.comment)), NameTokens(s.name), DateTokens(s.date),
                 ItemsTokens(s.items), Lex(rest));
  }

  lemma SectionAssoc(c: seq<Token>, n: seq<Token>, d: seq<Token>, i: seq<Token>, rest: seq<Token>)
    ensures (c + ([SectionBegin] + (n + ([SectionEnd] + (d + i))))) + rest
         == c + ([SectionBegin] + (n + ([SectionEnd] + (d + (i + rest)))))
  {
    TokensAssoc(d, i, rest);
    TokensAssoc([SectionEnd], d + i, rest);
    TokensAssoc(n, [SectionEnd] + (d + i), rest);
    TokensAssoc([SectionBegin], n + ([SectionEnd] + (d + i)), rest);
    TokensAssoc(c, [SectionBegin] + (n + ([SectionEnd] + (d + i))), rest);
  }

  /** Scanning a printed legal configuration gives its tokens, in order, and nothing else. */
  lemma {:induction false} LexConfig(c: Config)
    requires LegalConfig(c)
    ensures Lex(ConfigText(c)) == ConfigTokens(c)
    decreases |c|
  {
    if c != [] {
      LexSection(c[0], ConfigText(c[1..]));
      LexConfig(c[1..]);
    }
  }
}
