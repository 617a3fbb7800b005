/**
 Whatever the scanner and the reader hand out stays within the characters of tokens: every
 configuration that can be loaded from any text is legal.
 */
module Legality {
  import opened ConfigModel
  import opened Scanner
  import opened Lexer
  import opened Grammar
  import opened Reader
  import opened PrintedTokens
  import opened SavedTokens

  predicate LegalToken(t: Token) {
    match t
    case Str(s) => NoSpecial(s)
    case ItemComment(s) => CommentText(s)
    case SectionComment(s) => CommentText(s)
    case SectionDate(s) => IsDate(s)
    case _ => true
  }

  predicate LegalTokens(ts: seq<Token>) {
    forall t :: t in ts ==> LegalToken(t)
  }

  lemma TokenIsLegal(r: nat, text: string)
    requires r == FirstRule(text)
    ensures LegalTokens(TokenOf(r, text))
  {
  }

  lemma {:induction false} LexIsLegal(s: string)
    ensures LegalTokens(Lex(s))
    decreases |s|
  {
    if s != [] {
      var n := LongestMatch(s, |s|);
      TokenIsLegal(FirstRule(s[..n]), s[..n]);
      LexIsLegal(s[n..]);
    }
  }

  predicate LegalOpen(o: Open) {
    && LegalConfig(o.config)
    && NoHash(o.comment)
    && NoSpecial(o.name)
    && (o.date == "" || IsDate(o.date))
    && LegalItems(o.items)
  }

  predicate LegalPart(o: Open, comment: string, name: string, values: seq<string>) {
    LegalOpen(o) && LegalItem(Item(name, comment, values))
  }

  /** Everything read so far is legal. */
  predicate LegalProgress(p: Progress) {
    match p
    case Between(c) => LegalConfig(c)
    case InComments(c, comment) => LegalConfig(c) && NoHash(comment)
    case AtName(c, comment) => LegalConfig(c) && NoHash(comment)
    case AfterName(c, comment, name) => LegalOpen(Open(c, comment, name, "", []))
    case AfterHeader(c, comment, name) => LegalOpen(Open(c, comment, name, "", []))
    case AtDate(c, comment, name) => LegalOpen(Open(c, comment, name, "", []))
    case AfterDate(c, comment, name, date) => LegalOpen(Open(c, comment, name, date, []))
    case InItems(o) => LegalOpen(o)
    case InItemComments(o, comment) => LegalPart(o, comment, "", [])
    case AfterItemName(o, comment, name) => LegalPart(o, comment, name, [])
    case AtValue(o, comment, name) => LegalPart(o, comment, name, [])
    case AtList(o, comment, name) => LegalPart(o, comment, name, [])
    case InList(o, comment, name, values) => LegalPart(o, comment, name, values)
    case AfterComma(o, comment, name, values) => LegalPart(o, comment, name, values)
    case Done(c) => LegalConfig(c)
  }

  lemma JoinIsLegal(comment: string, line: string)
    requires NoHash(comment) && CommentText(line)
    ensures NoHash(Join(comment, line))
  {
  }

  lemma NothingIsLegal()
    ensures NoSpecial("") && NoHash("") && LegalItems([])
  {
  }

  lemma CloseIsLegal(o: Open)
    requires LegalOpen(o)
    ensures Close(o).Some? ==> LegalConfig(Close(o).value)
  {
  }

  lemma AddIsLegal(items: seq<Item>, item: Item)
    requires LegalItems(items) && LegalItem(item)
    ensures LegalItems(items + [item])
  {
  }

  lemma AdvanceIsLegal(p: Progress, t: Token)
    requires LegalProgress(p) && LegalToken(t)
    ensures Advance(p, t).Some? ==> LegalProgress(Advance(p, t).value)
  {
    hide Join, Close, IsDate, NoSpecial, NoHash, CommentText, LegalConfig, LegalItems;
    NothingIsLegal();
    if p.AfterHeader? {
      CloseIsLegal(Open(p.config, p.comment, p.name, "", []));
    } else if p.InItems? {
      CloseIsLegal(p.open);
    } else if p.AtValue? && t.Str? {
      AddIsLegal(p.open.items, Item(p.itemName, p.itemComment, [t.text]));
    } else if p.AtList? {
      AddIsLegal(p.open.items, Item(p.itemName, p.itemComment, []));
    } else if p.InList? {
      AddIsLegal(p.open.items, Item(p.itemName, p.itemComment, p.values));
    }
    if t.SectionComment? || t.ItemComment? {
      JoinIsLegal("", t.text);
      if p.InComments? {
        JoinIsLegal(p.comment, t.text);
      } else if p.InItemComments? {
        JoinIsLegal(p.itemComment, t.text);
      }
    }
  }

  lemma {:induction false} ReadIsLegal(p: Progress, ts: seq<Token>)
    requires LegalProgress(p) && LegalTokens(ts)
    ensures Read(p, ts).Some? ==> LegalConfig(Read(p, ts).value)
    decreases |ts|
  {
    if ts != [] && Advance(p, ts[0]).Some? {
      AdvanceIsLegal(p, ts[0]);
      ReadIsLegal(Advance(p, ts[0]).value, ts[1..]);
    }
  }

  /** Loading any text at all gives a legal configuration or fails. */
  lemma LoadIsLegal(text: string)
    ensures Parse(Lex(text)).Some? ==> LegalConfig(Parse(Lex(text)).value)
  {
    LexIsLegal(text);
    ReadIsLegal(Between([]), Lex(text));
  }
}
