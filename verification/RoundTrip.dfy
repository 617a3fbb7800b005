/**
 Save, then load. Reading the tokens of a printed configuration gives back its normal form
 exactly when the configuration is storable.
 */
module RoundTrip {
  import opened ConfigModel
  import opened Scanner
  import opened Lexer
  import opened Grammar
  import opened Reader
  import opened Writer
  import opened PrintedTokens
  import opened SavedTokens
  import opened Storable
  import Legality
  import Parser

  // ---------------------------------------------------------------- reading some tokens

  /** The progress after some tokens; None if one of them is an error. */
  function Feed(p: Progress, ts: seq<Token>): Option<Progress>
    decreases |ts|
  {
    if ts == [] then Some(p)
    else
      match Advance(p, ts[0])
      case None => None
      case Some(q) => Feed(q, ts[1..])
  }

  function Then(p: Option<Progress>, ts: seq<Token>): Option<Progress> {
    match p
    case None => None
    case Some(q) => Feed(q, ts)
  }

  lemma {:induction false} FeedCat(p: Progress, a: seq<Token>, b: seq<Token>)
    ensures Feed(p, a + b) == Then(Feed(p, a), b)
    decreases |a|
  {
    if a == [] {
      assert a + b == b;
    } else {
      assert (a + b)[0] == a[0] && (a + b)[1..] == a[1..] + b;
      if Advance(p, a[0]).Some? {
        FeedCat(Advance(p, a[0]).value, a[1..], b);
      }
    }
  }

  lemma {:induction false} ReadCat(p: Progress, a: seq<Token>, b: seq<Token>)
    ensures Read(p, a + b) == match Feed(p, a) { case None => None case Some(q) => Read(q, b) }
    decreases |a|
  {
    if a == [] {
      assert a + b == b;
    } else {
      assert (a + b)[0] == a[0] && (a + b)[1..] == a[1..] + b;
      if Advance(p, a[0]).Some? {
        ReadCat(Advance(p, a[0]).value, a[1..], b);
      }
    }
  }

  lemma FeedOne(p: Progress, t: Token, rest: seq<Token>)
    ensures Feed(p, [t] + rest) == Then(Advance(p, t), rest)
    ensures Feed(p, [t]) == Advance(p, t)
  {
    assert ([t] + rest)[1..] == rest;
  }

  // ---------------------------------------------------------------- comments

  /** Comment lines joined one after the other. */
  function JoinAll(comment: string, lines: seq<string>): string
    decreases |lines|
  {
    if lines == [] then comment else JoinAll(Join(comment, lines[0]), lines[1..])
  }

  lemma SplitComment(comment: string, i: nat)
    requires i == IndexOf(comment, '\n') < |comment|
    ensures comment == comment[..i] + ("\n" + comment[i + 1..])
    ensures Lines(comment)[0] == comment[..i] && Lines(comment)[1..] == Lines(comment[i + 1..])
  {
    CutAt(comment, i);
    var line, more := [comment[..i]], Lines(comment[i + 1..]);
    assert (line + more)[1..] == more;
  }

  lemma CutAt(s: string, i: nat)
    requires i < |s| && s[i] == '\n'
    ensures s == s[..i] + ("\n" + s[i + 1..])
  {
  }

  lemma {:induction false} JoinAfter(start: string, comment: string)
    requires start != ""
    ensures JoinAll(start, Lines(comment)) == start + "\n" + comment
    decreases |comment|
  {
    var i := IndexOf(comment, '\n');
    if i < |comment| {
      var line, rest := comment[..i], comment[i + 1..];
      SplitComment(comment, i);
      JoinAfter(start + "\n" + line, rest);
      CatFour(start + "\n", line, "\n", rest);
    } else {
      assert Lines(comment) == [comment];
      assert JoinAll(start + "\n" + comment, []) == start + "\n" + comment;
    }
  }

  lemma {:induction false} JoinLines(comment: string)
    ensures JoinAll("", Lines(comment)) == NormComment(comment)
    decreases |comment|
  {
    var i := IndexOf(comment, '\n');
    if i == |comment| {
      assert Lines(comment) == [comment];
      assert JoinAll(comment, []) == comment;
    } else {
      var line, rest := comment[..i], comment[i + 1..];
      SplitComment(comment, i);
      if line == "" {
        JoinLines(rest);
      } else {
        JoinAfter(line, rest);
        Extend(line, "\n", rest);
      }
    }
  }

  lemma PrintedComment(comment: string)
    ensures JoinAll("", PrintedLines(comment)) == NormComment(comment)
  {
    if comment != "" {
      JoinLines(comment);
    }
  }

  lemma {:induction false} FeedSectionComments(config: Config, comment: string, lines: seq<string>)
    ensures Feed(InComments(config, comment), SectionCommentTokens(lines))
         == Some(InComments(config, JoinAll(comment, lines)))
    decreases |lines|
  {
    if lines != [] {
      FeedOne(InComments(config, comment), SectionComment(lines[0]), SectionCommentTokens(lines[1..]));
      FeedSectionComments(config, Join(comment, lines[0]), lines[1..]);
    }
  }

  lemma {:induction false} FeedItemComments(o: Open, comment: string, lines: seq<string>)
    ensures Feed(InItemComments(o, comment), ItemCommentTokens(lines))
         == Some(InItemComments(o, JoinAll(comment, lines)))
    decreases |lines|
  {
    if lines != [] {
      FeedOne(InItemComments(o, comment), ItemComment(lines[0]), ItemCommentTokens(lines[1..]));
      FeedItemComments(o, Join(comment, lines[0]), lines[1..]);
    }
  }

  // ---------------------------------------------------------------- values

  /** An unquoted string without commas is scanned as one word. */
  lemma OneWord(s: string)
    requires Plain(s) && s != "" && ',' !in s
    ensures IsWord(s) && RawTokens(s) == [WordToken(s)]
    ensures WordToken(s).Str? <==> ReadsAsString(s)
  {
    assert IndexOf(s, ',') == |s|;
    assert s[..|s|] == s && s[|s|..] == "";
  }

  lemma FeedSingle(o: Open, comment: string, name: string, s: string)
    requires NoSpecial(s)
    ensures Feed(AtValue(o, comment, name), SingleTokens(s))
         == if StorableSingle(s) then Some(InItems(o.Add(Item(name, comment, [s])))) else None
  {
    var p := AtValue(o, comment, name);
    if NeedsQuotes(s) || ',' in s || s == "" {
      FeedOne(p, Str(s), []);
    } else {
      PlainUnlessQuoted(s);
      OneWord(s);
      FeedOne(p, WordToken(s), []);
    }
  }

  /** A list after some values, ready for another one. */
  predicate ExpectsValue(p: Progress, o: Open, comment: string, name: string, values: seq<string>) {
    || (values == [] && p == AtList(o, comment, name))
    || (values != [] && p == AfterComma(o, comment, name, values))
  }

  /** What the pieces of an unquoted list value with commas do: an error, a list that waits for
      a value, or a list with more than one value more. */
  predicate Splits(r: Option<Progress>, o: Open, comment: string, name: string, n: nat) {
    r.Some? ==>
      || r.value.AfterComma?
      || (r.value.InList? && r.value == InList(o, comment, name, r.value.values) && |r.value.values| > n)
  }

  lemma FirstPiece(s: string)
    requires Plain(s) && s != "" && s[0] != ','
    ensures var n := IndexOf(s, ',');
            && 0 < n <= |s| && (',' in s <==> n < |s|)
            && RawTokens(s) == [WordToken(s[..n])] + RawTokens(s[n..])
            && Plain(s[n..]) && (s[n..] == "" || s[n..][0] == ',')
  {
  }

  lemma {:induction false} FeedPieces(p: Progress, o: Open, comment: string, name: string, values: seq<string>, s: string)
    requires Plain(s) && ExpectsValue(p, o, comment, name, values)
    requires s == "" ==> values != []
    ensures Splits(Feed(p, RawTokens(s)), o, comment, name, |values| + if ',' in s then 1 else 0)
    decreases |s|
  {
    if s == "" {
      assert Feed(p, []) == Some(p);
    } else if s[0] == ',' {
      FeedOne(p, Comma, RawTokens(s[1..]));
      assert Advance(p, Comma) == None;
    } else {
      var n := IndexOf(s, ',');
      var w := WordToken(s[..n]);
      hide Feed, RawTokens, WordToken, Plain, IndexOf;
      FirstPiece(s);
      FeedOne(p, w, RawTokens(s[n..]));
      if w.Str? {
        var more := values + [w.text];
        assert values == [] ==> more == [w.text];
        assert Advance(p, w) == Some(InList(o, comment, name, more));
        FeedMorePieces(o, comment, name, more, s[n..]);
      }
    }
  }

  lemma {:induction false} FeedMorePieces(o: Open, comment: string, name: string, values: seq<string>, s: string)
    requires Plain(s) && (s == "" || s[0] == ',') && values != []
    ensures Splits(Feed(InList(o, comment, name, values), RawTokens(s)), o, comment, name,
                   if s == "" then |values| - 1 else |values|)
    decreases |s|
  {
    var p := InList(o, comment, name, values);
    if s != "" {
      FeedOne(p, Comma, RawTokens(s[1..]));
      FeedPieces(AfterComma(o, comment, name, values), o, comment, name, values, s[1..]);
    }
  }

  /** One list value: read as it is if it is storable, otherwise an error or several values. */
  lemma FeedListed(p: Progress, o: Open, comment: string, name: string, values: seq<string>, s: string)
    requires NoSpecial(s) && ExpectsValue(p, o, comment, name, values)
    ensures var r := Feed(p, ListedTokens(s));
            && (StorableListed(s) ==> r == Some(InList(o, comment, name, values + [s])))
            && (!StorableListed(s) ==> Splits(r, o, comment, name, |values| + 1))
  {
    assert values == [] ==> values + [s] == [s];
    if s == "" || NeedsQuotes(s) {
      FeedOne(p, Str(s), []);
    } else {
      PlainUnlessQuoted(s);
      if ',' in s {
        FeedPieces(p, o, comment, name, values, s);
      } else {
        OneWord(s);
        FeedOne(p, WordToken(s), []);
      }
    }
  }

  /** The whole list, up to its closing brace, after `before`. */
  ghost predicate ListRead(r: Option<Progress>, o: Open, comment: string, name: string, before: seq<string>, values: seq<string>) {
    if forall v :: v in values ==> StorableListed(v) then r == Some(InItems(o.Add(Item(name, comment, before + values))))
    else r.Some? ==> exists vs :: |vs| > |before| + |values| && r == Some(InItems(o.Add(Item(name, comment, vs))))
  }

  lemma {:induction false} FeedList(p: Progress, o: Open, comment: string, name: string, before: seq<string>, values: seq<string>)
    requires values != [] && forall v :: v in values ==> NoSpecial(v)
    requires ExpectsValue(p, o, comment, name, before)
    ensures ListRead(Feed(p, ListTokens(values) + [ListEnd]), o, comment, name, before, values)
    decreases |values|
  {
    hide ListedTokens, ListTokens, Feed, Storable.StorableListed, NoSpecial;
    var more := if |values| == 1 then [ListEnd] else ListTokens(values[1..]) + [ListEnd];
    var tail := LineTokens(values, more);
    assert ListTokens(values) + [ListEnd] == ListedTokens(values[0]) + tail by {
      ListTail(values);
    }
    FeedCat(p, ListedTokens(values[0]), tail);
    FeedListed(p, o, comment, name, before, values[0]);
    var r := Feed(p, ListedTokens(values[0]));
    if r.Some? && r.value.AfterComma? {
      CommaOrEnd(r.value, tail);
    } else if r.Some? {
      FeedListTail(r.value, o, comment, name, before, values);
    }
  }

  lemma FeedNothing()
    ensures forall p :: Feed(p, []) == Some(p)
  {
  }

  lemma CommaOrEnd(p: Progress, ts: seq<Token>)
    requires p.AfterComma? && ts != [] && !ts[0].Str?
    ensures Feed(p, ts) == None
  {
    FeedOne(p, ts[0], ts[1..]);
    assert ts == [ts[0]] + ts[1..];
  }

  lemma ListTail(values: seq<string>)
    requires values != [] && forall v :: v in values ==> NoSpecial(v)
    ensures ListTokens(values) + [ListEnd]
         == ListedTokens(values[0])
            + LineTokens(values, if |values| == 1 then [ListEnd] else ListTokens(values[1..]) + [ListEnd])
  {
    var l, t := ListedTokens(values[0]), ListTokens(values[1..]);
    TokensAssoc(l, LineTokens(values, t), [ListEnd]);
    if |values| == 1 {
      assert t + [ListEnd] == [ListEnd];
    } else {
      TokensAssoc([Comma], t, [ListEnd]);
    }
  }

  lemma {:induction false} FeedListTail(q: Progress, o: Open, comment: string, name: string, before: seq<string>, values: seq<string>)
    requires values != [] && forall v :: v in values ==> NoSpecial(v)
    requires q.InList? && q == InList(o, comment, name, q.values)
    requires if StorableListed(values[0]) then q.values == before + [values[0]] else |q.values| > |before| + 1
    ensures ListRead(Feed(q, LineTokens(values, if |values| == 1 then [ListEnd] else ListTokens(values[1..]) + [ListEnd])),
                     o, comment, name, before, values)
    decreases |values|, 0
  {
    hide ListedTokens, ListTokens, Feed, Storable.StorableListed, NoSpecial;
    if |values| == 1 {
      FeedOne(q, ListEnd, []);
      FeedNothing();
      assert values == [values[0]];
    } else {
      var rest := values[1..];
      assert values == [values[0]] + rest;
      FeedOne(q, Comma, ListTokens(rest) + [ListEnd]);
      var q' := AfterComma(o, comment, name, q.values);
      FeedList(q', o, comment, name, q.values, rest);
      assert before + [values[0]] + rest == before + values;
    }
  }

  /** What the values of an item are read as. */
  ghost predicate ValuesRead(r: Option<Progress>, o: Open, comment: string, name: string, values: seq<string>) {
    match r
    case None => !StorableValues(values)
    case Some(q) =>
      && q.InItems?
      && exists vs :: q == InItems(o.Add(Item(name, comment, vs))) && (vs == NormValues(values) <==> StorableValues(values))
  }

  lemma FeedValues(o: Open, comment: string, name: string, values: seq<string>)
    requires forall v :: v in values ==> NoSpecial(v)
    ensures ValuesRead(Feed(AtValue(o, comment, name), ValuesTokens(values)), o, comment, name, values)
  {
    hide ListTokens, Feed, SingleTokens;
    var p := AtValue(o, comment, name);
    var r := Feed(p, ValuesTokens(values));
    if |values| == 0 {
      FeedOne(p, Str(""), []);
      assert r == Some(InItems(o.Add(Item(name, comment, NormValues(values)))));
    } else if |values| == 1 {
      FeedSingle(o, comment, name, values[0]);
      assert values == [values[0]] == NormValues(values);
    } else {
      var q := AtList(o, comment, name);
      FeedOne(p, ListBegin, ListTokens(values) + [ListEnd]);
      FeedList(q, o, comment, name, [], values);
      assert [] + values == values == NormValues(values);
    }
  }

  // ---------------------------------------------------------------- items

  /** An item is read, correctly if and only if it is storable. */
  ghost predicate ItemRead(r: Option<Progress>, o: Open, item: Item) {
    match r
    case None => !StorableItem(item)
    case Some(q) => exists i :: q == InItems(o.Add(i)) && (i == NormItem(item) <==> StorableItem(item))
  }

  /** Inside a section that has no date, ready for another item. */
  predicate Ready(p: Progress, o: Open) {
    && o.date == ""
    && (p == InItems(o) || (o.items == [] && p == AfterHeader(o.config, o.comment, o.name)))
  }

  /** A name: read as it is if it is storable, otherwise an error here or at the next token. */
  lemma NameIsStr(s: string)
    requires NoSpecial(s)
    ensures StorableName(s) ==> NameTokens(s) == [Str(s)]
    ensures !StorableName(s) ==>
              || NameTokens(s) == []
              || !NameTokens(s)[0].Str?
              || (|NameTokens(s)| >= 2 && NameTokens(s)[1] == Comma)
    ensures NameTokens(s) != [] && NameTokens(s)[0].DateBegin? ==> |NameTokens(s)| == 1 || NameTokens(s)[1] == Comma
    ensures NameTokens(s) != [] ==> !NameTokens(s)[0].ItemComment? && !NameTokens(s)[0].SectionComment? && !NameTokens(s)[0].SectionBegin? && !NameTokens(s)[0].Equals?
  {
    if !NeedsQuotes(s) {
      PlainUnlessQuoted(s);
      if s != "" && s[0] != ',' {
        var n := IndexOf(s, ',');
        if n == |s| {
          assert ',' !in s;
          OneWord(s);
        } else {
          assert s[n..][0] == ',';
          assert RawTokens(s) == [WordToken(s[..n])] + ([Comma] + RawTokens(s[n..][1..]));
        }
      }
    }
  }

  /** The name of an item and the equals sign, after the item's comments. */
  lemma FeedItemName(p: Progress, o: Open, comment: string, name: string, rest: seq<Token>)
    requires NoSpecial(name)
    requires p == InItemComments(o, comment) || (comment == "" && Ready(p, o))
    ensures Feed(p, NameTokens(name) + ([Equals] + rest))
         == if StorableName(name) then Feed(AtValue(o, comment, name), rest) else None
  {
    NameIsStr(name);
    var ts := NameTokens(name) + ([Equals] + rest);
    if StorableName(name) {
      FeedOne(p, Str(name), [Equals] + rest);
      FeedOne(AfterItemName(o, comment, name), Equals, rest);
    } else {
      var t := ts[0];
      assert ts == [t] + ts[1..];
      FeedOne(p, t, ts[1..]);
      if t.Str? {
        assert ts[1..] == [Comma] + ts[2..];
        FeedOne(AfterItemName(o, comment, t.text), Comma, ts[2..]);
      } else {
        NotAnItem(p, o, t, ts[1..]);
      }
    }
  }

  /** No item starts with t. (After a section header an opening parenthesis is a date, but then
      no date follows.) */
  lemma NotAnItem(p: Progress, o: Open, t: Token, rest: seq<Token>)
    requires p.InItemComments? || Ready(p, o)
    requires !t.Str? && !t.ItemComment? && !t.SectionComment? && !t.SectionBegin?
    requires t.DateBegin? ==> rest != [] && !rest[0].SectionDate?
    ensures Then(Advance(p, t), rest) == None
  {
  }

  lemma FeedItem(p: Progress, o: Open, item: Item)
    requires LegalItem(item) && Ready(p, o)
    ensures ItemRead(Feed(p, ItemTokens(item)), o, item)
  {
    var lines, c := PrintedLines(item.comment), NormComment(item.comment);
    var rest := [Equals] + ValuesTokens(item.values);
    PrintedComment(item.comment);
    FeedCat(p, ItemCommentTokens(lines), NameTokens(item.name) + rest);
    var q := p;
    if lines != [] {
      FeedOne(p, ItemComment(lines[0]), ItemCommentTokens(lines[1..]));
      FeedOne(InItemComments(o, ""), ItemComment(lines[0]), ItemCommentTokens(lines[1..]));
      FeedItemComments(o, "", lines);
      q := InItemComments(o, c);
    }
    assert Feed(p, ItemCommentTokens(lines)) == Some(q);
    FeedItemName(q, o, c, item.name, ValuesTokens(item.values));
    FeedValues(o, c, item.name, item.values);
    if StorableName(item.name) {
      NamedItemRead(Feed(AtValue(o, c, item.name), ValuesTokens(item.values)), o, item);
    }
  }

  lemma NamedItemRead(r: Option<Progress>, o: Open, item: Item)
    requires LegalItem(item) && StorableName(item.name)
    requires ValuesRead(r, o, NormComment(item.comment), item.name, item.values)
    ensures ItemRead(r, o, item)
  {
    if r.Some? {
      var c := NormComment(item.comment);
      var vs :| r.value == InItems(o.Add(Item(item.name, c, vs)))
             && (vs == NormValues(item.values) <==> StorableValues(item.values));
      var i := Item(item.name, c, vs);
      assert r.value == InItems(o.Add(i)) && (i == NormItem(item) <==> StorableItem(item));
    }
  }

  function AddAll(o: Open, items: seq<Item>): Open {
    o.(items := o.items + items)
  }

  /** Some items are read, correctly if and only if all are storable. */
  ghost predicate ItemsRead(r: Option<Progress>, o: Open, items: seq<Item>) {
    match r
    case None => !StorableItems(items)
    case Some(q) => exists parts :: ItemsAre(q, o, parts, items)
  }

  predicate ItemsAre(q: Progress, o: Open, parts: seq<Item>, items: seq<Item>) {
    |parts| == |items| && Ready(q, AddAll(o, parts)) && (parts == NormItems(items) <==> StorableItems(items))
  }

  lemma {:induction false} FeedItems(p: Progress, o: Open, items: seq<Item>)
    requires LegalItems(items) && Ready(p, o)
    ensures ItemsRead(Feed(p, ItemsTokens(items)), o, items)
    decreases |items|
  {
    if items == [] {
      assert o.items + [] == o.items;
      assert ItemsAre(p, o, [], items);
    } else {
      FeedCat(p, ItemTokens(items[0]), ItemsTokens(items[1..]));
      FeedItem(p, o, items[0]);
      hide Feed, ItemTokens, StorableItem, NormItem, NormItems, Ready, ItemsRead, LegalItem;
      var r := Feed(p, ItemTokens(items[0]));
      if r.Some? {
        var i :| r.value == InItems(o.Add(i)) && (i == NormItem(items[0]) <==> StorableItem(items[0]));
        FeedItems(r.value, o.Add(i), items[1..]);
        AddFirstItem(Feed(r.value, ItemsTokens(items[1..])), o, i, items);
      }
    }
  }

  lemma NormItemsHead(items: seq<Item>, i: Item, parts: seq<Item>)
    requires items != []
    ensures [i] + parts == NormItems(items) <==> i == NormItem(items[0]) && parts == NormItems(items[1..])
  {
    assert ([i] + parts)[0] == i && ([i] + parts)[1..] == parts;
  }

  lemma AddFirstItem(r: Option<Progress>, o: Open, i: Item, items: seq<Item>)
    requires items != [] && ItemsRead(r, o.Add(i), items[1..])
    requires i == NormItem(items[0]) <==> StorableItem(items[0])
    ensures ItemsRead(r, o, items)
  {
    hide StorableItem, NormItem, NormItems, Ready;
    assert items == [items[0]] + items[1..];
    if r.Some? {
      var parts :| ItemsAre(r.value, o.Add(i), parts, items[1..]);
      var all := [i] + parts;
      assert AddAll(o.Add(i), parts).items == AddAll(o, all).items;
      NormItemsHead(items, i, parts);
      assert ItemsAre(r.value, o, all, items);
    }
  }

  // ---------------------------------------------------------------- sections

  /** The configuration read so far, when nothing more belongs to it; a section that is still
      open has no date. */
  ghost predicate ReadSoFar(p: Progress, config: Config) {
    || p == Between(config)
    || exists o :: Ready(p, o) && config == o.config + [Section(o.name, o.comment, None, o.items)]
  }

  lemma ReadSoFarFinish(p: Progress, config: Config)
    requires ReadSoFar(p, config)
    ensures Finish(p) == Some(config)
    ensures forall t: Token :: t.SectionComment? || t.SectionBegin? ==> Advance(p, t) == AdvanceComments(config, "", t)
  {
  }

  /** The header of a section, up to its closing bracket. */
  lemma FeedHeader(p: Progress, config: Config, s: Section, rest: seq<Token>)
    requires LegalSection(s) && ReadSoFar(p, config)
    ensures Feed(p, SectionCommentTokens(PrintedLines(s.comment)) + ([SectionBegin] + (NameTokens(s.name) + ([SectionEnd] + rest))))
         == if StorableName(s.name) then Feed(AfterHeader(config, NormComment(s.comment), s.name), rest) else None
  {
    var lines, c := PrintedLines(s.comment), NormComment(s.comment);
    var name := NameTokens(s.name) + ([SectionEnd] + rest);
    PrintedComment(s.comment);
    ReadSoFarFinish(p, config);
    FeedCat(p, SectionCommentTokens(lines), [SectionBegin] + name);
    var q := p;
    if lines != [] {
      FeedOne(p, SectionComment(lines[0]), SectionCommentTokens(lines[1..]));
      FeedOne(InComments(config, ""), SectionComment(lines[0]), SectionCommentTokens(lines[1..]));
      FeedSectionComments(config, "", lines);
      q := InComments(config, c);
    }
    assert Feed(p, SectionCommentTokens(lines)) == Some(q);
    FeedOne(q, SectionBegin, name);
    FeedSectionName(config, c, s.name, rest);
  }

  lemma FeedSectionName(config: Config, comment: string, name: string, rest: seq<Token>)
    requires NoSpecial(name)
    ensures Feed(AtName(config, comment), NameTokens(name) + ([SectionEnd] + rest))
         == if StorableName(name) then Feed(AfterHeader(config, comment, name), rest) else None
  {
    hide Feed, NoSpecial, StorableName, NameTokens;
    NameIsStr(name);
    var p, ts := AtName(config, comment), NameTokens(name) + ([SectionEnd] + rest);
    if StorableName(name) {
      FeedOne(p, Str(name), [SectionEnd] + rest);
      FeedOne(AfterName(config, comment, name), SectionEnd, rest);
    } else {
      assert ts == [ts[0]] + ts[1..];
      FeedOne(p, ts[0], ts[1..]);
      if ts[0].Str? {
        assert ts[1..] == [Comma] + ts[2..];
        FeedOne(AfterName(config, comment, ts[0].text), Comma, ts[2..]);
      }
    }
  }

  /** An undated section is read, correctly if and only if it is storable. */
  ghost predicate SectionRead(r: Option<Progress>, config: Config, s: Section) {
    match r
    case None => !StorableSection(s)
    case Some(q) => exists s' :: ReadSoFar(q, config + [s']) && (s' == NormSection(s) <==> StorableSection(s))
  }

  lemma FeedSection(p: Progress, config: Config, s: Section)
    requires LegalSection(s) && s.date.None? && ReadSoFar(p, config)
    ensures SectionRead(Feed(p, SectionTokens(s)), config, s)
  {
    FeedHeader(p, config, s, DateTokens(s.date) + ItemsTokens(s.items));
    assert DateTokens(s.date) + ItemsTokens(s.items) == ItemsTokens(s.items);
    if StorableName(s.name) {
      var q, o := AfterHeader(config, NormComment(s.comment), s.name), Open(config, NormComment(s.comment), s.name, "", []);
      FeedItems(q, o, s.items);
      var r := Feed(q, ItemsTokens(s.items));
      if r.Some? {
        var parts :| ItemsAre(r.value, o, parts, s.items);
        var s' := Section(s.name, NormComment(s.comment), None, parts);
        assert AddAll(o, parts).items == parts;
        assert Ready(r.value, AddAll(o, parts));
        assert ReadSoFar(r.value, config + [s']) && (s' == NormSection(s) <==> StorableSection(s));
      }
    }
  }

  // ---------------------------------------------------------------- dated sections

  /** The section at index k is there, or being read, and is without a date for good. */
  predicate Undated(p: Progress, k: nat) {
    match p
    case Between(c) => k < |c| && c[k].date.None?
    case InComments(c, _) => k < |c| && c[k].date.None?
    case AtName(c, _) => k < |c| && c[k].date.None?
    case AfterName(c, _, _) => k < |c| && c[k].date.None?
    case AfterHeader(c, _, _) => k < |c| && c[k].date.None?
    case AtDate(c, _, _) => k < |c| && c[k].date.None?
    case AfterDate(c, _, _, _) => k < |c| && c[k].date.None?
    case InItems(o) => UndatedIn(o, k)
    case InItemComments(o, _) => UndatedIn(o, k)
    case AfterItemName(o, _, _) => UndatedIn(o, k)
    case AtValue(o, _, _) => UndatedIn(o, k)
    case AtList(o, _, _) => UndatedIn(o, k)
    case InList(o, _, _, _) => UndatedIn(o, k)
    case AfterComma(o, _, _, _) => UndatedIn(o, k)
    case Done(c) => k < |c| && c[k].date.None?
  }

  predicate UndatedIn(o: Open, k: nat) {
    if k < |o.config| then o.config[k].date.None? else k == |o.config| && o.date == ""
  }

  lemma {:induction false} UndatedStays(p: Progress, ts: seq<Token>, k: nat)
    requires Undated(p, k)
    ensures Read(p, ts).Some? ==> k < |Read(p, ts).value| && Read(p, ts).value[k].date.None?
    decreases |ts|
  {
    if ts != [] && Advance(p, ts[0]).Some? {
      UndatedAdvance(p, ts[0], k);
      UndatedStays(Advance(p, ts[0]).value, ts[1..], k);
    }
  }

  lemma UndatedAdvance(p: Progress, t: Token, k: nat)
    requires Undated(p, k)
    ensures Advance(p, t).Some? ==> Undated(Advance(p, t).value, k)
  {
  }

  /** A printed date is read as the name of an item, so a dated section loses its date. */
  lemma DateIsLost(p: Progress, config: Config, s: Section, rest: seq<Token>)
    requires LegalSection(s) && s.date.Some? && ReadSoFar(p, config)
    ensures var r := Read(p, SectionTokens(s) + rest); r.Some? ==> |config| < |r.value| && r.value[|config|].date.None?
  {
    ReadCat(p, SectionTokens(s), rest);
    var date := Str("(" + s.date.value + ")");
    FeedHeader(p, config, s, [date] + ItemsTokens(s.items));
    if StorableName(s.name) {
      var q := AfterHeader(config, NormComment(s.comment), s.name);
      FeedOne(q, date, ItemsTokens(s.items));
      var n := AfterItemName(Open(config, NormComment(s.comment), s.name, "", []), "", date.text);
      ReadCat(n, ItemsTokens(s.items), rest);
      UndatedStays(n, ItemsTokens(s.items) + rest, |config|);
    }
  }

  // ---------------------------------------------------------------- whole configurations

  /** Reading the tokens of c after `config` gives `config` followed by the normal form of c if
      c is storable, and otherwise nothing whose last |c| sections are that normal form. */
  lemma {:induction false} ReadConfig(p: Progress, config: Config, c: Config)
    requires LegalConfig(c) && ReadSoFar(p, config)
    ensures ConfigRead(Read(p, ConfigTokens(c)), config, c)
    decreases |c|
  {
    if c == [] {
      ReadSoFarFinish(p, config);
      assert config + [] == config;
    } else {
      assert c == [c[0]] + c[1..];
      if c[0].date.None? {
        ReadFirst(p, config, c);
      } else {
        DateIsLost(p, config, c[0], ConfigTokens(c[1..]));
        DatedIsNotRead(Read(p, SectionTokens(c[0]) + ConfigTokens(c[1..])), config, c);
      }
    }
  }

  lemma DatedIsNotRead(r: Option<Config>, config: Config, c: Config)
    requires c != [] && c[0].date.Some?
    requires r.Some? ==> |config| < |r.value| && r.value[|config|].date.None?
    ensures ConfigRead(r, config, c)
  {
    assert c[0] in c;
    forall pre: Config | |pre| == |config|
      ensures r != Some(pre + Norm(c))
    {
      assert (pre + Norm(c))[|config|] == Norm(c)[0] == NormSection(c[0]);
    }
  }

  ghost predicate ConfigRead(r: Option<Config>, config: Config, c: Config) {
    if StorableConfig(c) then r == Some(config + Norm(c))
    else forall pre: Config :: |pre| == |config| ==> r != Some(pre + Norm(c))
  }

  lemma {:induction false} ReadFirst(p: Progress, config: Config, c: Config)
    requires LegalConfig(c) && ReadSoFar(p, config) && c != [] && c[0].date.None?
    ensures ConfigRead(Read(p, ConfigTokens(c)), config, c)
    decreases |c|, 0
  {
    var rest := c[1..];
    assert c == [c[0]] + rest;
    ReadCat(p, SectionTokens(c[0]), ConfigTokens(rest));
    FeedSection(p, config, c[0]);
    var r := Feed(p, SectionTokens(c[0]));
    if r.Some? {
      var s :| ReadSoFar(r.value, config + [s]) && (s == NormSection(c[0]) <==> StorableSection(c[0]));
      ReadConfig(r.value, config + [s], rest);
      CombineFirst(Read(r.value, ConfigTokens(rest)), config, s, c);
    }
  }

  lemma CombineFirst(r: Option<Config>, config: Config, s: Section, c: Config)
    requires c != [] && ConfigRead(r, config + [s], c[1..])
    requires s == NormSection(c[0]) <==> StorableSection(c[0])
    ensures ConfigRead(r, config, c)
  {
    assert c == [c[0]] + c[1..];
    if StorableConfig(c) {
      FirstOfNorm(config, config, s, c);
    } else {
      forall pre: Config | |pre| == |config|
        ensures r != Some(pre + Norm(c))
      {
        FirstOfNorm(pre, config, s, c);
        assert |pre + [NormSection(c[0])]| == |config + [s]|;
      }
    }
  }

  lemma FirstOfNorm(pre: Config, config: Config, s: Section, c: Config)
    requires c != [] && |pre| == |config|
    ensures pre + Norm(c) == pre + [NormSection(c[0])] + Norm(c[1..])
    ensures s != NormSection(c[0]) ==> config + [s] + Norm(c[1..]) != pre + Norm(c)
  {
    SectionsAssoc(pre, [NormSection(c[0])], Norm(c[1..]));
    if s != NormSection(c[0]) {
      DifferAt(config, s, pre, NormSection(c[0]), Norm(c[1..]));
    }
  }

  lemma SectionsAssoc(a: Config, b: Config, c: Config)
    ensures a + (b + c) == a + b + c
  {
  }

  lemma DifferAt(a: Config, s: Section, b: Config, t: Section, rest: Config)
    requires |a| == |b| && s != t
    ensures a + [s] + rest != b + [t] + rest
  {
    assert (a + [s] + rest)[|a|] == s;
    assert (b + [t] + rest)[|a|] == t;
  }

  /** Saving and loading gives back the normal form if and only if the configuration is storable. */
  lemma SaveLoad(c: Config)
    ensures Parse(Lex(ConfigText(c))) == Some(Norm(c)) <==> StorableConfig(c)
  {
    if StorableConfig(c) || Parse(Lex(ConfigText(c))) == Some(Norm(c)) {
      if StorableConfig(c) {
        StorableIsLegal(c);
      } else {
        Legality.LoadIsLegal(ConfigText(c));
        NormIsLegal(c);
      }
      LexConfig(c);
      ReadConfig(Between([]), [], c);
      assert [] + Norm(c) == Norm(c);
    }
  }

  /** Further saves and loads change nothing: what has been loaded once is stable. */
  lemma SecondSaveLoad(c: Config)
    requires StorableConfig(c)
    ensures Parse(Lex(ConfigText(Norm(c)))) == Some(Norm(c))
  {
    NormIsNormal(c);
    SaveLoad(Norm(c));
  }

  /** Two storable configurations with the same text have the same normal form. */
  lemma TextDeterminesConfig(c: Config, d: Config)
    requires StorableConfig(c) && StorableConfig(d) && ConfigText(c) == ConfigText(d)
    ensures Norm(c) == Norm(d)
  {
    SaveLoad(c);
    SaveLoad(d);
  }

  /** A legal configuration that does not survive: its section has a date. */
  lemma DatesDoNotSurvive()
    ensures var c := [Section("s", "", Some("2020/01/01"), [])];
            LegalConfig(c) && Parse(Lex(ConfigText(c))) != Some(Norm(c))
  {
    hide Lex, Parse, ConfigText, Norm;
    var c := [Section("s", "", Some("2020/01/01"), [])];
    assert c[0] in c && !StorableSection(c[0]);
    SaveLoad(c);
  }

  lemma UnstorableItem(c: Config, k: nat, j: nat)
    requires k < |c| && j < |c[k].items| && !StorableItem(c[k].items[j])
    ensures !StorableConfig(c)
  {
    hide StorableItem;
    assert c[k].items[j] in c[k].items;
    assert c[k] in c;
  }

  lemma CommaListed(values: seq<string>, k: nat, j: nat)
    requires |values| > 1 && k < |values| && j < |values[k]| && values[k][j] == ',' && !NeedsQuotes(values[k])
    ensures !StorableValues(values)
  {
    assert values[k] in values;
    assert ',' in values[k];
  }

  /** A legal configuration that does not survive: a value in a list contains a comma. */
  lemma CommasInListsDoNotSurvive()
    ensures var c := [Section("s", "", None, [Item("i", "", ["a,b", "c"])])];
            LegalConfig(c) && Parse(Lex(ConfigText(c))) != Some(Norm(c))
  {
    hide Lex, Parse, ConfigText, Norm, StorableConfig;
    var item := Item("i", "", ["a,b", "c"]);
    var c := [Section("s", "", None, [item])];
    CommaListed(item.values, 0, 1);
    UnstorableItem(c, 0, 0);
    SaveLoad(c);
  }

  /** The whole program path: write, scan, parse. */
  method SaveAndLoad(c: Config) returns (loaded: Option<Config>)
    ensures loaded == Some(Norm(c)) <==> StorableConfig(c)
  {
    var text := WriteConfig(c);
    var tokens := Tokenize(text);
    loaded := Parser.YyParse(tokens);
    SaveLoad(c);
  }
}
