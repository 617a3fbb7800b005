/**
 Parse trees and the left-to-right reading agree: reading the yield of any derivation gives
 the value of that derivation, and whatever reads successfully has a derivation.
 */
module Derivations {
  import opened ConfigModel
  import opened Grammar
  import opened Reader

  // ---------------------------------------------------------------- every derivation is read

  lemma {:induction false} ReadSectionComments(t: Tree, config: Config, rest: seq<Token>) returns (c: string)
    requires WellFormed(t) && Root(t) == SECTION_COMMENTS
    ensures Value(t) == Some(Text(c))
    ensures Read(InComments(config, ""), Yield(t) + rest) == Read(InComments(config, c), rest)
    decreases t
  {
    var Node(rule, kids) := t;
    if rule == 16 {
      c := "";
      assert Yield(t) + rest == rest;
    } else {
      var a, b := kids[0], kids[1];
      assert kids == [a, b];
      LeafOf(b, 5);
      var c0 := ReadSectionComments(a, config, [b.token] + rest);
      YieldTwo(a, b);
      ValuesTwo(a, b, Text(c0), TokenValue(b.token));
      c := Join(c0, b.token.text);
      assert Yield(t) + rest == Yield(a) + ([b.token] + rest);
      ReadCons(InComments(config, c0), b.token, rest);
    }
  }

  lemma {:induction false} ReadItemComments(t: Tree, o: Open, rest: seq<Token>) returns (c: string)
    requires WellFormed(t) && Root(t) == ITEM_COMMENTS
    ensures Value(t) == Some(Text(c))
    ensures Read(InItemComments(o, ""), Yield(t) + rest) == Read(InItemComments(o, c), rest)
    ensures Yield(t) == [] || Yield(t)[0].ItemComment?
    decreases t
  {
    var Node(rule, kids) := t;
    if rule == 18 {
      c := "";
      assert Yield(t) + rest == rest;
    } else {
      var a, b := kids[0], kids[1];
      assert kids == [a, b];
      LeafOf(b, 4);
      var c0 := ReadItemComments(a, o, [b.token] + rest);
      YieldTwo(a, b);
      ValuesTwo(a, b, Text(c0), TokenValue(b.token));
      c := Join(c0, b.token.text);
      assert Yield(t) + rest == Yield(a) + ([b.token] + rest);
      ReadCons(InItemComments(o, c0), b.token, rest);
    }
  }

  lemma AssocTwo(a: seq<Token>, b: seq<Token>, rest: seq<Token>)
    ensures (a + b) + rest == a + (b + rest)
  {
  }

  lemma AssocThree(a: seq<Token>, b: seq<Token>, c: seq<Token>, rest: seq<Token>)
    ensures (a + (b + c)) + rest == a + (b + (c + rest))
  {
    AssocTwo(a, b + c, rest);
    AssocTwo(b, c, rest);
  }

  lemma AssocFour(a: seq<Token>, b: seq<Token>, c: seq<Token>, d: seq<Token>, rest: seq<Token>)
    ensures (a + (b + (c + d))) + rest == a + (b + (c + (d + rest)))
  {
    AssocTwo(a, b + (c + d), rest);
    AssocThree(b, c, d, rest);
  }

  lemma {:induction false} ListTailNode(t: Tree) returns (a: Tree, value: string)
    requires WellFormed(t) && t.Node? && t.rule == 15
    ensures WellFormed(a) && Root(a) == VALUES_LIST && a in t.kids
    ensures Yield(t) == Yield(a) + ([Comma] + [Str(value)])
    ensures Value(a).Some? && Value(a).value.AnItem? ==>
              Value(t) == Some(AnItem(Value(a).value.item.(values := Value(a).value.item.values + [value])))
  {
    a := t.kids[0];
    var comma, b := t.kids[1], t.kids[2];
    assert t.kids == [a, comma, b];
    LeafOf(comma, 16);
    LeafOf(b, 3);
    value := b.token.text;
    YieldThree(a, comma, b);
    if Value(a).Some? && Value(a).value.AnItem? {
      ValuesThree(a, comma, b, Value(a).value, TokenValue(comma.token), TokenValue(b.token));
    }
  }

  lemma {:induction false} NoTailNode(t: Tree)
    requires WellFormed(t) && t.Node? && t.rule == 14
    ensures Yield(t) == [] && Value(t) == Some(AnItem(Item("", "", [])))
  {
  }

  lemma {:induction false} ReadValuesList(t: Tree, o: Open, c: string, name: string, first: string, rest: seq<Token>)
    returns (vs: seq<string>)
    requires WellFormed(t) && Root(t) == VALUES_LIST
    ensures Value(t) == Some(AnItem(Item("", "", vs)))
    ensures Read(InList(o, c, name, [first]), Yield(t) + rest) == Read(InList(o, c, name, [first] + vs), rest)
    decreases t
  {
    hide Read, Value, Yield;
    if t.rule == 14 {
      vs := [];
      NoTailNode(t);
      assert [] + rest == rest && [first] + vs == [first];
    } else {
      var a, value := ListTailNode(t);
      AssocThree(Yield(a), [Comma], [Str(value)], rest);
      var vs0 := ReadValuesList(a, o, c, name, first, [Comma] + ([Str(value)] + rest));
      vs := vs0 + [value];
      ReadCons(InList(o, c, name, [first] + vs0), Comma, [Str(value)] + rest);
      ReadCons(AfterComma(o, c, name, [first] + vs0), Str(value), rest);
      assert [first] + vs0 + [value] == [first] + vs;
    }
  }

  lemma {:induction false} ReadValue(t: Tree, o: Open, c: string, name: string, rest: seq<Token>) returns (vs: seq<string>)
    requires WellFormed(t) && Root(t) == VALUE
    ensures Value(t) == Some(AnItem(Item("", "", vs)))
    ensures Read(AtValue(o, c, name), Yield(t) + rest) == Read(InItems(o.Add(Item(name, c, vs))), rest)
  {
    var Node(rule, kids) := t;
    if rule == 11 {
      var a := kids[0];
      assert kids == [a];
      LeafOf(a, 3);
      YieldOne(a);
      ValuesOne(a, TokenValue(a.token));
      vs := [a.token.text];
      ReadCons(AtValue(o, c, name), a.token, rest);
    } else if rule == 12 {
      var a, b := kids[0], kids[1];
      assert kids == [a, b];
      LeafOf(a, 9);
      LeafOf(b, 10);
      YieldTwo(a, b);
      ValuesTwo(a, b, TokenValue(a.token), TokenValue(b.token));
      vs := [];
      assert Yield(t) + rest == [a.token] + ([b.token] + rest);
      ReadCons(AtValue(o, c, name), a.token, [b.token] + rest);
      ReadCons(AtList(o, c, name), b.token, rest);
    } else {
      vs := ReadListValue(t, o, c, name, rest);
    }
  }

  lemma {:induction false} ListNode(t: Tree) returns (first: string, l: Tree)
    requires WellFormed(t) && t.Node? && t.rule == 13
    ensures WellFormed(l) && Root(l) == VALUES_LIST
    ensures Yield(t) == [ListBegin] + ([Str(first)] + (Yield(l) + [ListEnd]))
    ensures Value(l).Some? && Value(l).value.AnItem? ==>
              Value(t) == Some(AnItem(Value(l).value.item.(values := [first] + Value(l).value.item.values)))
  {
    l := t.kids[2];
    var a, f, b := t.kids[0], t.kids[1], t.kids[3];
    assert t.kids == [a, f, l, b];
    LeafOf(a, 9);
    LeafOf(f, 3);
    LeafOf(b, 10);
    first := f.token.text;
    YieldFour(a, f, l, b);
    if Value(l).Some? && Value(l).value.AnItem? {
      ValuesFour(a, f, l, b, TokenValue(a.token), TokenValue(f.token), Value(l).value, TokenValue(b.token));
    }
  }

  lemma {:induction false} ReadListValue(t: Tree, o: Open, c: string, name: string, rest: seq<Token>) returns (vs: seq<string>)
    requires WellFormed(t) && t.Node? && t.rule == 13
    ensures Value(t) == Some(AnItem(Item("", "", vs)))
    ensures Read(AtValue(o, c, name), Yield(t) + rest) == Read(InItems(o.Add(Item(name, c, vs))), rest)
  {
    hide Read, Value, Yield;
    var first, l := ListNode(t);
    AssocFour([ListBegin], [Str(first)], Yield(l), [ListEnd], rest);
    var vs0 := ReadValuesList(l, o, c, name, first, [ListEnd] + rest);
    vs := [first] + vs0;
    var tail := Yield(l) + ([ListEnd] + rest);
    ReadCons(AtValue(o, c, name), ListBegin, [Str(first)] + tail);
    ReadCons(AtList(o, c, name), Str(first), tail);
    ReadCons(InList(o, c, name, vs), ListEnd, rest);
  }

  lemma ItemStart(o: Open, ts: seq<Token>)
    requires ts != [] && (ts[0].Str? || ts[0].ItemComment?)
    ensures Read(InItems(o), ts) == Read(InItemComments(o, ""), ts)
  {
  }

  lemma {:induction false} ItemNode(t: Tree) returns (a: Tree, name: string, v: Tree)
    requires WellFormed(t) && Root(t) == ITEM
    ensures WellFormed(a) && Root(a) == ITEM_COMMENTS && WellFormed(v) && Root(v) == VALUE
    ensures Yield(t) == Yield(a) + ([Str(name)] + ([Equals] + Yield(v)))
    ensures Value(a).Some? && Value(v).Some? && Value(a).value.Text? && Value(v).value.AnItem? ==>
              Value(t) == Some(AnItem(Item(name, Value(a).value.s, Value(v).value.item.values)))
  {
    var n, e := t.kids[1], t.kids[2];
    a, v := t.kids[0], t.kids[3];
    assert t.kids == [a, n, e, v];
    LeafOf(n, 3);
    LeafOf(e, 15);
    name := n.token.text;
    YieldFour(a, n, e, v);
    if Value(a).Some? && Value(v).Some? && Value(a).value.Text? && Value(v).value.AnItem? {
      ValuesFour(a, n, e, v, Value(a).value, TokenValue(n.token), TokenValue(e.token), Value(v).value);
    }
  }

  lemma {:induction false} ReadItem(t: Tree, o: Open, rest: seq<Token>) returns (item: Item)
    requires WellFormed(t) && Root(t) == ITEM
    ensures Value(t) == Some(AnItem(item))
    ensures Read(InItems(o), Yield(t) + rest) == Read(InItems(o.Add(item)), rest)
  {
    hide Read, WellFormed;
    var a, name, v := ItemNode(t);
    AssocFour(Yield(a), [Str(name)], [Equals], Yield(v), rest);
    var tail := Yield(v) + rest;
    var ts := [Str(name)] + ([Equals] + tail);
    var c := ReadItemComments(a, o, ts);
    var vs := ReadValue(v, o, c, name, rest);
    item := Item(name, c, vs);
    assert (Yield(a) + ts)[0] == if Yield(a) == [] then Str(name) else Yield(a)[0];
    ItemStart(o, Yield(a) + ts);
    ReadCons(InItemComments(o, c), Str(name), [Equals] + tail);
    ReadCons(AfterItemName(o, c, name), Equals, tail);
  }

  lemma {:induction false} ReadItems(t: Tree, o: Open, rest: seq<Token>) returns (items: seq<Item>)
    requires WellFormed(t) && Root(t) == ITEMS && o.items == []
    ensures Value(t) == Some(ASection(Section("", "", None, items)))
    ensures Read(InItems(o), Yield(t) + rest) == Read(InItems(o.(items := items)), rest)
    decreases t
  {
    if t.rule == 8 {
      items := [];
      assert Yield(t) + rest == rest;
    } else {
      var a, b := t.kids[0], t.kids[1];
      assert t.kids == [a, b];
      var items0 := ReadItems(a, o, Yield(b) + rest);
      var item := ReadItem(b, o.(items := items0), rest);
      YieldTwo(a, b);
      AssocTwo(Yield(a), Yield(b), rest);
      ValuesTwo(a, b, ASection(Section("", "", None, items0)), AnItem(item));
      items := items0 + [item];
    }
  }

  lemma {:induction false} DateParts(t: Tree) returns (d: string)
    requires WellFormed(t) && t.Node? && t.rule == 7
    ensures Value(t) == Some(Text(d)) && Yield(t) == [DateBegin] + ([SectionDate(d)] + [DateEnd])
  {
    var a, b, c := t.kids[0], t.kids[1], t.kids[2];
    assert t.kids == [a, b, c];
    LeafOf(a, 13);
    LeafOf(b, 6);
    LeafOf(c, 14);
    YieldThree(a, b, c);
    ValuesThree(a, b, c, TokenValue(a.token), TokenValue(b.token), TokenValue(c.token));
    d := b.token.text;
  }

  lemma {:induction false} ReadDate(t: Tree, config: Config, comment: string, name: string, rest: seq<Token>) returns (d: string)
    requires WellFormed(t) && Root(t) == SECTION_DATE
    requires rest == [] || !rest[0].DateBegin?
    ensures Value(t) == Some(Text(d))
    ensures Read(AfterHeader(config, comment, name), Yield(t) + rest)
         == Read(InItems(Open(config, comment, name, d, [])), rest)
  {
    if t.rule == 6 {
      d := "";
      assert Yield(t) + rest == rest;
    } else {
      hide Read, Value, Yield, WellFormed;
      d := DateParts(t);
      AssocThree([DateBegin], [SectionDate(d)], [DateEnd], rest);
      ReadCons(AfterHeader(config, comment, name), DateBegin, [SectionDate(d)] + ([DateEnd] + rest));
      ReadCons(AtDate(config, comment, name), SectionDate(d), [DateEnd] + rest);
      ReadCons(AfterDate(config, comment, name, d), DateEnd, rest);
    }
  }

  lemma {:induction false} SectionNode(t: Tree) returns (a: Tree, name: string, d: Tree, i: Tree)
    requires WellFormed(t) && Root(t) == SECTION
    ensures WellFormed(a) && Root(a) == SECTION_COMMENTS
    ensures WellFormed(d) && Root(d) == SECTION_DATE
    ensures WellFormed(i) && Root(i) == ITEMS
    ensures Yield(t) == Yield(a) + ([SectionBegin] + ([Str(name)] + ([SectionEnd] + (Yield(d) + Yield(i)))))
    ensures Value(a).Some? && Value(d).Some? && Value(i).Some?
            && Value(a).value.Text? && Value(d).value.Text? && Value(i).value.ASection? ==>
              Value(t) == match Complete(Value(i).value.section.items, name, Value(a).value.s, Value(d).value.s) {
                case Some(section) => Some(ASection(section))
                case None => None
              }
  {
    var b, n, e := t.kids[1], t.kids[2], t.kids[3];
    a, d, i := t.kids[0], t.kids[4], t.kids[5];
    assert t.kids == [a, b, n, e, d, i];
    LeafOf(b, 7);
    LeafOf(n, 3);
    LeafOf(e, 8);
    name := n.token.text;
    YieldSix(a, b, n, e, d, i);
    if Value(a).Some? && Value(d).Some? && Value(i).Some? {
      ValuesSix(a, b, n, e, d, i, Value(a).value, TokenValue(b.token), TokenValue(n.token),
                TokenValue(e.token), Value(d).value, Value(i).value);
    }
  }

  /** What may follow a section: the end of the text or another section. */
  predicate SectionFollows(ts: seq<Token>) {
    ts == [] || ts[0].SectionComment? || ts[0].SectionBegin?
  }

  lemma SectionEnds(o: Open, rest: seq<Token>)
    requires SectionFollows(rest)
    ensures Read(InItems(o), rest) == match Close(o) { case Some(config) => Read(Between(config), rest) case None => None }
  {
  }

  lemma {:induction false} ReadSection(t: Tree, config: Config, rest: seq<Token>)
    requires WellFormed(t) && Root(t) == SECTION && SectionFollows(rest)
    ensures Yield(t) != [] && SectionFollows(Yield(t))
    ensures Value(t).Some? ==>
              && Value(t).value.ASection?
              && Read(Between(config), Yield(t) + rest) == Read(Between(config + [Value(t).value.section]), rest)
    ensures Value(t).None? ==> Read(Between(config), Yield(t) + rest) == None
  {
    var a, name, d, i := SectionNode(t);
    var items2 := Yield(i) + rest;
    var body := Yield(d) + items2;
    var header := [SectionBegin] + ([Str(name)] + ([SectionEnd] + body));
    AssocThree([SectionEnd], Yield(d), Yield(i), rest);
    AssocFour(Yield(a), [SectionBegin], [Str(name)], [SectionEnd] + (Yield(d) + Yield(i)), rest);
    var c := ReadSectionComments(a, config, header);
    FirstOfItems(i, rest);
    var date := ReadDate(d, config, c, name, items2);
    var o := Open(config, c, name, date, []);
    var items := ReadItems(i, o, rest);
    SectionStart(a, config, header);
    ReadHeader(config, c, name, body);
    SectionEnds(o.(items := items), rest);
  }

  lemma ReadHeader(config: Config, c: string, name: string, body: seq<Token>)
    ensures Read(InComments(config, c), [SectionBegin] + ([Str(name)] + ([SectionEnd] + body)))
         == Read(AfterHeader(config, c, name), body)
  {
    ReadCons(InComments(config, c), SectionBegin, [Str(name)] + ([SectionEnd] + body));
    ReadCons(AtName(config, c), Str(name), [SectionEnd] + body);
    ReadCons(AfterName(config, c, name), SectionEnd, body);
  }

  lemma {:induction false} SectionStart(a: Tree, config: Config, tail: seq<Token>)
    requires WellFormed(a) && Root(a) == SECTION_COMMENTS && tail != [] && tail[0].SectionBegin?
    ensures SectionFollows(Yield(a) + tail)
    ensures Read(Between(config), Yield(a) + tail) == Read(InComments(config, ""), Yield(a) + tail)
  {
    FirstOfComments(a);
  }

  lemma {:induction false} FirstOfComments(a: Tree)
    requires WellFormed(a) && Root(a) == SECTION_COMMENTS
    ensures Yield(a) == [] || Yield(a)[0].SectionComment?
    decreases a
  {
    if a.rule == 17 {
      FirstOfComments(a.kids[0]);
      assert a.kids == [a.kids[0], a.kids[1]];
      LeafOf(a.kids[1], 5);
      YieldTwo(a.kids[0], a.kids[1]);
    }
  }

  lemma {:induction false} FirstOfItems(i: Tree, rest: seq<Token>)
    requires WellFormed(i) && Root(i) == ITEMS && SectionFollows(rest)
    ensures Yield(i) == [] || !Yield(i)[0].DateBegin?
    ensures var ts := Yield(i) + rest; ts == [] || !ts[0].DateBegin?
    decreases i
  {
    if i.rule == 9 {
      var a, b := i.kids[0], i.kids[1];
      assert i.kids == [a, b];
      FirstOfItems(a, rest);
      YieldTwo(a, b);
      var c, name, v := ItemNode(b);
      var _ := ReadItemComments(c, Open([], "", "", "", []), []);
    }
  }

  lemma {:induction false} ReadSections(t: Tree, rest: seq<Token>)
    requires WellFormed(t) && Root(t) == SECTIONS && SectionFollows(rest)
    ensures Value(t).Some? ==> Value(t).value.AConfig?
                               && Read(Between([]), Yield(t) + rest) == Read(Between(Value(t).value.config), rest)
    ensures Value(t).None? ==> Read(Between([]), Yield(t) + rest) == None
    decreases t
  {
    if t.rule == 3 {
      assert Yield(t) + rest == rest;
    } else {
      var a, b := t.kids[0], t.kids[1];
      assert t.kids == [a, b];
      YieldTwo(a, b);
      AssocTwo(Yield(a), Yield(b), rest);
      ReadSection(b, [], rest);
      assert (Yield(b) + rest)[0] == Yield(b)[0];
      ReadSections(a, Yield(b) + rest);
      if Value(a).Some? {
        ReadSection(b, Value(a).value.config, rest);
        if Value(b).Some? {
          ValuesTwo(a, b, Value(a).value, Value(b).value);
        } else {
          ValuesNone(a, b);
        }
      } else {
        ValuesNone(a, b);
      }
    }
  }

  lemma {:induction false} ValuesNone(a: Tree, b: Tree)
    requires Value(a).None? || Value(b).None?
    ensures Values([a, b]) == None
  {
    assert [a, b][1..] == [b] && [b][0] == b;
  }

  /** Reading the yield of a derivation gives the value of that derivation; in particular two
      derivations of the same tokens have the same value. */
  lemma {:induction false} DerivationIsRead(t: Tree, tokens: seq<Token>)
    requires Derives(t, tokens)
    ensures Parse(tokens) == match Value(t) { case Some(v) => if v.AConfig? then Some(v.config) else None case None => None }
    ensures Value(t).Some? ==> Value(t).value.AConfig?
  {
    var a := t.kids[0];
    assert t.kids == [a];
    YieldOne(a);
    ReadSections(a, []);
    assert tokens == Yield(a) == Yield(a) + [];
    if Value(a).Some? {
      ValuesOne(a, Value(a).value);
    } else {
      assert [a][0] == a;
    }
  }

  // ---------------------------------------------------------------- whatever is read is derived

  predicate Shows(t: Tree, root: nat, v: Val) {
    WellFormed(t) && Root(t) == root && Value(t) == Some(v)
  }

  /** The subtrees a partial reading has completed. */
  datatype Evidence = Evidence(sections: Tree, comments: Tree, date: Tree, items: Tree, itemComments: Tree, list: Tree) {
    function Before(): seq<Token> {
      Yield(sections) + Yield(comments)
    }

    function Header(name: string): seq<Token> {
      Before() + [SectionBegin, Str(name), SectionEnd]
    }

    function Body(name: string): seq<Token> {
      Header(name) + Yield(date) + Yield(items)
    }

    function ItemHead(name: string, itemName: string): seq<Token> {
      Body(name) + Yield(itemComments) + [Str(itemName), Equals]
    }

    predicate ShowsComments(config: Config, comment: string) {
      Shows(sections, SECTIONS, AConfig(config)) && Shows(comments, SECTION_COMMENTS, Text(comment))
    }

    predicate ShowsOpen(o: Open) {
      && ShowsComments(o.config, o.comment)
      && Shows(date, SECTION_DATE, Text(o.date))
      && Shows(items, ITEMS, ASection(Section("", "", None, o.items)))
    }

    predicate ShowsItem(o: Open, c: string) {
      ShowsOpen(o) && Shows(itemComments, ITEM_COMMENTS, Text(c))
    }

    predicate ShowsList(o: Open, c: string, values: seq<string>) {
      && ShowsItem(o, c)
      && values != []
      && Shows(list, VALUES_LIST, AnItem(Item("", "", values[1..])))
    }
  }

  /** e accounts for all the tokens consumed to get to p. */
  predicate Explains(e: Evidence, p: Progress, ts: seq<Token>) {
    match p
    case Between(config) => Shows(e.sections, SECTIONS, AConfig(config)) && ts == Yield(e.sections)
    case InComments(config, c) => e.ShowsComments(config, c) && ts == e.Before()
    case AtName(config, c) => e.ShowsComments(config, c) && ts == e.Before() + [SectionBegin]
    case AfterName(config, c, name) =>
      e.ShowsComments(config, c) && ts == e.Before() + [SectionBegin, Str(name)]
    case AfterHeader(config, c, name) => e.ShowsComments(config, c) && ts == e.Header(name)
    case AtDate(config, c, name) => e.ShowsComments(config, c) && ts == e.Header(name) + [DateBegin]
    case AfterDate(config, c, name, date) =>
      e.ShowsComments(config, c) && ts == e.Header(name) + [DateBegin, SectionDate(date)]
    case InItems(o) => e.ShowsOpen(o) && ts == e.Body(o.name)
    case InItemComments(o, c) => e.ShowsItem(o, c) && ts == e.Body(o.name) + Yield(e.itemComments)
    case AfterItemName(o, c, n) =>
      e.ShowsItem(o, c) && ts == e.Body(o.name) + Yield(e.itemComments) + [Str(n)]
    case AtValue(o, c, n) => e.ShowsItem(o, c) && ts == e.ItemHead(o.name, n)
    case AtList(o, c, n) => e.ShowsItem(o, c) && ts == e.ItemHead(o.name, n) + [ListBegin]
    case InList(o, c, n, vs) =>
      e.ShowsList(o, c, vs) && ts == e.ItemHead(o.name, n) + [ListBegin, Str(vs[0])] + Yield(e.list)
    case AfterComma(o, c, n, vs) =>
      e.ShowsList(o, c, vs) && ts == e.ItemHead(o.name, n) + [ListBegin, Str(vs[0])] + Yield(e.list) + [Comma]
    case Done(_) => false
  }

  lemma {:induction false} CommentsNode(a: Tree, c: string, line: string) returns (t: Tree)
    requires Shows(a, SECTION_COMMENTS, Text(c))
    ensures Shows(t, SECTION_COMMENTS, Text(Join(c, line))) && Yield(t) == Yield(a) + [SectionComment(line)]
  {
    var b := Leaf(SectionComment(line));
    t := Node(17, [a, b]);
    YieldTwo(a, b);
    ValuesTwo(a, b, Text(c), Text(line));
  }

  lemma {:induction false} ItemCommentsNode(a: Tree, c: string, line: string) returns (t: Tree)
    requires Shows(a, ITEM_COMMENTS, Text(c))
    ensures Shows(t, ITEM_COMMENTS, Text(Join(c, line))) && Yield(t) == Yield(a) + [ItemComment(line)]
  {
    var b := Leaf(ItemComment(line));
    t := Node(19, [a, b]);
    YieldTwo(a, b);
    ValuesTwo(a, b, Text(c), Text(line));
  }

  lemma {:induction false} GrowListNode(a: Tree, vs: seq<string>, v: string) returns (t: Tree)
    requires Shows(a, VALUES_LIST, AnItem(Item("", "", vs)))
    ensures Shows(t, VALUES_LIST, AnItem(Item("", "", vs + [v]))) && Yield(t) == Yield(a) + [Comma, Str(v)]
  {
    var comma, b := Leaf(Comma), Leaf(Str(v));
    t := Node(15, [a, comma, b]);
    YieldThree(a, comma, b);
    ValuesThree(a, comma, b, AnItem(Item("", "", vs)), Nothing, Text(v));
  }

  lemma {:induction false} DateNode(d: string) returns (t: Tree)
    ensures Shows(t, SECTION_DATE, Text(d)) && Yield(t) == [DateBegin, SectionDate(d), DateEnd]
  {
    var a, b, c := Leaf(DateBegin), Leaf(SectionDate(d)), Leaf(DateEnd);
    t := Node(7, [a, b, c]);
    YieldThree(a, b, c);
    ValuesThree(a, b, c, Nothing, Text(d), Nothing);
  }

  lemma {:induction false} SingleValueNode(v: string) returns (t: Tree)
    ensures Shows(t, VALUE, AnItem(Item("", "", [v]))) && Yield(t) == [Str(v)]
  {
    var a := Leaf(Str(v));
    t := Node(11, [a]);
    YieldOne(a);
    ValuesOne(a, Text(v));
  }

  lemma {:induction false} EmptyListNode() returns (t: Tree)
    ensures Shows(t, VALUE, AnItem(Item("", "", []))) && Yield(t) == [ListBegin, ListEnd]
  {
    var a, b := Leaf(ListBegin), Leaf(ListEnd);
    t := Node(12, [a, b]);
    YieldTwo(a, b);
    ValuesTwo(a, b, Nothing, Nothing);
  }

  lemma {:induction false} ListValueNode(l: Tree, first: string, vs: seq<string>) returns (t: Tree)
    requires Shows(l, VALUES_LIST, AnItem(Item("", "", vs)))
    ensures Shows(t, VALUE, AnItem(Item("", "", [first] + vs)))
    ensures Yield(t) == [ListBegin, Str(first)] + Yield(l) + [ListEnd]
  {
    var a, f, b := Leaf(ListBegin), Leaf(Str(first)), Leaf(ListEnd);
    t := Node(13, [a, f, l, b]);
    YieldFour(a, f, l, b);
    ValuesFour(a, f, l, b, Nothing, Text(first), AnItem(Item("", "", vs)), Nothing);
  }

  lemma {:induction false} MakeItemNode(c: Tree, comment: string, name: string, v: Tree, vs: seq<string>) returns (t: Tree)
    requires Shows(c, ITEM_COMMENTS, Text(comment)) && Shows(v, VALUE, AnItem(Item("", "", vs)))
    ensures Shows(t, ITEM, AnItem(Item(name, comment, vs)))
    ensures Yield(t) == Yield(c) + [Str(name), Equals] + Yield(v)
  {
    var n, q := Leaf(Str(name)), Leaf(Equals);
    t := Node(10, [c, n, q, v]);
    YieldFour(c, n, q, v);
    ValuesFour(c, n, q, v, Text(comment), Text(name), Nothing, AnItem(Item("", "", vs)));
  }

  lemma {:induction false} GrowItemsNode(a: Tree, items: seq<Item>, b: Tree, item: Item) returns (t: Tree)
    requires Shows(a, ITEMS, ASection(Section("", "", None, items))) && Shows(b, ITEM, AnItem(item))
    ensures Shows(t, ITEMS, ASection(Section("", "", None, items + [item]))) && Yield(t) == Yield(a) + Yield(b)
  {
    t := Node(9, [a, b]);
    YieldTwo(a, b);
    ValuesTwo(a, b, ASection(Section("", "", None, items)), AnItem(item));
  }

  lemma {:induction false} MakeSectionNode(e: Evidence, o: Open, section: Section) returns (t: Tree)
    requires e.ShowsOpen(o) && Complete(o.items, o.name, o.comment, o.date) == Some(section)
    ensures Shows(t, SECTION, ASection(section))
    ensures Yield(t) == Yield(e.comments) + ([SectionBegin] + ([Str(o.name)] + ([SectionEnd] + (Yield(e.date) + Yield(e.items)))))
  {
    hide Complete, YieldAll, Values;
    var b, n, q := Leaf(SectionBegin), Leaf(Str(o.name)), Leaf(SectionEnd);
    t := Node(5, [e.comments, b, n, q, e.date, e.items]);
    YieldSix(e.comments, b, n, q, e.date, e.items);
    ValuesSix(e.comments, b, n, q, e.date, e.items, Text(o.comment), Nothing, Text(o.name), Nothing,
              Text(o.date), ASection(Section("", "", None, o.items)));
    assert WellFormed(t);
    assert Root(t) == SECTION;
    assert Value(t) == Some(ASection(section));
  }

  lemma {:induction false} GrowSectionsNode(a: Tree, config: Config, b: Tree, section: Section) returns (t: Tree)
    requires Shows(a, SECTIONS, AConfig(config)) && Shows(b, SECTION, ASection(section))
    ensures Shows(t, SECTIONS, AConfig(config + [section])) && Yield(t) == Yield(a) + Yield(b)
  {
    t := Node(4, [a, b]);
    YieldTwo(a, b);
    ValuesTwo(a, b, AConfig(config), ASection(section));
  }

  lemma {:induction false} StartComments(e: Evidence, config: Config, ts: seq<Token>) returns (e': Evidence)
    requires Explains(e, Between(config), ts)
    ensures Explains(e', InComments(config, ""), ts)
  {
    e' := e.(comments := Node(16, []));
  }

  lemma {:induction false} OpenItems(e: Evidence, config: Config, c: string, name: string, ts: seq<Token>) returns (e': Evidence)
    requires Explains(e, AfterHeader(config, c, name), ts)
    ensures Explains(e', InItems(Open(config, c, name, "", [])), ts)
  {
    e' := e.(date := Node(6, []), items := Node(8, []));
  }

  lemma {:induction false} StartItem(e: Evidence, o: Open, ts: seq<Token>) returns (e': Evidence)
    requires Explains(e, InItems(o), ts)
    ensures Explains(e', InItemComments(o, ""), ts)
  {
    e' := e.(itemComments := Node(18, []));
  }

  lemma {:induction false} CloseOpen(e: Evidence, o: Open, ts: seq<Token>, config: Config) returns (e': Evidence)
    requires Explains(e, InItems(o), ts) && Close(o) == Some(config)
    ensures Explains(e', Between(config), ts)
  {
    var section := Complete(o.items, o.name, o.comment, o.date).value;
    var b := MakeSectionNode(e, o, section);
    var a := GrowSectionsNode(e.sections, o.config, b, section);
    e' := e.(sections := a);
    BodyYield(Yield(e.sections), Yield(e.comments), o.name, Yield(e.date), Yield(e.items));
  }

  lemma BodyYield(s: seq<Token>, c: seq<Token>, name: string, d: seq<Token>, i: seq<Token>)
    ensures s + (c + ([SectionBegin] + ([Str(name)] + ([SectionEnd] + (d + i)))))
         == s + c + [SectionBegin, Str(name), SectionEnd] + d + i
  {
    var h := [SectionBegin, Str(name), SectionEnd];
    assert [SectionBegin] + ([Str(name)] + ([SectionEnd] + (d + i))) == h + (d + i);
    assert s + (c + (h + (d + i))) == s + c + h + d + i;
  }

  lemma {:induction false} AddItem(e: Evidence, o: Open, c: string, name: string, v: Tree, vs: seq<string>, ts: seq<Token>) returns (e': Evidence)
    requires e.ShowsItem(o, c) && Shows(v, VALUE, AnItem(Item("", "", vs)))
    requires ts == e.ItemHead(o.name, name) + Yield(v)
    ensures Explains(e', InItems(o.Add(Item(name, c, vs))), ts)
  {
    var b := MakeItemNode(e.itemComments, c, name, v, vs);
    var a := GrowItemsNode(e.items, o.items, b, Item(name, c, vs));
    e' := e.(items := a);
    ItemYield(e.Header(o.name) + Yield(e.date), Yield(e.items), Yield(e.itemComments), [Str(name), Equals], Yield(v));
  }

  lemma ItemYield(h: seq<Token>, i: seq<Token>, c: seq<Token>, eq: seq<Token>, v: seq<Token>)
    ensures h + (i + (c + eq + v)) == h + i + c + eq + v
  {
  }

  lemma {:induction false} ExplainComments(e: Evidence, config: Config, c: string, ts: seq<Token>, t: Token) returns (e': Evidence)
    requires Explains(e, InComments(config, c), ts) && AdvanceComments(config, c, t).Some?
    ensures Explains(e', AdvanceComments(config, c, t).value, ts + [t])
  {
    e' := e;
    if t.SectionComment? {
      var a := CommentsNode(e.comments, c, t.text);
      e' := e.(comments := a);
    }
  }

  lemma {:induction false} ExplainItemComments(e: Evidence, o: Open, c: string, ts: seq<Token>, t: Token) returns (e': Evidence)
    requires Explains(e, InItemComments(o, c), ts) && AdvanceItemComments(o, c, t).Some?
    ensures Explains(e', AdvanceItemComments(o, c, t).value, ts + [t])
  {
    e' := e;
    if t.ItemComment? {
      var a := ItemCommentsNode(e.itemComments, c, t.text);
      e' := e.(itemComments := a);
    }
  }

  lemma {:induction false} ExplainItems(e: Evidence, o: Open, ts: seq<Token>, t: Token) returns (e': Evidence)
    requires Explains(e, InItems(o), ts) && AdvanceItems(o, t).Some?
    ensures Explains(e', AdvanceItems(o, t).value, ts + [t])
  {
    if t.Str? || t.ItemComment? {
      var e1 := StartItem(e, o, ts);
      e' := ExplainItemComments(e1, o, "", ts, t);
    } else {
      var config := Close(o).value;
      var e1 := CloseOpen(e, o, ts, config);
      var e2 := StartComments(e1, config, ts);
      e' := ExplainComments(e2, config, "", ts, t);
    }
  }

  lemma {:induction false} ExplainHeader(e: Evidence, p: Progress, ts: seq<Token>, t: Token) returns (e': Evidence)
    requires p.AtName? || p.AfterName? || p.AfterHeader? || p.AtDate? || p.AfterDate?
    requires Explains(e, p, ts) && Advance(p, t).Some?
    ensures Explains(e', Advance(p, t).value, ts + [t])
  {
    e' := e;
    if p.AfterHeader? && !t.DateBegin? {
      var e1 := OpenItems(e, p.config, p.comment, p.name, ts);
      e' := ExplainItems(e1, Open(p.config, p.comment, p.name, "", []), ts, t);
    } else if p.AfterDate? {
      var d := DateNode(p.date);
      e' := e.(date := d, items := Node(8, []));
      assert ts + [t] == e.Header(p.name) + [DateBegin, SectionDate(p.date), DateEnd] + [];
    }
  }

  lemma NoMoreValues()
    ensures Shows(Node(14, []), VALUES_LIST, AnItem(Item("", "", [])))
  {
  }

  lemma {:induction false} ExplainValue(e: Evidence, p: Progress, ts: seq<Token>, t: Token) returns (e': Evidence)
    requires p.AfterItemName? || p.AtValue? || p.AtList?
    requires Explains(e, p, ts) && Advance(p, t).Some?
    ensures Explains(e', Advance(p, t).value, ts + [t])
  {
    hide Shows, Value;
    e' := e;
    if p.AfterItemName? {
      assert ts + [t] == e.ItemHead(p.open.name, p.itemName);
    } else if p.AtValue? && t.Str? {
      var v := SingleValueNode(t.text);
      e' := AddItem(e, p.open, p.itemComment, p.itemName, v, [t.text], ts + [t]);
    } else if p.AtList? && t.ListEnd? {
      var v := EmptyListNode();
      assert ts + [t] == e.ItemHead(p.open.name, p.itemName) + [ListBegin, ListEnd];
      e' := AddItem(e, p.open, p.itemComment, p.itemName, v, [], ts + [t]);
    } else if p.AtList? {
      e' := e.(list := Node(14, []));
      NoMoreValues();
      assert [t.text][1..] == [];
      assert ts + [t] == e.ItemHead(p.open.name, p.itemName) + [ListBegin, t] + [];
    }
  }

  lemma {:induction false} ExplainComma(e: Evidence, p: Progress, ts: seq<Token>, v: string) returns (e': Evidence)
    requires p.AfterComma? && Explains(e, p, ts)
    ensures Explains(e', InList(p.open, p.itemComment, p.itemName, p.values + [v]), ts + [Str(v)])
  {
    var l := GrowListNode(e.list, p.values[1..], v);
    e' := e.(list := l);
    assert (p.values + [v])[1..] == p.values[1..] + [v];
    ListYield(e.ItemHead(p.open.name, p.itemName) + [ListBegin, Str(p.values[0])], Yield(e.list), v);
  }

  lemma ListYield(head: seq<Token>, l: seq<Token>, v: string)
    ensures head + (l + [Comma, Str(v)]) == head + l + [Comma] + [Str(v)]
  {
  }

  lemma {:induction false} ExplainListEnd(e: Evidence, p: Progress, ts: seq<Token>) returns (e': Evidence)
    requires p.InList? && Explains(e, p, ts)
    ensures Explains(e', InItems(p.open.Add(Item(p.itemName, p.itemComment, p.values))), ts + [ListEnd])
  {
    var v := ListValueNode(e.list, p.values[0], p.values[1..]);
    assert [p.values[0]] + p.values[1..] == p.values;
    ListValueYield(e.ItemHead(p.open.name, p.itemName), [ListBegin, Str(p.values[0])], Yield(e.list));
    e' := AddItem(e, p.open, p.itemComment, p.itemName, v, p.values, ts + [ListEnd]);
  }

  lemma ListValueYield(head: seq<Token>, start: seq<Token>, l: seq<Token>)
    ensures head + (start + l + [ListEnd]) == head + start + l + [ListEnd]
  {
  }

  lemma {:induction false} ExplainList(e: Evidence, p: Progress, ts: seq<Token>, t: Token) returns (e': Evidence)
    requires p.InList? || p.AfterComma?
    requires Explains(e, p, ts) && Advance(p, t).Some?
    ensures Explains(e', Advance(p, t).value, ts + [t])
  {
    if p.AfterComma? {
      e' := ExplainComma(e, p, ts, t.text);
    } else if t.ListEnd? {
      e' := ExplainListEnd(e, p, ts);
    } else {
      e' := e;
    }
  }

  lemma {:induction false} ExplainItemStep(e: Evidence, p: Progress, ts: seq<Token>, t: Token) returns (e': Evidence)
    requires p.InItemComments? || p.AfterItemName? || p.AtValue? || p.AtList? || p.InList? || p.AfterComma?
    requires Explains(e, p, ts) && Advance(p, t).Some?
    ensures Explains(e', Advance(p, t).value, ts + [t])
  {
    if p.InItemComments? {
      e' := ExplainItemComments(e, p.open, p.itemComment, ts, t);
    } else if p.InList? || p.AfterComma? {
      e' := ExplainList(e, p, ts, t);
    } else {
      e' := ExplainValue(e, p, ts, t);
    }
  }

  lemma {:induction false} ExplainStep(e: Evidence, p: Progress, ts: seq<Token>, t: Token) returns (e': Evidence)
    requires Explains(e, p, ts) && Advance(p, t).Some?
    ensures Explains(e', Advance(p, t).value, ts + [t])
  {
    if p.Between? {
      var e1 := StartComments(e, p.config, ts);
      e' := ExplainComments(e1, p.config, "", ts, t);
    } else if p.InComments? {
      e' := ExplainComments(e, p.config, p.comment, ts, t);
    } else if p.InItems? {
      e' := ExplainItems(e, p.open, ts, t);
    } else if p.AtName? || p.AfterName? || p.AfterHeader? || p.AtDate? || p.AfterDate? {
      e' := ExplainHeader(e, p, ts, t);
    } else {
      e' := ExplainItemStep(e, p, ts, t);
    }
  }

  lemma {:induction false} FinishIsDerived(e: Evidence, p: Progress, ts: seq<Token>, config: Config) returns (t: Tree)
    requires Explains(e, p, ts) && Finish(p) == Some(config)
    ensures Derives(t, ts) && Value(t) == Some(AConfig(config))
  {
    var e1 := e;
    if p.AfterHeader? {
      e1 := OpenItems(e, p.config, p.comment, p.name, ts);
      e1 := CloseOpen(e1, Open(p.config, p.comment, p.name, "", []), ts, config);
    } else if p.InItems? {
      e1 := CloseOpen(e, p.open, ts, config);
    }
    assert Explains(e1, Between(config), ts);
    t := Node(2, [e1.sections]);
    YieldOne(e1.sections);
    ValuesOne(e1.sections, AConfig(config));
  }

  lemma {:induction false} ReadIsDerived(e: Evidence, p: Progress, before: seq<Token>, ts: seq<Token>, config: Config) returns (t: Tree)
    requires Explains(e, p, before) && Read(p, ts) == Some(config)
    ensures Derives(t, before + ts) && Value(t) == Some(AConfig(config))
    decreases |ts|
  {
    hide Explains, Advance, Finish, Derives, Value;
    if ts == [] {
      t := FinishIsDerived(e, p, before, config);
      assert before + ts == before;
    } else {
      var e1 := ExplainStep(e, p, before, ts[0]);
      t := ReadIsDerived(e1, Advance(p, ts[0]).value, before + [ts[0]], ts[1..], config);
      assert before + [ts[0]] + ts[1..] == before + ts;
    }
  }

  /** The parse succeeds with a configuration exactly when the grammar derives the tokens by a
      tree whose value is that configuration. */
  lemma ParseIsDerivation(tokens: seq<Token>, config: Config)
    ensures Parse(tokens) == Some(config) <==> exists t :: Derives(t, tokens) && Value(t) == Some(AConfig(config))
  {
    if Parse(tokens) == Some(config) {
      var s := Node(3, []);
      var t := ReadIsDerived(Evidence(s, s, s, s, s, s), Between([]), [], tokens, config);
      assert [] + tokens == tokens;
    }
    forall t | Derives(t, tokens) && Value(t) == Some(AConfig(config))
      ensures Parse(tokens) == Some(config)
    {
      DerivationIsRead(t, tokens);
    }
  }
}
