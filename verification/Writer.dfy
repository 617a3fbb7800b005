/**
 The printer of configurations: the text each value is written as, and the write methods
 that produce it piece by piece.
 */
module Writer {
  import opened ConfigModel

  /** strchr finds a space, a tab or a quote. */
  predicate NeedsQuotes(s: string) {
    ' ' in s || '\t' in s || '"' in s
  }

  function Quoted(s: string): string {
    ['"'] + s + ['"']
  }

  /** Names are quoted only for blanks and quotes, even if empty or containing a comma. */
  function NameText(s: string): string {
    if NeedsQuotes(s) then Quoted(s) else s
  }

  /** A single value: a comma, too, forces quotes, and the empty value is written "". */
  function SingleText(s: string): string {
    if NeedsQuotes(s) || ',' in s || s == "" then Quoted(s) else s
  }

  /** A value in a list: a comma does not force quotes. */
  function ListedText(s: string): string {
    if s == "" || NeedsQuotes(s) then Quoted(s) else s
  }

  /** strchr: the first occurrence of c, or |s|. */
  function IndexOf(s: string, c: char): (i: nat)
    ensures i <= |s|
    ensures i < |s| ==> s[i] == c
    ensures forall j :: 0 <= j < i ==> s[j] != c
  {
    if s == [] || s[0] == c then 0 else 1 + IndexOf(s[1..], c)
  }

  /** One prefixed line per line of the comment. */
  function CommentLines(prefix: string, comment: string): string
    decreases |comment|
  {
    var i := IndexOf(comment, '\n');
    if i == |comment| then prefix + comment + "\n"
    else prefix + comment[..i] + "\n" + CommentLines(prefix, comment[i + 1..])
  }

  function CommentBlock(prefix: string, comment: string): string {
    if comment == "" then "" else CommentLines(prefix, comment)
  }

  function ListLines(values: seq<string>): string {
    if values == [] then ""
    else "\t\t" + ListedText(values[0]) + (if |values| > 1 then "," else "") + "\n" + ListLines(values[1..])
  }

  function ValuesText(values: seq<string>): string {
    if |values| == 0 then Quoted("") + "\n"
    else if |values| == 1 then SingleText(values[0]) + "\n"
    else "\n" + "\t{" + "\n" + ListLines(values) + "\t}" + "\n"
  }

  function ItemText(item: Item): string {
    CommentBlock("\t##", item.comment) + "\t" + NameText(item.name) + " = " + ValuesText(item.values)
  }

  function ItemsText(items: seq<Item>): string {
    if items == [] then "" else ItemText(items[0]) + "\n" + ItemsText(items[1..])
  }

  function DateText(date: Option<string>): string {
    if date.None? then "" else " (" + date.value + ")"
  }

  function SectionText(s: Section): string {
    CommentBlock("#", s.comment) + "[" + NameText(s.name) + "]" + DateText(s.date) + "\n" + ItemsText(s.items)
  }

  function ConfigText(c: Config): string {
    if c == [] then "" else SectionText(c[0]) + ConfigText(c[1..])
  }

  // ---------------------------------------------------------------- what the texts are

  lemma {:induction false} ItemsTextGrows(items: seq<Item>, item: Item)
    ensures ItemsText(items + [item]) == ItemsText(items) + ItemText(item) + "\n"
    decreases |items|
  {
    hide ItemText;
    if items == [] {
      assert items + [item] == [item] && [item][1..] == [];
      assert ItemText(item) + "\n" + "" == "" + ItemText(item) + "\n";
    } else {
      ItemsTextGrows(items[1..], item);
      assert (items + [item])[0] == items[0] && (items + [item])[1..] == items[1..] + [item];
      ExtendTwice(ItemText(items[0]) + "\n", ItemsText(items[1..]), ItemText(item), "\n");
    }
  }

  lemma ExtendTwice(a: string, b: string, c: string, d: string)
    ensures a + (b + c + d) == a + b + c + d
  {
  }

  /** One item more adds its text and an empty line; without items the text ends with the line
      feed of the header. */
  lemma SectionTextGrows(s: Section, item: Item)
    ensures SectionText(s.(items := s.items + [item])) == SectionText(s) + ItemText(item) + "\n"
    ensures s.items == [] ==>
              SectionText(s) == CommentBlock("#", s.comment) + "[" + NameText(s.name) + "]" + DateText(s.date) + "\n"
  {
    hide CommentBlock, NameText, DateText, ItemText, ItemsText;
    ItemsTextGrows(s.items, item);
    var header := CommentBlock("#", s.comment) + "[" + NameText(s.name) + "]" + DateText(s.date) + "\n";
    ExtendTwice(header, ItemsText(s.items), ItemText(item), "\n");
    if s.items == [] {
      NoItemsText();
      assert header + "" == header;
    }
  }

  lemma NoItemsText()
    ensures ItemsText([]) == ""
  {
  }

  /** One section more adds its text. */
  lemma {:induction false} ConfigTextGrows(c: Config, s: Section)
    ensures ConfigText(c + [s]) == ConfigText(c) + SectionText(s)
    decreases |c|
  {
    hide SectionText;
    if c == [] {
      assert c + [s] == [s] && [s][1..] == [];
      assert SectionText(s) + "" == "" + SectionText(s);
    } else {
      ConfigTextGrows(c[1..], s);
      assert (c + [s])[0] == c[0] && (c + [s])[1..] == c[1..] + [s];
      Extend(SectionText(c[0]), ConfigText(c[1..]), SectionText(s));
    }
  }

  predicate Unquoted(s: string) {
    s != "" && ' ' !in s && '\t' !in s && '"' !in s && ',' !in s
  }

  /** Every line break of a comment starts a new prefixed line. */
  lemma CommentLine(prefix: string, line: string, rest: string)
    requires '\n' !in line
    ensures CommentLines(prefix, line + "\n" + rest) == prefix + line + "\n" + CommentLines(prefix, rest)
    ensures CommentLines(prefix, line) == prefix + line + "\n"
  {
    var comment := line + "\n" + rest;
    IndexOfIs(comment, '\n', |line|);
    IndexOfIs(line, '\n', |line|);
    assert comment[..|line|] == line && comment[|line| + 1..] == rest;
  }

  lemma IndexOfIs(s: string, c: char, i: nat)
    requires i <= |s| && (i < |s| ==> s[i] == c) && forall j :: 0 <= j < i ==> s[j] != c
    ensures IndexOf(s, c) == i
  {
  }

  /** A value is quoted exactly if it is empty or contains a blank, a tab or a quote; a comma
      quotes only a value that stands alone, and an empty name is not quoted. */
  lemma QuotedWhen(s: string)
    ensures NameText(s) == (if ' ' in s || '\t' in s || '"' in s then "\"" + s + "\"" else s)
    ensures ListedText(s) == (if s == "" || ' ' in s || '\t' in s || '"' in s then "\"" + s + "\"" else s)
    ensures SingleText(s) == (if s == "" || ' ' in s || '\t' in s || '"' in s || ',' in s then "\"" + s + "\"" else s)
  {
  }

  /** The whole text of a section with one item. */
  lemma OneItemText(section: string, name: string, value: string)
    requires Unquoted(section) && Unquoted(name) && Unquoted(value)
    ensures ConfigText([Section(section, "", None, [Item(name, "", [value])])])
         == "[" + section + "]\n" + "\t" + name + " = " + value + "\n\n"
  {
    var item := Item(name, "", [value]);
    var s := Section(section, "", None, [item]);
    SectionTextGrows(Section(section, "", None, []), item);
    assert [] + [item] == [item];
    ConfigTextGrows([], s);
    assert [] + [s] == [s] && "" + SectionText(s) == SectionText(s);
    assert SectionText(Section(section, "", None, [])) == "[" + section + "]\n";
    assert ItemText(item) == "\t" + name + " = " + value + "\n";
  }

  /** The same with comments, a date and a list. */
  lemma FullSectionText(section: string, note: string, date: string)
    requires Unquoted(section) && note != "" && '\n' !in note
    ensures SectionText(Section(section, note, Some(date), [])) == "#" + note + "\n" + "[" + section + "] (" + date + ")\n"
  {
    hide CommentLines;
    CommentLine("#", note, "");
  }

  lemma FullItemText(name: string, remark: string, first: string, second: string)
    requires Unquoted(name) && Unquoted(first) && Unquoted(second) && remark != "" && '\n' !in remark
    ensures ItemText(Item(name, remark, [first, second]))
         == "\t##" + remark + "\n" + "\t" + name + " = \n\t{\n\t\t" + first + ",\n\t\t" + second + "\n\t}\n"
    ensures ItemText(Item(name, "", [])) == "\t" + name + " = \"\"\n"
  {
    hide CommentLines, ListLines;
    CommentLine("\t##", remark, "");
    TwoLines(first, second);
  }

  lemma TwoLines(first: string, second: string)
    requires Unquoted(first) && Unquoted(second)
    ensures ListLines([first, second]) == "\t\t" + first + ",\n\t\t" + second + "\n"
  {
    var values := [first, second];
    assert values[1..] == [second] && [second][1..] == [];
    assert ListedText(first) == first && ListedText(second) == second;
    assert ListLines([second]) == "\t\t" + second + "" + "\n" + "";
    assert ListLines([second]) == "\t\t" + second + "\n";
    assert ListLines(values) == "\t\t" + first + "," + "\n" + ListLines([second]);
  }

  // ---------------------------------------------------------------- the write methods

  method WriteComment(prefix: string, comment: string) returns (out: string)
    ensures out == CommentBlock(prefix, comment)
  {
    out := "";
    if comment == "" {
      return;
    }
    var current := comment;
    var next := IndexOf(current, '\n');
    while next < |current|
      invariant next == IndexOf(current, '\n')
      invariant out + CommentLines(prefix, current) == CommentLines(prefix, comment)
      decreases |current|
    {
      var line := prefix + current[..next] + "\n";
      assert CommentLines(prefix, current) == line + CommentLines(prefix, current[next + 1..]);
      Extend(out, line, CommentLines(prefix, current[next + 1..]));
      out := out + line;
      current := current[next + 1..];
      next := IndexOf(current, '\n');
    }
    out := out + (prefix + current + "\n");
  }

  lemma Extend(a: string, b: string, c: string)
    ensures a + (b + c) == (a + b) + c
  {
  }

  method WriteValues(values: seq<string>) returns (out: string)
    ensures out == ValuesText(values)
  {
    if |values| == 0 {
      return Quoted("") + "\n";
    } else if |values| == 1 {
      return SingleText(values[0]) + "\n";
    }
    out := "\n" + "\t{" + "\n";
    ghost var start := out;
    var i := 0;
    assert start + ListLines(values[0..]) == start + ListLines(values) by {
      assert values[0..] == values;
    }
    while i < |values|
      invariant i <= |values|
      invariant out + ListLines(values[i..]) == start + ListLines(values)
    {
      var line := "\t\t" + ListedText(values[i]);
      if i < |values| - 1 {
        line := line + ",";
      }
      line := line + "\n";
      assert values[i..][0] == values[i] && values[i..][1..] == values[i + 1..];
      assert ListLines(values[i..]) == line + ListLines(values[i + 1..]);
      Extend(out, line, ListLines(values[i + 1..]));
      out := out + line;
      i := i + 1;
    }
    assert values[i..] == [];
    assert out + "" == out;
    out := out + "\t}" + "\n";
  }

  method WriteItem(item: Item) returns (out: string)
    ensures out == ItemText(item)
  {
    out := WriteComment("\t##", item.comment);
    out := out + "\t";
    out := out + NameText(item.name);
    out := out + " = ";
    var values := WriteValues(item.values);
    out := out + values;
  }

  method WriteSection(s: Section) returns (out: string)
    ensures out == SectionText(s)
  {
    hide CommentBlock, NameText, ItemText;
    out := WriteComment("#", s.comment);
    out := out + "[" + NameText(s.name) + "]";
    if s.date.Some? {
      out := out + (" (" + s.date.value + ")");
    }
    out := out + "\n";
    ghost var start := out;
    assert start == CommentBlock("#", s.comment) + "[" + NameText(s.name) + "]" + DateText(s.date) + "\n";
    assert s.items[0..] == s.items;
    for i := 0 to |s.items|
      invariant out + ItemsText(s.items[i..]) == start + ItemsText(s.items)
    {
      var text := WriteItem(s.items[i]);
      assert s.items[i..][0] == s.items[i] && s.items[i..][1..] == s.items[i + 1..];
      assert ItemsText(s.items[i..]) == text + "\n" + ItemsText(s.items[i + 1..]);
      Extend(out, text + "\n", ItemsText(s.items[i + 1..]));
      out := out + (text + "\n");
    }
    assert s.items[|s.items|..] == [];
    assert out + "" == out;
  }

  method WriteConfig(c: Config) returns (out: string)
    ensures out == ConfigText(c)
  {
    hide SectionText;
    out := "";
    assert c[0..] == c;
    assert "" + ConfigText(c) == ConfigText(c);
    for i := 0 to |c|
      invariant out + ConfigText(c[i..]) == ConfigText(c)
    {
      var text := WriteSection(c[i]);
      assert c[i..][0] == c[i] && c[i..][1..] == c[i + 1..];
      Extend(out, text, ConfigText(c[i + 1..]));
      out := out + text;
    }
    assert c[|c|..] == [];
    assert out + "" == out;
  }
}
