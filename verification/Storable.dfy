/**
 Which configurations survive being saved and loaded, and what they come back as.
 */
module Storable {
  import opened ConfigModel
  import opened Scanner
  import opened Writer
  import opened PrintedTokens
  import opened SavedTokens

  /** Printed without quotes, s is scanned as one STRING: no comma, and no part of a date. */
  predicate ReadsAsString(s: string) {
    s != "" && ',' !in s && s != "(" && s != ")" && !IsDate(s)
  }

  predicate StorableName(s: string) {
    NoSpecial(s) && (NeedsQuotes(s) || ReadsAsString(s))
  }

  predicate StorableSingle(s: string) {
    NoSpecial(s) && (NeedsQuotes(s) || ',' in s || s == "" || ReadsAsString(s))
  }

  predicate StorableListed(s: string) {
    NoSpecial(s) && (NeedsQuotes(s) || s == "" || ReadsAsString(s))
  }

  predicate StorableValues(values: seq<string>) {
    if |values| == 1 then StorableSingle(values[0]) else forall v :: v in values ==> StorableListed(v)
  }

  predicate StorableItem(item: Item) {
    NoHash(item.comment) && StorableName(item.name) && StorableValues(item.values)
  }

  predicate StorableItems(items: seq<Item>) {
    forall i :: i in items ==> StorableItem(i)
  }

  predicate StorableSection(s: Section) {
    NoHash(s.comment) && StorableName(s.name) && s.date.None? && StorableItems(s.items)
  }

  predicate StorableConfig(c: Config) {
    forall s :: s in c ==> StorableSection(s)
  }

  // ---------------------------------------------------------------- what comes back

  /** Empty lines at the front of a comment are lost. */
  function NormComment(comment: string): (r: string)
    decreases |comment|
  {
    if comment != "" && comment[0] == '\n' then NormComment(comment[1..]) else comment
  }

  /** An item without values comes back with one empty value. */
  function NormValues(values: seq<string>): seq<string> {
    if values == [] then [""] else values
  }

  function NormItem(item: Item): Item {
    Item(item.name, NormComment(item.comment), NormValues(item.values))
  }

  function NormItems(items: seq<Item>): (r: seq<Item>)
    ensures |r| == |items|
    ensures forall k :: 0 <= k < |items| ==> r[k] == NormItem(items[k])
  {
    if items == [] then [] else [NormItem(items[0])] + NormItems(items[1..])
  }

  function NormSection(s: Section): Section {
    Section(s.name, NormComment(s.comment), s.date, NormItems(s.items))
  }

  function Norm(c: Config): (r: Config)
    ensures |r| == |c|
    ensures forall k :: 0 <= k < |c| ==> r[k] == NormSection(c[k])
  {
    if c == [] then [] else [NormSection(c[0])] + Norm(c[1..])
  }

  // ---------------------------------------------------------------- normal configurations

  /** A configuration that comes back as it is. */
  predicate Normal(c: Config) {
    forall s :: s in c ==>
      && (s.comment == "" || s.comment[0] != '\n')
      && forall i :: i in s.items ==> (i.comment == "" || i.comment[0] != '\n') && i.values != []
  }

  lemma {:induction false} NormCommentIsNormal(comment: string)
    ensures NormComment(comment) == "" || NormComment(comment)[0] != '\n'
    ensures NoHash(NormComment(comment)) <==> NoHash(comment)
    decreases |comment|
  {
    if comment != "" && comment[0] == '\n' {
      NormCommentIsNormal(comment[1..]);
      assert comment == ['\n'] + comment[1..];
    }
  }

  lemma NormOfNormal(c: Config)
    requires Normal(c)
    ensures Norm(c) == c
  {
    forall k | 0 <= k < |c|
      ensures Norm(c)[k] == c[k]
    {
      assert c[k] in c;
      forall i | 0 <= i < |c[k].items|
        ensures NormItems(c[k].items)[i] == c[k].items[i]
      {
        assert c[k].items[i] in c[k].items;
      }
      assert NormItems(c[k].items) == c[k].items;
    }
  }

  /** Coming back changes nothing the second time, and keeps what can be stored storable. */
  lemma NormIsNormal(c: Config)
    ensures Normal(Norm(c)) && Norm(Norm(c)) == Norm(c)
    ensures StorableConfig(c) ==> StorableConfig(Norm(c))
  {
    forall s | s in Norm(c)
      ensures s.comment == "" || s.comment[0] != '\n'
      ensures forall i :: i in s.items ==> (i.comment == "" || i.comment[0] != '\n') && i.values != []
      ensures StorableConfig(c) ==> StorableSection(s)
    {
      var k :| 0 <= k < |c| && s == NormSection(c[k]);
      assert c[k] in c;
      NormCommentIsNormal(c[k].comment);
      NormItemsAreNormal(c[k].items);
    }
    NormOfNormal(Norm(c));
  }

  lemma NormItemsAreNormal(items: seq<Item>)
    ensures forall i :: i in NormItems(items) ==> (i.comment == "" || i.comment[0] != '\n') && i.values != []
    ensures StorableItems(items) ==> StorableItems(NormItems(items))
  {
    forall i | i in NormItems(items)
      ensures (i.comment == "" || i.comment[0] != '\n') && i.values != []
      ensures StorableItems(items) ==> StorableItem(i)
    {
      var k :| 0 <= k < |items| && i == NormItem(items[k]);
      assert items[k] in items;
      NormCommentIsNormal(items[k].comment);
    }
  }

  /** Only legal configurations can come back as they should, or be storable. */
  lemma NormIsLegal(c: Config)
    requires LegalConfig(Norm(c))
    ensures LegalConfig(c)
  {
    forall k | 0 <= k < |c|
      ensures LegalSection(c[k])
    {
      assert Norm(c)[k] in Norm(c);
      NormCommentIsNormal(c[k].comment);
      forall i | 0 <= i < |c[k].items|
        ensures LegalItem(c[k].items[i])
      {
        assert NormItems(c[k].items)[i] in NormItems(c[k].items);
        NormCommentIsNormal(c[k].items[i].comment);
      }
    }
  }

  lemma StorableIsLegal(c: Config)
    requires StorableConfig(c)
    ensures LegalConfig(c)
  {
    forall s | s in c
      ensures LegalSection(s)
    {
      forall i | i in s.items
        ensures LegalItem(i)
      {
        assert StorableItem(i);
      }
    }
  }
}
