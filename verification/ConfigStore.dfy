/**
 The configuration object: an array of section objects, and the operations that search it by
 name. Sections and items are found or created, and growing an array at any layer is invisible.
 */
module ConfigStore {
  import opened ConfigModel
  import opened ConfigItems
  import opened ConfigSections

  // ---------------------------------------------------------------- what the operations mean

  function FirstSection(sections: seq<SectionData>, name: string): (i: nat)
    ensures i <= |sections|
    ensures i < |sections| ==> SameName(sections[i].name, name, sections[i].caseSensitive)
    ensures forall k :: 0 <= k < i ==> !SameName(sections[k].name, name, sections[k].caseSensitive)
  {
    if sections == [] || SameName(sections[0].name, name, sections[0].caseSensitive) then 0
    else 1 + FirstSection(sections[1..], name)
  }

  lemma {:induction false} FirstSectionIs(sections: seq<SectionData>, name: string, i: nat)
    requires i <= |sections|
    requires i < |sections| ==> SameName(sections[i].name, name, sections[i].caseSensitive)
    requires forall k :: 0 <= k < i ==> !SameName(sections[k].name, name, sections[k].caseSensitive)
    ensures i == FirstSection(sections, name)
  {
    if sections != [] && i > 0 {
      assert !SameName(sections[0].name, name, sections[0].caseSensitive);
      forall k | 0 <= k < i - 1
        ensures !SameName(sections[1..][k].name, name, sections[1..][k].caseSensitive)
      {
        assert sections[1..][k] == sections[k + 1];
      }
      FirstSectionIs(sections[1..], name, i - 1);
    }
  }

  function NewItem(name: string, value: string, caseSensitive: bool): ItemData {
    ItemData(Item(name, "", [value]), caseSensitive)
  }

  /** A value appended to the first item with the name, which is created if there is none. */
  function ValueInItems(items: seq<ItemData>, itemName: string, value: string, caseSensitive: bool): seq<ItemData> {
    var i := FirstItem(items, itemName);
    if i == |items| then items + [NewItem(itemName, value, caseSensitive)]
    else items[i := WithValue(items[i], value)]
  }

  function ValueInSections(sections: seq<SectionData>, sectionName: string, itemName: string, value: string, caseSensitive: bool): seq<SectionData> {
    var k := FirstSection(sections, sectionName);
    if k == |sections| then
      sections + [SectionData(sectionName, "", None, caseSensitive, [NewItem(itemName, value, caseSensitive)])]
    else
      sections[k := WithValueIn(sections[k], itemName, value, caseSensitive)]
  }

  function WithValueIn(section: SectionData, itemName: string, value: string, caseSensitive: bool): SectionData {
    section.(items := ValueInItems(section.items, itemName, value, caseSensitive))
  }

  /** The values found under a section name and an item name. */
  function ItemValues(items: seq<ItemData>, itemName: string): seq<string> {
    var i := FirstItem(items, itemName);
    if i == |items| then [] else items[i].item.values
  }

  function Lookup(sections: seq<SectionData>, sectionName: string, itemName: string): seq<string> {
    var k := FirstSection(sections, sectionName);
    if k == |sections| then [] else ItemValues(sections[k].items, itemName)
  }

  // ---------------------------------------------------------------- laws

  /** Every section and item uses the same rule for comparing names. */
  predicate Uniform(sections: seq<SectionData>, caseSensitive: bool) {
    forall s :: s in sections ==> s.caseSensitive == caseSensitive && UniformItems(s.items, caseSensitive)
  }

  predicate UniformItems(items: seq<ItemData>, caseSensitive: bool) {
    forall i :: i in items ==> i.caseSensitive == caseSensitive
  }

  /** Two names find the same item, also counting the one an append under the first would create. */
  predicate SameItem(items: seq<ItemData>, itemName: string, other: string, caseSensitive: bool) {
    var i, j := FirstItem(items, itemName), FirstItem(items, other);
    i == j && (j == |items| ==> SameName(itemName, other, caseSensitive))
  }

  predicate SameSection(sections: seq<SectionData>, sectionName: string, other: string, caseSensitive: bool) {
    var k, j := FirstSection(sections, sectionName), FirstSection(sections, other);
    k == j && (j == |sections| ==> SameName(sectionName, other, caseSensitive))
  }

  function ItemsUnder(sections: seq<SectionData>, sectionName: string): seq<ItemData> {
    var k := FirstSection(sections, sectionName);
    if k == |sections| then [] else sections[k].items
  }

  /** Looking a name up after a value was appended under another, or the same, name. */
  lemma AppendThenFindItem(items: seq<ItemData>, itemName: string, value: string, caseSensitive: bool, other: string)
    ensures ItemValues(ValueInItems(items, itemName, value, caseSensitive), other)
         == ItemValues(items, other) + if SameItem(items, itemName, other, caseSensitive) then [value] else []
  {
    var i, j := FirstItem(items, itemName), FirstItem(items, other);
    var after := ValueInItems(items, itemName, value, caseSensitive);
    assert forall k :: 0 <= k < |items| ==> after[k].item.name == items[k].item.name && after[k].caseSensitive == items[k].caseSensitive;
    if j < |items| {
      FirstItemIs(after, other, j);
    } else if i == |items| && SameName(itemName, other, caseSensitive) {
      FirstItemIs(after, other, |items|);
    } else {
      FirstItemIs(after, other, |after|);
    }
  }

  /** The same for the two names of a value, whatever rules the sections and items compare by:
      the value appears exactly if both names find what the append found or created. */
  lemma AppendThenFind(sections: seq<SectionData>, sectionName: string, itemName: string, value: string, caseSensitive: bool,
                       otherSection: string, otherItem: string)
    ensures Lookup(ValueInSections(sections, sectionName, itemName, value, caseSensitive), otherSection, otherItem)
         == Lookup(sections, otherSection, otherItem)
            + if SameSection(sections, sectionName, otherSection, caseSensitive)
                 && SameItem(ItemsUnder(sections, sectionName), itemName, otherItem, caseSensitive)
              then [value] else []
  {
    AppendThenFindItem(ItemsUnder(sections, sectionName), itemName, value, caseSensitive, otherItem);
    FoundAt(sections, sectionName, itemName, value, caseSensitive, otherSection);
    assert ValueInItems([], itemName, value, caseSensitive) == [NewItem(itemName, value, caseSensitive)];
  }

  /** Where a name is found after an append: where it was, or in the new section at the end. */
  lemma FoundAt(sections: seq<SectionData>, sectionName: string, itemName: string, value: string, caseSensitive: bool, other: string)
    ensures var after, j := ValueInSections(sections, sectionName, itemName, value, caseSensitive), FirstSection(sections, other);
            FirstSection(after, other)
            == if j < |sections| then j
               else if SameSection(sections, sectionName, other, caseSensitive) then |sections| else |after|
  {
    var k, j := FirstSection(sections, sectionName), FirstSection(sections, other);
    var after := ValueInSections(sections, sectionName, itemName, value, caseSensitive);
    assert forall m :: 0 <= m < |sections| ==> after[m].name == sections[m].name && after[m].caseSensitive == sections[m].caseSensitive;
    if j < |sections| {
      FirstSectionIs(after, other, j);
    } else if SameSection(sections, sectionName, other, caseSensitive) {
      FirstSectionIs(after, other, |sections|);
    } else {
      FirstSectionIs(after, other, |after|);
    }
  }

  // ---------------------------------------------------------------- one rule for all names

  lemma UniformNames(sections: seq<SectionData>, sectionName: string, itemName: string, caseSensitive: bool,
                     otherSection: string, otherItem: string)
    requires Uniform(sections, caseSensitive)
    ensures SameSection(sections, sectionName, otherSection, caseSensitive) <==> SameName(sectionName, otherSection, caseSensitive)
    ensures SameItem(ItemsUnder(sections, sectionName), itemName, otherItem, caseSensitive) <==> SameName(itemName, otherItem, caseSensitive)
  {
    assert forall m :: 0 <= m < |sections| ==> sections[m] in sections;
    var items := ItemsUnder(sections, sectionName);
    assert forall m :: 0 <= m < |items| ==> items[m] in items;
  }

  lemma StaysUniform(sections: seq<SectionData>, sectionName: string, itemName: string, value: string, caseSensitive: bool)
    requires Uniform(sections, caseSensitive)
    ensures Uniform(ValueInSections(sections, sectionName, itemName, value, caseSensitive), caseSensitive)
  {
    var after := ValueInSections(sections, sectionName, itemName, value, caseSensitive);
    forall s | s in after
      ensures s.caseSensitive == caseSensitive && UniformItems(s.items, caseSensitive)
    {
      var k := FirstSection(sections, sectionName);
      if k < |sections| && s == after[k] {
        assert sections[k] in sections;
        var items, after' := sections[k].items, ValueInItems(sections[k].items, itemName, value, caseSensitive);
        forall i | i in after'
          ensures i.caseSensitive == caseSensitive
        {
          assert forall m :: 0 <= m < |items| ==> items[m] in items;
        }
      }
    }
  }

  datatype Entry = Entry(section: string, item: string, value: string)

  function AppendAll(sections: seq<SectionData>, entries: seq<Entry>, caseSensitive: bool): seq<SectionData> {
    if entries == [] then sections
    else
      var e, before := entries[|entries| - 1], AppendAll(sections, entries[..|entries| - 1], caseSensitive);
      ValueInSections(before, e.section, e.item, e.value, caseSensitive)
  }

  /** The values of the entries with matching names, in order. */
  function Matching(entries: seq<Entry>, section: string, item: string, caseSensitive: bool): seq<string> {
    if entries == [] then []
    else
      var e := entries[|entries| - 1];
      Matching(entries[..|entries| - 1], section, item, caseSensitive)
      + if NamesAgree(e.section, section, caseSensitive) && NamesAgree(e.item, item, caseSensitive) then [e.value] else []
  }

  /** The values of the chosen entries, in order. */
  function ValuesOf(entries: seq<Entry>, chosen: Entry -> bool): seq<string> {
    if entries == [] then []
    else
      var e := entries[|entries| - 1];
      ValuesOf(entries[..|entries| - 1], chosen) + if chosen(e) then [e.value] else []
  }

  lemma {:induction false} MatchingMeans(entries: seq<Entry>, section: string, item: string)
    ensures Matching(entries, section, item, true) == ValuesOf(entries, (e: Entry) => e.section == section && e.item == item)
    ensures Matching(entries, section, item, false)
         == ValuesOf(entries, (e: Entry) => SameLetters(e.section, section) && SameLetters(e.item, item))
    decreases |entries|
  {
    if entries != [] {
      MatchingMeans(entries[..|entries| - 1], section, item);
    }
  }

  lemma NoneAppended(entries: seq<Entry>, caseSensitive: bool)
    ensures AppendAll([], entries[..0], caseSensitive) == []
  {
  }

  lemma OneMoreAppended(entries: seq<Entry>, i: nat, caseSensitive: bool)
    requires i < |entries|
    ensures AppendAll([], entries[..i + 1], caseSensitive)
         == ValueInSections(AppendAll([], entries[..i], caseSensitive), entries[i].section, entries[i].item, entries[i].value, caseSensitive)
  {
    hide ValueInSections;
    assert entries[..i + 1][..i] == entries[..i];
  }

  /** After any run of appends to an empty configuration, the values under two names are exactly
      those appended under matching names, in order. */
  lemma {:induction false} RunIsMultimap(entries: seq<Entry>, caseSensitive: bool, section: string, item: string)
    ensures Uniform(AppendAll([], entries, caseSensitive), caseSensitive)
    ensures Lookup(AppendAll([], entries, caseSensitive), section, item) == Matching(entries, section, item, caseSensitive)
    decreases |entries|
  {
    if entries != [] {
      var e, init := entries[|entries| - 1], entries[..|entries| - 1];
      RunIsMultimap(init, caseSensitive, section, item);
      var sections := AppendAll([], init, caseSensitive);
      SameNameMeans(e.section, section, caseSensitive);
      SameNameMeans(e.item, item, caseSensitive);
      AppendThenFind(sections, e.section, e.item, e.value, caseSensitive, section, item);
      UniformNames(sections, e.section, e.item, caseSensitive, section, item);
      StaysUniform(sections, e.section, e.item, e.value, caseSensitive);
    }
  }

  /** The same, name by name: with case sensitivity the values are those of the entries with
      equal names, without it those whose names agree up to the case of the letters A to Z. */
  lemma RunByNames(entries: seq<Entry>, section: string, item: string)
    ensures Lookup(AppendAll([], entries, true), section, item)
         == ValuesOf(entries, (e: Entry) => e.section == section && e.item == item)
    ensures Lookup(AppendAll([], entries, false), section, item)
         == ValuesOf(entries, (e: Entry) => SameLetters(e.section, section) && SameLetters(e.item, item))
  {
    RunIsMultimap(entries, true, section, item);
    RunIsMultimap(entries, false, section, item);
    MatchingMeans(entries, section, item);
  }

  /** An append changes nothing but the values of one item: without the new value at the end the
      item, its section and all the others are what they were, and a created item or section has
      its name, the value, and nothing else. */
  lemma OnlyValuesChange(sections: seq<SectionData>, sectionName: string, itemName: string, value: string, caseSensitive: bool)
    ensures var r, k := ValueInSections(sections, sectionName, itemName, value, caseSensitive), FirstSection(sections, sectionName);
            && (k == |sections| ==>
                  r == sections + [SectionData(sectionName, "", None, caseSensitive,
                                               [ItemData(Item(itemName, "", [value]), caseSensitive)])])
            && (k < |sections| ==>
                  && |r| == |sections| && r[k].(items := sections[k].items) == sections[k]
                  && (forall m :: 0 <= m < |r| && m != k ==> r[m] == sections[m])
                  && OnlyOneItemChanges(sections[k].items, r[k].items, itemName, value, caseSensitive))
  {
  }

  predicate OnlyOneItemChanges(items: seq<ItemData>, r: seq<ItemData>, itemName: string, value: string, caseSensitive: bool) {
    var i := FirstItem(items, itemName);
    && (i == |items| ==> r == items + [ItemData(Item(itemName, "", [value]), caseSensitive)])
    && (i < |items| ==>
          && |r| == |items| && r[i].item.values == items[i].item.values + [value]
          && r[i].(item := r[i].item.(values := items[i].item.values)) == items[i]
          && forall m :: 0 <= m < |r| && m != i ==> r[m] == items[m])
  }

  // ---------------------------------------------------------------- the array of sections

  /** The first n cells hold valid sections that share nothing, all within repr. */
  ghost predicate OwnsSections(a: array<ConfigurationSection?>, n: nat, repr: set<object>)
    reads a, repr
  {
    && a in repr
    && n <= a.Length
    && (forall k :: 0 <= k < n ==> a[k] != null && a[k] in repr && a[k].Repr <= repr && a !in a[k].Repr && a[k].Valid())
    && (forall j, k :: 0 <= j < k < n ==> a[j].Repr !! a[k].Repr)
  }

  ghost function SectionsIn(a: array<ConfigurationSection?>, n: nat, repr: set<object>): (r: seq<SectionData>)
    requires OwnsSections(a, n, repr)
    reads a, repr
    ensures |r| == n
    ensures forall k :: 0 <= k < n ==> r[k] == a[k].Data()
  {
    seq(n, k requires 0 <= k < n && OwnsSections(a, n, repr) reads a, repr => a[k].Data())
  }

  method StoreSection(a: array<ConfigurationSection?>, n: nat, ghost repr: set<object>, section: ConfigurationSection)
    requires OwnsSections(a, n, repr) && n < a.Length
    requires section.Valid() && section.Repr !! repr
    modifies a
    ensures OwnsSections(a, n + 1, repr + section.Repr)
    ensures SectionsIn(a, n + 1, repr + section.Repr) == old(SectionsIn(a, n, repr)) + [old(section.Data())]
  {
    hide ConfigurationSection.Valid, ConfigurationSection.Data;
    ghost var before := SectionsIn(a, n, repr);
    a[n] := section;
    assert forall k :: 0 <= k < n ==> a[k].Data() == before[k];
  }

  method StoreSectionCopy(a: array<ConfigurationSection?>, n: nat, ghost repr: set<object>, source: ConfigurationSection,
                          itemStep: nat, bufferStep: nat)
    returns (ghost repr': set<object>)
    requires OwnsSections(a, n, repr) && n < a.Length && source.Valid() && itemStep >= 1 && bufferStep >= 1
    modifies a
    ensures repr <= repr' && fresh(repr' - repr) && OwnsSections(a, n + 1, repr')
    ensures SectionsIn(a, n + 1, repr') == old(SectionsIn(a, n, repr)) + [old(source.Data())]
  {
    hide ConfigurationSection.Valid, ConfigurationSection.Data;
    var copy := ConfigurationSection.Copy(source, itemStep, bufferStep);
    StoreSection(a, n, repr, copy);
    repr' := repr + copy.Repr;
  }

  /** Copies of the first n sections in a new array. */
  method CopySections(a: array<ConfigurationSection?>, n: nat, ghost repr: set<object>, size: nat, itemStep: nat, bufferStep: nat)
    returns (copies: array<ConfigurationSection?>, ghost copiesRepr: set<object>)
    requires OwnsSections(a, n, repr) && n <= size && itemStep >= 1 && bufferStep >= 1
    ensures fresh(copiesRepr) && OwnsSections(copies, n, copiesRepr) && copies.Length == size
    ensures SectionsIn(copies, n, copiesRepr) == old(SectionsIn(a, n, repr))
  {
    hide ConfigurationSection.Valid, ConfigurationSection.Data;
    copies := new ConfigurationSection?[size](_ => null);
    copiesRepr := {copies};
    ghost var data := SectionsIn(a, n, repr);
    for i := 0 to n
      invariant fresh(copiesRepr) && OwnsSections(copies, i, copiesRepr)
      invariant SectionsIn(copies, i, copiesRepr) == data[..i]
    {
      TakeNext(data, i);
      assert a[i].Data() == data[i];
      copiesRepr := StoreSectionCopy(copies, i, copiesRepr, a[i], itemStep, bufferStep);
    }
  }

  /** A value appended below the section in cell k. */
  method AppendToSection(a: array<ConfigurationSection?>, n: nat, ghost repr: set<object>, k: nat,
                      itemName: string, value: string, caseSensitive: bool, bufferStep: nat)
    returns (ghost repr': set<object>)
    requires OwnsSections(a, n, repr) && k < n && bufferStep >= 1
    modifies a[k].Repr
    ensures repr <= repr' && fresh(repr' - repr) && OwnsSections(a, n, repr')
    ensures SectionsIn(a, n, repr')
         == old(SectionsIn(a, n, repr))[k := WithValueIn(old(SectionsIn(a, n, repr))[k], itemName, value, caseSensitive)]
  {
    hide ConfigurationSection.Valid, ConfigurationSection.Data;
    ghost var before := SectionsIn(a, n, repr);
    ValueInto(a[k], itemName, value, caseSensitive, bufferStep);
    repr' := repr + a[k].Repr;
    assert forall j :: 0 <= j < n && j != k ==> a[j].Data() == before[j];
  }

  /** Find or create the item in a section, and append the value. */
  method ValueInto(section: ConfigurationSection, itemName: string, value: string, caseSensitive: bool, bufferStep: nat)
    requires section.Valid() && bufferStep >= 1
    modifies section.Repr
    ensures section.Valid() && fresh(section.Repr - old(section.Repr))
    ensures section.Data() == WithValueIn(old(section.Data()), itemName, value, caseSensitive)
  {
    var i := section.FindItem(itemName);
    if i == section.itemsNumber {
      var item := OneValueItem(itemName, value, caseSensitive, bufferStep);
      section.AppendCfgItem(item, bufferStep);
    } else {
      section.AppendToItem(i, value);
    }
  }

  method OneValueItem(itemName: string, value: string, caseSensitive: bool, bufferStep: nat) returns (item: ConfigurationItem)
    requires bufferStep >= 1
    ensures fresh(item) && fresh(item.values) && item.Valid() && item.Data() == NewItem(itemName, value, caseSensitive)
  {
    item := new ConfigurationItem(itemName, "", caseSensitive, bufferStep);
    item.AppendItemValue(value);
    assert item.Values() == [value];
  }

  method OneValueSection(sectionName: string, itemName: string, value: string, caseSensitive: bool, itemStep: nat, bufferStep: nat)
    returns (section: ConfigurationSection)
    requires itemStep >= 1 && bufferStep >= 1
    ensures fresh(section) && fresh(section.Repr) && section.Valid()
    ensures section.Data() == SectionData(sectionName, "", None, caseSensitive, [NewItem(itemName, value, caseSensitive)])
  {
    section := new ConfigurationSection(sectionName, "", None, caseSensitive, itemStep);
    var item := OneValueItem(itemName, value, caseSensitive, bufferStep);
    section.AppendCfgItem(item, bufferStep);
    assert section.Items() == [NewItem(itemName, value, caseSensitive)];
  }

  /** Finish the section in cell k and copy the last section there; the copy is refused if the
      last section is the one that has just been finished. */
  method MoveLast(a: array<ConfigurationSection?>, n: nat, ghost repr: set<object>, k: nat, itemStep: nat, bufferStep: nat)
    returns (moved: bool, ghost repr': set<object>)
    requires OwnsSections(a, n, repr) && k < n && itemStep >= 1 && bufferStep >= 1
    modifies a
    ensures moved <==> k != n - 1
    ensures !moved ==> a[n - 1] == null
    ensures moved ==>
              && repr <= repr' && fresh(repr' - repr) && OwnsSections(a, n - 1, repr')
              && SectionsIn(a, n - 1, repr') == WithoutSection(old(SectionsIn(a, n, repr)), k)
  {
    hide ConfigurationSection.Valid, ConfigurationSection.Data;
    ghost var before := SectionsIn(a, n, repr);
    a[k] := null;
    repr' := repr;
    if a[n - 1] == null {
      return false, repr;
    }
    var copy := ConfigurationSection.Copy(a[n - 1], itemStep, bufferStep);
    a[k] := copy;
    a[n - 1] := null;
    repr' := repr + copy.Repr;
    assert forall j :: 0 <= j < n - 1 && j != k ==> a[j].Data() == before[j];
    assert a[k].Data() == before[n - 1];
    return true, repr';
  }

  /** The list after the removal of section k: the last section takes its place. */
  function WithoutSection(sections: seq<SectionData>, k: nat): seq<SectionData>
    requires k < |sections|
  {
    sections[k := sections[|sections| - 1]][..|sections| - 1]
  }

  lemma WithoutSectionMeans(sections: seq<SectionData>, k: nat)
    requires k < |sections| - 1
    ensures var r := WithoutSection(sections, k);
            && |r| == |sections| - 1 && r[k] == sections[|sections| - 1]
            && forall m :: 0 <= m < |r| && m != k ==> r[m] == sections[m]
  {
  }

  datatype Removal = Removed | NotFound | CopyFailed

  class Configuration {
    var name: string
    var caseSensitive: bool
    var step: nat
    var sectionsNumber: nat
    var sections: array<ConfigurationSection?>
    ghost var cells: set<object>

    /** The array of sections and all that hangs on it, and the object itself. */
    ghost function Repr(): set<object>
      reads this
    {
      {this} + cells
    }

    ghost predicate Valid()
      reads Repr()
    {
      this !in cells && sections in cells && step >= 1 && OwnsSections(sections, sectionsNumber, cells)
    }

    ghost function Sections(): (r: seq<SectionData>)
      requires Valid()
      reads Repr()
      ensures |r| == sectionsNumber
    {
      SectionsIn(sections, sectionsNumber, cells)
    }

    ghost function Data(): ConfigData
      requires Valid()
      reads Repr()
    {
      ConfigData(name, caseSensitive, Sections())
    }

    constructor (name: string, caseSensitive: bool, step: nat)
      requires step >= 1
      ensures Valid() && fresh(Repr()) && Data() == ConfigData(name, caseSensitive, [])
    {
      this.name, this.caseSensitive, this.step := name, caseSensitive, step;
      sectionsNumber := 0;
      sections := new ConfigurationSection?[step](_ => null);
      new;
      cells := {sections};
    }

    method Grow(itemStep: nat, bufferStep: nat)
      requires Valid() && sectionsNumber == sections.Length && itemStep >= 1 && bufferStep >= 1
      modifies this
      ensures Valid() && fresh(cells) && Data() == old(Data())
      ensures sections.Length == old(sections.Length) + step && sectionsNumber == old(sectionsNumber) && step == old(step)
    {
      hide ConfigurationSection.Valid, ConfigurationSection.Data;
      ghost var larger;
      sections, larger := CopySections(sections, sectionsNumber, cells, sections.Length + step, itemStep, bufferStep);
      cells := larger;
    }

    /** appendCfgSection: a copy of the section is added at the end. */
    method AppendCfgSection(source: ConfigurationSection, itemStep: nat, bufferStep: nat)
      requires Valid() && source.Valid() && this !in source.Repr && itemStep >= 1 && bufferStep >= 1
      modifies Repr()
      ensures Valid() && fresh(Repr() - old(Repr()))
      ensures Data() == old(Data()).(sections := old(Sections()) + [old(source.Data())])
    {
      hide ConfigurationSection.Valid, ConfigurationSection.Data;
      if sectionsNumber == sections.Length {
        Grow(itemStep, bufferStep);
      }
      ghost var repr := StoreSectionCopy(sections, sectionsNumber, cells, source, itemStep, bufferStep);
      sectionsNumber := sectionsNumber + 1;
      cells := repr;
    }

    method FindSection(sectionName: string) returns (i: nat)
      requires Valid()
      ensures i == FirstSection(Sections(), sectionName) <= |Sections()|
      ensures i < |Sections()| ==> NamesAgree(Sections()[i].name, sectionName, Sections()[i].caseSensitive)
      ensures forall k :: 0 <= k < i ==> !NamesAgree(Sections()[k].name, sectionName, Sections()[k].caseSensitive)
    {
      hide SameName, NamesAgree;
      i := 0;
      while i < sectionsNumber
        invariant i <= sectionsNumber
        invariant forall k :: 0 <= k < i ==> !SameName(Sections()[k].name, sectionName, Sections()[k].caseSensitive)
        invariant forall k :: 0 <= k < i ==> !NamesAgree(Sections()[k].name, sectionName, Sections()[k].caseSensitive)
      {
        SameNameMeans(sections[i].name, sectionName, sections[i].caseSensitive);
        assert Sections()[i] == sections[i].Data();
        if SameName(sections[i].name, sectionName, sections[i].caseSensitive) {
          break;
        }
        i := i + 1;
      }
      FirstSectionIs(Sections(), sectionName, i);
    }

    /** appendItemValue: find or create the section, find or create the item, append the value. */
    method AppendItemValue(sectionName: string, itemName: string, value: string, itemStep: nat, bufferStep: nat)
      requires Valid() && itemStep >= 1 && bufferStep >= 1
      modifies Repr()
      ensures Valid() && fresh(Repr() - old(Repr()))
      ensures Data() == old(Data()).(sections := ValueInSections(old(Sections()), sectionName, itemName, value, old(caseSensitive)))
    {
      hide OwnsSections, SectionsIn, FirstSection, WithValueIn;
      hide ConfigurationSection.Valid, ConfigurationSection.Data;
      var k := FindSection(sectionName);
      if k == sectionsNumber {
        var section := OneValueSection(sectionName, itemName, value, caseSensitive, itemStep, bufferStep);
        AppendCfgSection(section, itemStep, bufferStep);
      } else {
        AppendBelow(k, itemName, value, bufferStep);
      }
    }

    method AppendBelow(k: nat, itemName: string, value: string, bufferStep: nat)
      requires Valid() && k < sectionsNumber && bufferStep >= 1
      modifies Repr()
      ensures Valid() && fresh(Repr() - old(Repr()))
      ensures Data() == old(Data()).(sections := old(Sections())[k := WithValueIn(old(Sections())[k], itemName, value, old(caseSensitive))])
    {
      hide ConfigurationSection.Valid, ConfigurationSection.Data, FirstSection, WithValueIn;
      ghost var repr := AppendToSection(sections, sectionsNumber, cells, k, itemName, value, caseSensitive, bufferStep);
      cells := repr;
    }

    /** removeCfgSection: the last section is copied over the one to remove. Removing the last
        section itself finishes it first and then fails to copy it onto itself. */
    method RemoveCfgSection(sectionName: string, itemStep: nat, bufferStep: nat) returns (result: Removal)
      requires Valid() && itemStep >= 1 && bufferStep >= 1
      modifies Repr()
      ensures result.NotFound? <==> FirstSection(old(Sections()), sectionName) == old(sectionsNumber)
      ensures result.CopyFailed? <==> FirstSection(old(Sections()), sectionName) == old(sectionsNumber) - 1
      ensures Valid() <==> !result.CopyFailed?
      ensures result.NotFound? ==> Data() == old(Data())
      ensures result.Removed? ==>
                Data() == old(Data()).(sections := WithoutSection(old(Sections()), FirstSection(old(Sections()), sectionName)))
    {
      hide SectionsIn, FirstSection, WithoutSection;
      hide ConfigurationSection.Valid, ConfigurationSection.Data;
      var k := FindSection(sectionName);
      if k == sectionsNumber {
        return NotFound;
      }
      var moved;
      ghost var repr;
      moved, repr := MoveLast(sections, sectionsNumber, cells, k, itemStep, bufferStep);
      if !moved {
        return CopyFailed;
      }
      sectionsNumber := sectionsNumber - 1;
      cells := repr;
      return Removed;
    }

    /** copy: the same name, case flag and sections. */
    static method Copy(source: Configuration, sectionStep: nat, itemStep: nat, bufferStep: nat) returns (copy: Configuration)
      requires source.Valid() && sectionStep >= 1 && itemStep >= 1 && bufferStep >= 1
      ensures fresh(copy) && fresh(copy.Repr()) && copy.Valid() && copy.Data() == old(source.Data())
    {
      hide ConfigurationSection.Valid, ConfigurationSection.Data;
      ghost var data := source.Data();
      copy := new Configuration(source.name, source.caseSensitive, sectionStep);
      for i := 0 to source.sectionsNumber
        invariant fresh(copy) && fresh(copy.Repr()) && copy.Valid()
        invariant copy.Data() == data.(sections := data.sections[..i])
      {
        TakeNext(data.sections, i);
        copy.AppendCopyOf(source, i, itemStep, bufferStep);
      }
      TakeAll(data.sections);
    }

    /** Append a copy of section i of another configuration (getCfgSectionByIndex, then appendCfgSection). */
    method AppendCopyOf(source: Configuration, i: nat, itemStep: nat, bufferStep: nat)
      requires Valid() && source.Valid() && i < source.sectionsNumber && source.Repr() !! Repr()
      requires itemStep >= 1 && bufferStep >= 1
      modifies Repr()
      ensures Valid() && fresh(Repr() - old(Repr()))
      ensures Data() == old(Data()).(sections := old(Sections()) + [old(source.Sections())[i]])
    {
      hide ConfigurationSection.Valid, ConfigurationSection.Data;
      var section := ConfigurationSection.Copy(source.sections[i], itemStep, bufferStep);
      AppendCfgSection(section, itemStep, bufferStep);
    }

    /** Any run of appends to a new configuration: its values are those of the run. */
    static method BuildByAppends(entries: seq<Entry>, caseSensitive: bool, step: nat) returns (config: Configuration)
      requires step >= 1
      ensures fresh(config) && config.Valid()
      ensures config.Sections() == AppendAll([], entries, caseSensitive)
      ensures forall section, item :: Lookup(config.Sections(), section, item) == Matching(entries, section, item, caseSensitive)
    {
      hide AppendAll, Matching, Lookup, ValueInSections;
      config := new Configuration("", caseSensitive, step);
      NoneAppended(entries, caseSensitive);
      for i := 0 to |entries|
        invariant fresh(config) && fresh(config.Repr()) && config.Valid()
        invariant config.Data() == ConfigData("", caseSensitive, AppendAll([], entries[..i], caseSensitive))
      {
        OneMoreAppended(entries, i, caseSensitive);
        config.AppendItemValue(entries[i].section, entries[i].item, entries[i].value, step, step);
      }
      TakeAll(entries);
      forall section, item
        ensures Lookup(config.Sections(), section, item) == Matching(entries, section, item, caseSensitive)
      {
        RunIsMultimap(entries, caseSensitive, section, item);
      }
    }
  }
}
