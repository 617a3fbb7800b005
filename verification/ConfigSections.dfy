/**
 The section object: an array of item objects that grows by whole steps. Growing copies every
 item into a new object; what the section holds does not change.
 */
module ConfigSections {
  import opened ConfigModel
  import opened ConfigItems

  /** The first n cells of the array hold valid items that share nothing, all within repr. */
  ghost predicate OwnsItems(a: array<ConfigurationItem?>, n: nat, repr: set<object>)
    reads a, repr
  {
    && a in repr
    && n <= a.Length
    && (forall k :: 0 <= k < n ==> a[k] != null && a[k] in repr && a[k].values in repr && a[k].Valid())
    && (forall j, k :: 0 <= j < k < n ==> a[j] != a[k] && a[j].values != a[k].values)
  }

  ghost function ItemsIn(a: array<ConfigurationItem?>, n: nat, repr: set<object>): (r: seq<ItemData>)
    requires OwnsItems(a, n, repr)
    reads a, repr
    ensures |r| == n
    ensures forall k :: 0 <= k < n ==> r[k] == a[k].Data()
  {
    seq(n, k requires 0 <= k < n && OwnsItems(a, n, repr) reads a, repr => a[k].Data())
  }

  function FirstItem(items: seq<ItemData>, name: string): (i: nat)
    ensures i <= |items|
    ensures i < |items| ==> SameName(items[i].item.name, name, items[i].caseSensitive)
    ensures forall k :: 0 <= k < i ==> !SameName(items[k].item.name, name, items[k].caseSensitive)
  {
    if items == [] || SameName(items[0].item.name, name, items[0].caseSensitive) then 0
    else 1 + FirstItem(items[1..], name)
  }

  lemma {:induction false} FirstItemIs(items: seq<ItemData>, name: string, i: nat)
    requires i <= |items|
    requires i < |items| ==> SameName(items[i].item.name, name, items[i].caseSensitive)
    requires forall k :: 0 <= k < i ==> !SameName(items[k].item.name, name, items[k].caseSensitive)
    ensures i == FirstItem(items, name)
  {
    if items != [] && i > 0 {
      assert !SameName(items[0].item.name, name, items[0].caseSensitive);
      forall k | 0 <= k < i - 1
        ensures !SameName(items[1..][k].item.name, name, items[1..][k].caseSensitive)
      {
        assert items[1..][k] == items[k + 1];
      }
      FirstItemIs(items[1..], name, i - 1);
    }
  }

  lemma TakeNext<T>(s: seq<T>, i: nat)
    requires i < |s|
    ensures s[..i + 1] == s[..i] + [s[i]]
  {
  }

  lemma TakeAll<T>(s: seq<T>)
    ensures s[..|s|] == s
  {
  }

  /** One more item in the next free cell. */
  method StoreItem(a: array<ConfigurationItem?>, n: nat, ghost repr: set<object>, item: ConfigurationItem)
    requires OwnsItems(a, n, repr) && n < a.Length
    requires item.Valid() && item !in repr && item.values !in repr
    modifies a
    ensures OwnsItems(a, n + 1, repr + {item, item.values})
    ensures ItemsIn(a, n + 1, repr + {item, item.values}) == old(ItemsIn(a, n, repr)) + [item.Data()]
    ensures item.Valid() && item.Data() == old(item.Data())
  {
    ghost var before := ItemsIn(a, n, repr);
    a[n] := item;
    assert forall k :: 0 <= k < n ==> a[k].Data() == before[k];
  }

  /** A copy of an item in the next free cell. */
  method StoreCopy(a: array<ConfigurationItem?>, n: nat, ghost repr: set<object>, source: ConfigurationItem, bufferStep: nat)
    returns (ghost repr': set<object>)
    requires OwnsItems(a, n, repr) && n < a.Length && source.Valid() && bufferStep >= 1
    modifies a
    ensures repr <= repr' && fresh(repr' - repr) && OwnsItems(a, n + 1, repr')
    ensures ItemsIn(a, n + 1, repr') == old(ItemsIn(a, n, repr)) + [old(source.Data())]
  {
    var copy := ConfigurationItem.Copy(source, bufferStep);
    StoreItem(a, n, repr, copy);
    repr' := repr + {copy, copy.values};
  }

  /** Copies of the first n items in a new array. */
  method CopyItems(a: array<ConfigurationItem?>, n: nat, ghost repr: set<object>, size: nat, bufferStep: nat)
    returns (copies: array<ConfigurationItem?>, ghost copiesRepr: set<object>)
    requires OwnsItems(a, n, repr) && n <= size && bufferStep >= 1
    ensures fresh(copiesRepr) && OwnsItems(copies, n, copiesRepr) && copies.Length == size
    ensures ItemsIn(copies, n, copiesRepr) == old(ItemsIn(a, n, repr))
  {
    hide ConfigurationItem.Valid, ConfigurationItem.Data;
    copies := new ConfigurationItem?[size](_ => null);
    copiesRepr := {copies};
    ghost var data := ItemsIn(a, n, repr);
    for i := 0 to n
      invariant fresh(copiesRepr) && OwnsItems(copies, i, copiesRepr)
      invariant ItemsIn(copies, i, copiesRepr) == data[..i]
    {
      TakeNext(data, i);
      assert a[i].Data() == data[i];
      copiesRepr := StoreCopy(copies, i, copiesRepr, a[i], bufferStep);
    }
  }

  /** A value appended to the item in cell i. */
  method AppendToCell(a: array<ConfigurationItem?>, n: nat, ghost repr: set<object>, i: nat, value: string)
    returns (ghost repr': set<object>)
    requires OwnsItems(a, n, repr) && i < n
    modifies a[i], a[i].values
    ensures repr <= repr' && fresh(repr' - repr) && OwnsItems(a, n, repr')
    ensures ItemsIn(a, n, repr') == old(ItemsIn(a, n, repr))[i := WithValue(old(ItemsIn(a, n, repr))[i], value)]
  {
    ghost var before := ItemsIn(a, n, repr);
    a[i].AppendItemValue(value);
    repr' := repr + {a[i].values};
    assert forall k :: 0 <= k < n && k != i ==> a[k].Data() == before[k];
  }

  class ConfigurationSection {
    var name: string
    var comment: string
    var date: Option<string>
    var caseSensitive: bool
    var step: nat
    var itemsNumber: nat
    var items: array<ConfigurationItem?>
    ghost var Repr: set<object>

    ghost predicate Valid()
      reads this, Repr
      ensures Valid() ==> this in Repr
    {
      && this in Repr
      && items in Repr
      && step >= 1
      && OwnsItems(items, itemsNumber, Repr)
    }

    ghost function Items(): (r: seq<ItemData>)
      requires Valid()
      reads this, Repr
      ensures |r| == itemsNumber
    {
      ItemsIn(items, itemsNumber, Repr)
    }

    ghost function Data(): SectionData
      requires Valid()
      reads this, Repr
    {
      SectionData(name, comment, date, caseSensitive, Items())
    }

    constructor (name: string, comment: string, date: Option<string>, caseSensitive: bool, step: nat)
      requires step >= 1
      ensures Valid() && fresh(Repr)
      ensures Data() == SectionData(name, comment, date, caseSensitive, [])
    {
      this.name, this.comment, this.date, this.caseSensitive := name, comment, date, caseSensitive;
      this.step, itemsNumber := step, 0;
      items := new ConfigurationItem?[step](_ => null);
      new;
      Repr := {this, items};
    }

    /** appendCfgItem: a copy of the item is added at the end. */
    method AppendCfgItem(source: ConfigurationItem, bufferStep: nat)
      requires Valid() && source.Valid() && bufferStep >= 1
      modifies Repr
      ensures Valid() && fresh(Repr - old(Repr))
      ensures Data() == old(Data()).(items := old(Items()) + [old(source.Data())])
      ensures items.Length == old(items.Length) + if old(itemsNumber == items.Length) then step else 0
    {
      hide ConfigurationItem.Valid, ConfigurationItem.Data;
      if itemsNumber == items.Length {
        Grow(bufferStep);
      }
      ghost var repr := StoreCopy(items, itemsNumber, Repr, source, bufferStep);
      itemsNumber := itemsNumber + 1;
      Repr := repr;
    }

    /** Append a copy of item i of another section (getCfgItemByIndex, then appendCfgItem). */
    method AppendCopy(source: ConfigurationSection, i: nat, bufferStep: nat)
      requires Valid() && source.Valid() && i < source.itemsNumber && source.Repr !! Repr && bufferStep >= 1
      modifies Repr
      ensures Valid() && fresh(Repr - old(Repr))
      ensures Data() == old(Data()).(items := old(Items()) + [old(source.Items())[i]])
    {
      var item := ConfigurationItem.Copy(source.items[i], bufferStep);
      AppendCfgItem(item, bufferStep);
    }

    /** A full array is replaced by a longer one with copies of the items. */
    method Grow(bufferStep: nat)
      requires Valid() && itemsNumber == items.Length && bufferStep >= 1
      modifies this
      ensures Valid() && fresh(Repr - {this}) && Data() == old(Data())
      ensures items.Length == old(items.Length) + step && itemsNumber == old(itemsNumber) && step == old(step)
    {
      ghost var larger;
      items, larger := CopyItems(items, itemsNumber, Repr, items.Length + step, bufferStep);
      Repr := {this} + larger;
      assert OwnsItems(items, itemsNumber, Repr);
      assert ItemsIn(items, itemsNumber, Repr) == ItemsIn(items, itemsNumber, larger);
    }

    /** getPtrCfgItemByName: the index of the first item with the name. */
    method FindItem(itemName: string) returns (i: nat)
      requires Valid()
      ensures i == FirstItem(Items(), itemName) <= |Items()|
      ensures i < |Items()| ==> NamesAgree(Items()[i].item.name, itemName, Items()[i].caseSensitive)
      ensures forall k :: 0 <= k < i ==> !NamesAgree(Items()[k].item.name, itemName, Items()[k].caseSensitive)
    {
      hide SameName, NamesAgree;
      i := 0;
      while i < itemsNumber
        invariant i <= itemsNumber
        invariant forall k :: 0 <= k < i ==> !SameName(Items()[k].item.name, itemName, Items()[k].caseSensitive)
        invariant forall k :: 0 <= k < i ==> !NamesAgree(Items()[k].item.name, itemName, Items()[k].caseSensitive)
      {
        SameNameMeans(items[i].name, itemName, items[i].caseSensitive);
        assert Items()[i] == items[i].Data();
        if SameName(items[i].name, itemName, items[i].caseSensitive) {
          break;
        }
        i := i + 1;
      }
      FirstItemIs(Items(), itemName, i);
    }

    /** Append a value through the pointer to item i. */
    method AppendToItem(i: nat, value: string)
      requires Valid() && i < itemsNumber
      modifies Repr
      ensures Valid() && fresh(Repr - old(Repr))
      ensures Data() == old(Data()).(items := old(Items())[i := WithValue(old(Items())[i], value)])
    {
      ghost var repr := AppendToCell(items, itemsNumber, Repr, i, value);
      Repr := repr;
    }

    /** copy: the same name, comment, date, case flag and items. */
    static method Copy(source: ConfigurationSection, itemStep: nat, bufferStep: nat) returns (copy: ConfigurationSection)
      requires source.Valid() && itemStep >= 1 && bufferStep >= 1
      ensures fresh(copy) && fresh(copy.Repr) && copy.Valid() && copy.Data() == old(source.Data())
    {
      ghost var data := source.Data();
      copy := new ConfigurationSection(source.name, source.comment, source.date, source.caseSensitive, itemStep);
      for i := 0 to source.itemsNumber
        invariant fresh(copy) && fresh(copy.Repr) && copy.Valid()
        invariant copy.Data() == data.(items := data.items[..i])
      {
        TakeNext(data.items, i);
        copy.AppendCopy(source, i, bufferStep);
      }
      TakeAll(data.items);
    }
  }

  function WithValue(data: ItemData, value: string): ItemData {
    data.(item := data.item.(values := data.item.values + [value]))
  }
}
