/**
 The item object: a name, a comment, and an array of values that grows by whole steps and
 shifts in place. Its contents behave as a plain list.
 */
module ConfigItems {
  import opened ConfigModel
  import Probing

  /** What an item, a section and a configuration hold, whatever their capacities. */
  datatype ItemData = ItemData(item: Item, caseSensitive: bool)

  datatype SectionData = SectionData(name: string, comment: string, date: Option<string>, caseSensitive: bool, items: seq<ItemData>)

  datatype ConfigData = ConfigData(name: string, caseSensitive: bool, sections: seq<SectionData>)

  function Lower(c: char): char {
    if 'A' <= c <= 'Z' then c - 'A' + 'a' else c
  }

  function LowerAll(s: string): (r: string)
    ensures |r| == |s|
    ensures forall i :: 0 <= i < |s| ==> r[i] == Lower(s[i])
  {
    seq(|s|, i requires 0 <= i < |s| => Lower(s[i]))
  }

  /** operator ==: strcmp, or strcasecmp if the object is not case sensitive. */
  predicate SameName(name: string, other: string, caseSensitive: bool) {
    if caseSensitive then name == other else LowerAll(name) == LowerAll(other)
  }

  /** The same character, or the two cases of one letter A to Z. */
  predicate SameLetter(c: char, d: char) {
    || c == d
    || ('A' <= c <= 'Z' && d as int - c as int == 32)
    || ('A' <= d <= 'Z' && c as int - d as int == 32)
  }

  predicate SameLetters(a: string, b: string) {
    |a| == |b| && forall i :: 0 <= i < |a| ==> SameLetter(a[i], b[i])
  }

  /** The names agree as they are or, without case sensitivity, letter by letter. */
  predicate NamesAgree(name: string, other: string, caseSensitive: bool) {
    if caseSensitive then name == other else SameLetters(name, other)
  }

  lemma SameNameMeans(name: string, other: string, caseSensitive: bool)
    ensures SameName(name, other, caseSensitive) <==> NamesAgree(name, other, caseSensitive)
  {
    var a, b := LowerAll(name), LowerAll(other);
    if SameLetters(name, other) {
      assert forall i :: 0 <= i < |a| ==> SameLetter(name[i], other[i]) && a[i] == b[i];
      assert a == b;
    }
    if a == b {
      forall i | 0 <= i < |name|
        ensures SameLetter(name[i], other[i])
      {
        assert a[i] == b[i];
      }
    }
  }

  /** List insertion; an index past the end appends. */
  function Inserted(values: seq<string>, value: string, index: nat): (r: seq<string>)
    ensures |r| == |values| + 1
  {
    var i := if index <= |values| then index else |values|;
    values[..i] + [value] + values[i..]
  }

  /** The new value is at the index, or at the end; the others keep their order around it. */
  lemma InsertedMeans(values: seq<string>, value: string, index: nat)
    ensures var r, i := Inserted(values, value, index), if index <= |values| then index else |values|;
            && r[i] == value
            && (forall k :: 0 <= k < i ==> r[k] == values[k])
            && (forall k :: i <= k < |values| ==> r[k + 1] == values[k])
  {
  }

  class ConfigurationItem {
    var name: string
    var comment: string
    var caseSensitive: bool
    var step: nat
    var valuesNumber: nat
    var values: array<Option<string>>

    ghost predicate Valid()
      reads this, values
    {
      && step >= 1
      && valuesNumber <= values.Length
      && forall k :: 0 <= k < valuesNumber ==> values[k].Some?
    }

    /** The capacity is a whole number of steps. */
    ghost predicate WholeSteps()
      requires Valid()
      reads this, values
    {
      values.Length % step == 0
    }

    ghost function Values(): (r: seq<string>)
      requires Valid()
      reads this, values
      ensures |r| == valuesNumber
    {
      seq(valuesNumber, k requires 0 <= k < valuesNumber && Valid() reads this, values => values[k].value)
    }

    ghost function Data(): ItemData
      requires Valid()
      reads this, values
    {
      ItemData(Item(name, comment, Values()), caseSensitive)
    }

    ghost function Repr(): set<object>
      reads this
    {
      {this, values}
    }

    constructor (name: string, comment: string, caseSensitive: bool, step: nat)
      requires step >= 1
      ensures Valid() && fresh(values) && this.step == step == values.Length && WholeSteps()
      ensures Data() == ItemData(Item(name, comment, []), caseSensitive)
    {
      this.name, this.comment, this.caseSensitive, this.step := name, comment, caseSensitive, step;
      valuesNumber := 0;
      values := new Option<string>[step](_ => None);
    }

    /** A full array is replaced by one that is a step longer. */
    method Grow()
      requires Valid() && valuesNumber == values.Length
      modifies this`values
      ensures Valid() && fresh(values) && values.Length == old(values.Length) + step
      ensures old(WholeSteps()) ==> WholeSteps()
      ensures Values() == old(Values())
    {
      var larger := new Option<string>[values.Length + step](_ => None);
      for i := 0 to larger.Length
        invariant Valid() && values == old(values) && valuesNumber == values.Length && Values() == old(Values())
        invariant forall k :: 0 <= k < i ==> larger[k] == if k < valuesNumber then values[k] else None
      {
        larger[i] := if i < valuesNumber then values[i] else None;
      }
      if values.Length % step == 0 {
        StepsAdd(values.Length, step);
      }
      values := larger;
    }

    method InsertItemValue(value: string, index: nat)
      requires Valid()
      modifies this`values, this`valuesNumber, values
      ensures Valid() && Values() == Inserted(old(Values()), value, index)
      ensures values == old(values) || fresh(values)
      ensures values.Length == old(values.Length) + if old(valuesNumber == values.Length) then step else 0
      ensures old(WholeSteps()) ==> WholeSteps()
    {
      if valuesNumber == values.Length {
        Grow();
      }
      ShiftIn(value, index);
    }

    /** The values from `index` on move up by one, the last one first; the new value takes the
        place that becomes free. */
    method ShiftIn(value: string, index: nat)
      requires Valid() && valuesNumber < values.Length
      modifies this`valuesNumber, values
      ensures Valid() && Values() == Inserted(old(Values()), value, index)
    {
      ghost var before := Values();
      var i := valuesNumber;
      while i > index
        invariant i <= valuesNumber == |before| < values.Length
        invariant index <= valuesNumber ==> i >= index
        invariant index > valuesNumber ==> i == valuesNumber
        invariant forall k :: 0 <= k < i ==> values[k] == Some(before[k])
        invariant forall k :: i < k <= valuesNumber ==> values[k] == Some(before[k - 1])
      {
        values[i] := values[i - 1];
        values[i - 1] := None;
        i := i - 1;
      }
      values[i] := Some(value);
      valuesNumber := valuesNumber + 1;
      ghost var after := Inserted(before, value, index);
      assert forall k :: 0 <= k < valuesNumber ==> values[k] == Some(after[k]);
      assert forall k :: 0 <= k < valuesNumber ==> Values()[k] == values[k].value;
      assert Values() == after;
    }

    method AppendItemValue(value: string)
      requires Valid()
      modifies this`values, this`valuesNumber, values
      ensures Valid() && Values() == old(Values()) + [value]
      ensures values == old(values) || fresh(values)
    {
      InsertItemValue(value, valuesNumber);
      assert old(Values())[..old(valuesNumber)] == old(Values());
    }

    /** Any run of insertions into an empty item is the same run on a list. */
    static method BuildByInsertions(step: nat, inserts: seq<(string, nat)>) returns (item: ConfigurationItem)
      requires step >= 1
      ensures fresh(item) && item.Valid() && item.Values() == AllInserted(inserts)
      ensures item.values.Length % step == 0 && |inserts| <= item.values.Length
    {
      hide Inserted, AllInserted;
      item := new ConfigurationItem("", "", true, step);
      NoneInserted(inserts);
      for i := 0 to |inserts|
        invariant fresh(item) && fresh(item.values) && item.Valid() && item.step == step && item.WholeSteps()
        invariant item.Values() == AllInserted(inserts[..i])
        invariant item.valuesNumber == i
      {
        OneMoreInserted(inserts, i);
        item.InsertItemValue(inserts[i].0, inserts[i].1);
      }
      assert inserts[..|inserts|] == inserts;
    }

    /** copy: the same name, comment, case flag and values, in an array with its own step. */
    static method Copy(source: ConfigurationItem, step: nat) returns (copy: ConfigurationItem)
      requires source.Valid() && step >= 1
      ensures fresh(copy) && fresh(copy.values) && copy.Valid() && copy.Data() == source.Data()
    {
      copy := new ConfigurationItem(source.name, source.comment, source.caseSensitive, step);
      for i := 0 to source.valuesNumber
        invariant fresh(copy) && fresh(copy.values) && copy.Valid() && source.Valid()
        invariant copy.name == source.name && copy.comment == source.comment && copy.caseSensitive == source.caseSensitive
        invariant copy.Values() == source.Values()[..i]
      {
        copy.AppendItemValue(source.values[i].value);
      }
    }
  }

  function AllInserted(inserts: seq<(string, nat)>): (r: seq<string>)
    ensures |r| == |inserts|
  {
    if inserts == [] then []
    else Inserted(AllInserted(inserts[..|inserts| - 1]), inserts[|inserts| - 1].0, inserts[|inserts| - 1].1)
  }

  lemma NoneInserted(inserts: seq<(string, nat)>)
    ensures AllInserted(inserts[..0]) == []
  {
  }

  lemma OneMoreInserted(inserts: seq<(string, nat)>, i: nat)
    requires i < |inserts|
    ensures AllInserted(inserts[..i + 1]) == Inserted(AllInserted(inserts[..i]), inserts[i].0, inserts[i].1)
  {
    assert inserts[..i + 1][..i] == inserts[..i];
  }

  lemma StepsAdd(n: nat, step: nat)
    requires step >= 1 && n % step == 0
    ensures (n + step) % step == 0
  {
    var q := n / step;
    assert n == q * step + n % step;
    assert (q + 1) * step == q * step + step;
    Probing.ExactMultiple(n + step, q + 1, step);
  }
}
