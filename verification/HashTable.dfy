/**
 What a probing table means, on plain sequences: which cells hold a mathematical map, and
 how filling, freeing and replacing one cell change that map.
 */
module HashTable {
  import opened Probing

  datatype Status = EmptyCell | ValidCell | DeletedCell

  datatype Pair<K, V> = Pair(first: K, second: V)

  /** A cell of `tableData`: a pointer that is meaningful only where the status is VALID_CELL. */
  datatype Slot<K, V> = Unset | Holds(pair: Pair<K, V>)

  /** The hash functor: a first hash and a second hash that must be odd. */
  datatype Hasher<!K> = Hasher(first: K -> int, second: K -> int) {
    function At(k: K, j: nat, size: nat): (c: nat)
      requires size > 0
      ensures c < size
    {
      Cell(first(k), second(k), j, size)
    }
  }

  ghost predicate OddSteps<K(!new)>(h: Hasher<K>) {
    forall k: K :: h.second(k) % 2 == 1
  }

  /** The first n cells of the probe path of k are not empty. */
  ghost predicate PathOccupied<K>(h: Hasher<K>, st: seq<Status>, k: K, n: nat)
    requires |st| > 0
  {
    forall j: nat :: j < n ==> st[h.At(k, j, |st|)] != EmptyCell
  }

  /** The first n cells of the probe path of k are VALID: the next one is the first free cell. */
  ghost predicate AllValid<K>(h: Hasher<K>, st: seq<Status>, k: K, n: nat)
    requires |st| > 0
  {
    forall j: nat :: j < n ==> st[h.At(k, j, |st|)] == ValidCell
  }

  lemma NoneYet<K>(h: Hasher<K>, st: seq<Status>, k: K)
    requires |st| > 0
    ensures AllValid(h, st, k, 0)
  {
  }

  lemma OneMoreValid<K>(h: Hasher<K>, st: seq<Status>, k: K, n: nat)
    requires |st| > 0 && AllValid(h, st, k, n) && st[h.At(k, n, |st|)] == ValidCell
    ensures AllValid(h, st, k, n + 1)
  {
  }

  /** Key k is stored, with value v, at the j-th cell of its probe path. */
  ghost predicate StoredAt<K, V>(h: Hasher<K>, st: seq<Status>, da: seq<Slot<K, V>>, k: K, v: V, j: nat)
    requires |st| == |da| > 0
  {
    && j < |st|
    && st[h.At(k, j, |st|)] == ValidCell
    && da[h.At(k, j, |st|)] == Holds(Pair(k, v))
    && PathOccupied(h, st, k, j)
  }

  /** Key k of the map is stored where `at` says. */
  ghost predicate KeyOk<K, V>(h: Hasher<K>, st: seq<Status>, da: seq<Slot<K, V>>, m: map<K, V>, at: map<K, nat>, k: K)
    requires |st| == |da| > 0 && k in m && k in at
  {
    StoredAt(h, st, da, k, m[k], at[k])
  }

  /** A VALID cell holds a key of the map, and is where `at` puts that key. */
  ghost predicate CellOk<K, V>(h: Hasher<K>, st: seq<Status>, da: seq<Slot<K, V>>, at: map<K, nat>, p: int)
    requires |st| == |da| > 0 && 0 <= p < |st|
  {
    st[p] == ValidCell ==>
      && da[p].Holds?
      && da[p].pair.first in at
      && h.At(da[p].pair.first, at[da[p].pair.first], |st|) == p
  }

  /** The cells represent the map m; `at` gives the probe number at which each key sits.
      Since `at` is a function of the key, no key sits in two cells. */
  ghost predicate Represents<K, V>(h: Hasher<K>, st: seq<Status>, da: seq<Slot<K, V>>, m: map<K, V>, at: map<K, nat>)
  {
    && |st| == |da| > 0
    && at.Keys == m.Keys
    && (forall k {:trigger KeyOk(h, st, da, m, at, k)} :: k in m ==> KeyOk(h, st, da, m, at, k))
    && (forall p {:trigger CellOk(h, st, da, at, p)} :: 0 <= p < |st| ==> CellOk(h, st, da, at, p))
  }

  function Count(st: seq<Status>, x: Status): nat {
    multiset(st)[x]
  }

  lemma {:induction false} CountsAddUp(st: seq<Status>)
    ensures Count(st, EmptyCell) + Count(st, ValidCell) + Count(st, DeletedCell) == |st|
  {
    if st != [] {
      CountsAddUp(st[1..]);
      assert st == [st[0]] + st[1..];
      assert multiset(st) == multiset{st[0]} + multiset(st[1..]);
      match st[0] {
        case EmptyCell =>
        case ValidCell =>
        case DeletedCell =>
      }
    }
  }

  /** There is an empty cell exactly when VALID and DELETED cells number less than the size. */
  lemma RoomIsCounted(st: seq<Status>)
    ensures EmptyCell in st <==> Count(st, ValidCell) + Count(st, DeletedCell) < |st|
  {
    CountsAddUp(st);
    assert EmptyCell in st <==> EmptyCell in multiset(st);
  }

  lemma CountAfterUpdate(st: seq<Status>, p: nat, x: Status, y: Status)
    requires p < |st|
    ensures Count(st[p := x], y)
         == Count(st, y) - (if st[p] == y then 1 else 0) + (if x == y then 1 else 0)
  {
  }

  /** What a lookup may conclude after examining j cells without finding k or a hole. */
  ghost predicate Missed<K, V>(h: Hasher<K>, st: seq<Status>, da: seq<Slot<K, V>>, k: K, n: nat)
    requires |st| == |da| > 0
  {
    forall j: nat :: j < n ==>
      var c := h.At(k, j, |st|);
      && st[c] != EmptyCell
      && !(st[c] == ValidCell && da[c].Holds? && da[c].pair.first == k)
  }

  lemma MissedThenAbsent<K, V>(h: Hasher<K>, st: seq<Status>, da: seq<Slot<K, V>>, m: map<K, V>, at: map<K, nat>, k: K, n: nat)
    requires Represents(h, st, da, m, at)
    requires Missed(h, st, da, k, n) && st[h.At(k, n, |st|)] == EmptyCell
    ensures k !in m
  {
    assert k in m ==> KeyOk(h, st, da, m, at, k);
  }

  /** A VALID cell with key k holds k's current value. */
  lemma CellHoldsValue<K, V>(h: Hasher<K>, st: seq<Status>, da: seq<Slot<K, V>>, m: map<K, V>, at: map<K, nat>, p: nat)
    requires Represents(h, st, da, m, at) && p < |st| && st[p] == ValidCell
    ensures da[p].Holds? && da[p].pair.first in m && da[p].pair.second == m[da[p].pair.first]
  {
    assert CellOk(h, st, da, at, p);
    assert KeyOk(h, st, da, m, at, da[p].pair.first);
  }

  /** With a hole in the table, every probe sequence reaches one within `size` steps. */
  lemma HoleIsReached<K(!new)>(h: Hasher<K>, st: seq<Status>, k: K) returns (e: nat)
    requires IsPow2(|st|) && OddSteps(h) && EmptyCell in st
    ensures e < |st| && st[h.At(k, e, |st|)] == EmptyCell
  {
    var p :| 0 <= p < |st| && st[p] == EmptyCell;
    ProbesCoverTheTable(h.first(k), h.second(k), |st|, p);
    e :| e < |st| && Cell(h.first(k), h.second(k), e, |st|) == p;
  }

  /** In a table without holes a search for an absent key never stops: no probe, however
      late, meets a hole or the key. */
  lemma SearchNeverStopsWhenFull<K, V>(h: Hasher<K>, st: seq<Status>, da: seq<Slot<K, V>>, m: map<K, V>, at: map<K, nat>, k: K, n: nat)
    requires Represents(h, st, da, m, at)
    requires EmptyCell !in st && k !in m
    ensures Missed(h, st, da, k, n)
  {
    forall j: nat | j < n
      ensures CellOk(h, st, da, at, h.At(k, j, |st|))
    {
    }
  }

  /** Filling a cell that is empty or a tombstone adds one key. */
  lemma FillCell<K, V>(h: Hasher<K>, st: seq<Status>, da: seq<Slot<K, V>>, m: map<K, V>, at: map<K, nat>, k: K, v: V, j: nat)
    requires Represents(h, st, da, m, at)
    requires k !in m && j < |st| && PathOccupied(h, st, k, j)
    requires st[h.At(k, j, |st|)] != ValidCell
    ensures var p := h.At(k, j, |st|);
            Represents(h, st[p := ValidCell], da[p := Holds(Pair(k, v))], m[k := v], at[k := j])
  {
    var p := h.At(k, j, |st|);
    var st', da', m', at' := st[p := ValidCell], da[p := Holds(Pair(k, v))], m[k := v], at[k := j];
    forall x | x in m'
      ensures KeyOk(h, st', da', m', at', x)
    {
      assert x != k ==> KeyOk(h, st, da, m, at, x);
    }
    forall q | 0 <= q < |st'|
      ensures CellOk(h, st', da', at', q)
    {
      assert CellOk(h, st, da, at, q);
    }
  }

  /** Turning a stored key's cell into a tombstone removes that key and no other. */
  lemma FreeCell<K, V>(h: Hasher<K>, st: seq<Status>, da: seq<Slot<K, V>>, m: map<K, V>, at: map<K, nat>, k: K, p: nat)
    requires Represents(h, st, da, m, at)
    requires p < |st| && st[p] == ValidCell && da[p].Holds? && da[p].pair.first == k
    ensures k in m
    ensures Represents(h, st[p := DeletedCell], da, m - {k}, at - {k})
  {
    var st', m', at' := st[p := DeletedCell], m - {k}, at - {k};
    assert CellOk(h, st, da, at, p);
    forall x | x in m'
      ensures KeyOk(h, st', da, m', at', x)
    {
      assert KeyOk(h, st, da, m, at, x);
    }
    forall q | 0 <= q < |st'|
      ensures CellOk(h, st', da, at', q)
    {
      assert CellOk(h, st, da, at, q);
    }
  }

  /** Replacing the pair in a stored key's cell updates its value. */
  lemma ReplaceCell<K, V>(h: Hasher<K>, st: seq<Status>, da: seq<Slot<K, V>>, m: map<K, V>, at: map<K, nat>, k: K, v: V, p: nat)
    requires Represents(h, st, da, m, at)
    requires p < |st| && st[p] == ValidCell && da[p].Holds? && da[p].pair.first == k
    ensures k in m
    ensures Represents(h, st, da[p := Holds(Pair(k, v))], m[k := v], at)
  {
    var da', m' := da[p := Holds(Pair(k, v))], m[k := v];
    assert CellOk(h, st, da, at, p);
    forall x | x in m'
      ensures KeyOk(h, st, da', m', at, x)
    {
      assert KeyOk(h, st, da, m, at, x);
    }
    forall q | 0 <= q < |st|
      ensures CellOk(h, st, da', at, q)
    {
      assert CellOk(h, st, da, at, q);
    }
  }

  lemma EmptyTable<K, V>(h: Hasher<K>, st: seq<Status>, da: seq<Slot<K, V>>)
    requires |st| == |da| > 0
    requires forall p :: 0 <= p < |st| ==> st[p] == EmptyCell
    ensures Represents(h, st, da, map[], map[])
    ensures Count(st, ValidCell) == Count(st, DeletedCell) == 0 && EmptyCell in st
  {
    assert st[0] == EmptyCell;
    assert ValidCell !in multiset(st) && DeletedCell !in multiset(st);
  }

  // ---------------------------------------------------------------- rehashing

  /** The part of the map stored in the first n cells. */
  ghost function StoredBelow<K, V>(h: Hasher<K>, size: nat, m: map<K, V>, at: map<K, nat>, n: nat): map<K, V>
    requires size > 0 && at.Keys == m.Keys
  {
    map k | k in m && h.At(k, at[k], size) < n :: m[k]
  }

  lemma RepresentsShape<K, V>(h: Hasher<K>, st: seq<Status>, da: seq<Slot<K, V>>, m: map<K, V>, at: map<K, nat>)
    requires Represents(h, st, da, m, at)
    ensures |st| == |da| > 0 && at.Keys == m.Keys
  {
  }

  lemma StoredBelowNext<K, V>(h: Hasher<K>, st: seq<Status>, da: seq<Slot<K, V>>, m: map<K, V>, at: map<K, nat>, n: nat)
    requires Represents(h, st, da, m, at) && n < |st|
    ensures st[n] != ValidCell ==> StoredBelow(h, |st|, m, at, n + 1) == StoredBelow(h, |st|, m, at, n)
    ensures st[n] == ValidCell ==>
              && da[n].Holds?
              && da[n].pair.first !in StoredBelow(h, |st|, m, at, n)
              && StoredBelow(h, |st|, m, at, n + 1) == StoredBelow(h, |st|, m, at, n)[da[n].pair.first := da[n].pair.second]
              && |StoredBelow(h, |st|, m, at, n)| < |m|
  {
    var b := StoredBelow(h, |st|, m, at, n);
    forall k | k in m && h.At(k, at[k], |st|) == n
      ensures st[n] == ValidCell && da[n] == Holds(Pair(k, m[k]))
    {
      assert KeyOk(h, st, da, m, at, k);
    }
    assert CellOk(h, st, da, at, n);
    if st[n] == ValidCell {
      var k := da[n].pair.first;
      assert k in m && k !in b;
      assert b.Keys <= m.Keys - {k};
      SubsetSize(b.Keys, m.Keys - {k});
    }
  }

  lemma {:induction false} SubsetSize<T>(a: set<T>, b: set<T>)
    requires a <= b
    ensures |a| <= |b|
  {
    assert b == a + (b - a);
  }

  lemma StoredBelowAll<K, V>(h: Hasher<K>, size: nat, m: map<K, V>, at: map<K, nat>)
    requires size > 0 && at.Keys == m.Keys
    ensures StoredBelow(h, size, m, at, 0) == map[]
    ensures StoredBelow(h, size, m, at, size) == m
  {
  }
  // ---------------------------------------------------------------- iteration

  /** The stored pairs of the cells from i on, in cell order. */
  ghost function PairsFrom<K, V>(st: seq<Status>, da: seq<Slot<K, V>>, i: nat): seq<Pair<K, V>>
    requires |st| == |da| && i <= |st|
    decreases |st| - i
  {
    if i == |st| then []
    else if st[i] == ValidCell && da[i].Holds? then [da[i].pair] + PairsFrom(st, da, i + 1)
    else PairsFrom(st, da, i + 1)
  }

  lemma {:induction false} PairsFromCount<K, V>(h: Hasher<K>, st: seq<Status>, da: seq<Slot<K, V>>, m: map<K, V>, at: map<K, nat>, i: nat)
    requires Represents(h, st, da, m, at) && i <= |st|
    ensures |PairsFrom(st, da, i)| == Count(st[i..], ValidCell)
    decreases |st| - i
  {
    if i < |st| {
      PairsFromCount(h, st, da, m, at, i + 1);
      assert st[i..] == [st[i]] + st[i + 1..];
      assert multiset(st[i..]) == multiset{st[i]} + multiset(st[i + 1..]);
      assert CellOk(h, st, da, at, i);
    }
  }

  /** Every pair met from cell i on belongs to the map and sits at cell i or later. */
  ghost predicate Later<K, V>(h: Hasher<K>, m: map<K, V>, at: map<K, nat>, size: nat, i: nat, p: Pair<K, V>)
    requires size > 0 && at.Keys == m.Keys
  {
    p.first in m && m[p.first] == p.second && h.At(p.first, at[p.first], size) >= i
  }

  ghost predicate AllLater<K, V>(h: Hasher<K>, m: map<K, V>, at: map<K, nat>, size: nat, i: nat, ps: seq<Pair<K, V>>)
    requires size > 0 && at.Keys == m.Keys
  {
    forall a :: 0 <= a < |ps| ==> Later(h, m, at, size, i, ps[a])
  }

  ghost predicate DistinctKeys<K, V>(ps: seq<Pair<K, V>>) {
    forall a, b :: 0 <= a < b < |ps| ==> ps[a].first != ps[b].first
  }

  lemma {:induction false} PairsFromAreLater<K, V>(h: Hasher<K>, st: seq<Status>, da: seq<Slot<K, V>>, m: map<K, V>, at: map<K, nat>, i: nat)
    requires Represents(h, st, da, m, at) && i <= |st|
    ensures AllLater(h, m, at, |st|, i, PairsFrom(st, da, i)) && DistinctKeys(PairsFrom(st, da, i))
    decreases |st| - i
  {
    if i < |st| {
      PairsFromAreLater(h, st, da, m, at, i + 1);
      assert CellOk(h, st, da, at, i);
      if st[i] == ValidCell {
        CellHoldsValue(h, st, da, m, at, i);
        AddFirst(h, m, at, |st|, i, da[i].pair, PairsFrom(st, da, i + 1));
      }
    }
  }

  lemma AddFirst<K, V>(h: Hasher<K>, m: map<K, V>, at: map<K, nat>, size: nat, i: nat, p: Pair<K, V>, rest: seq<Pair<K, V>>)
    requires size > 0 && at.Keys == m.Keys
    requires p.first in m && m[p.first] == p.second && h.At(p.first, at[p.first], size) == i
    requires AllLater(h, m, at, size, i + 1, rest) && DistinctKeys(rest)
    ensures AllLater(h, m, at, size, i, [p] + rest) && DistinctKeys([p] + rest)
  {
    forall b | 0 <= b < |rest|
      ensures Later(h, m, at, size, i, rest[b]) && rest[b].first != p.first
    {
      assert Later(h, m, at, size, i + 1, rest[b]);
    }
  }

  lemma {:induction false} PairsFromHas<K, V>(h: Hasher<K>, st: seq<Status>, da: seq<Slot<K, V>>, m: map<K, V>, at: map<K, nat>, i: nat, k: K)
    requires Represents(h, st, da, m, at) && i <= |st|
    requires k in m && h.At(k, at[k], |st|) >= i
    ensures Pair(k, m[k]) in PairsFrom(st, da, i)
    decreases |st| - i
  {
    assert KeyOk(h, st, da, m, at, k);
    if h.At(k, at[k], |st|) > i {
      PairsFromHas(h, st, da, m, at, i + 1, k);
    }
  }

  lemma PairsAreTheMap<K, V>(h: Hasher<K>, st: seq<Status>, da: seq<Slot<K, V>>, m: map<K, V>, at: map<K, nat>)
    requires Represents(h, st, da, m, at)
    ensures |PairsFrom(st, da, 0)| == Count(st, ValidCell)
    ensures forall p :: p in PairsFrom(st, da, 0) <==> p.first in m && m[p.first] == p.second
    ensures DistinctKeys(PairsFrom(st, da, 0))
  {
    PairsFromCount(h, st, da, m, at, 0);
    assert st[0..] == st;
    PairsFromAreLater(h, st, da, m, at, 0);
    forall p | p in PairsFrom(st, da, 0)
      ensures p.first in m && m[p.first] == p.second
    {
      var a :| 0 <= a < |PairsFrom(st, da, 0)| && PairsFrom(st, da, 0)[a] == p;
      assert Later(h, m, at, |st|, 0, PairsFrom(st, da, 0)[a]);
    }
    forall p: Pair<K, V> | p.first in m && m[p.first] == p.second
      ensures p in PairsFrom(st, da, 0)
    {
      PairsFromHas(h, st, da, m, at, 0, p.first);
    }
  }
}
