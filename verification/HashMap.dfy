/**
 The hash table class: open addressing with double hashing, tombstones and automatic
 rehashing, proved to be a finite map for every resize ratio up to one half.
 */
module HashMap {
  import opened Probing
  import opened HashTable

  /** Resize ratios the table works for; 0.5 is the default. */
  type Ratio = r: real | 0.0 < r <= 0.5 witness 0.5

  /** maxLengthTIMESresizeRatio */
  function Threshold(maxLength: nat, ratio: Ratio): (t: nat)
    ensures 2 * t <= maxLength
    ensures t as real <= maxLength as real * ratio < t as real + 1.0
  {
    ScaleIsMonotone(0.0, ratio, maxLength as real);
    ScaleIsMonotone(ratio, 0.5, maxLength as real);
    (maxLength as real * ratio).Floor
  }

  /** The size an insertion asks for when the table has reached its threshold. */
  function GrownLength(maxLength: nat, ratio: Ratio): (n: nat)
    ensures n >= 2 * maxLength
    ensures n as real <= maxLength as real / ratio < n as real + 1.0
  {
    GrowthAtLeastDoubles(maxLength as real, ratio);
    (maxLength as real / ratio).Floor
  }

  lemma HalfThreshold(n: nat)
    ensures Threshold(n, 0.5) == n / 2
  {
    assert n as real * 0.5 == n as real / 2.0;
    assert n == 2 * (n / 2) + n % 2;
    assert (n / 2) as real <= n as real * 0.5 < (n / 2) as real + 1.0;
  }

  lemma GrowthAtLeastDoubles(x: real, ratio: Ratio)
    requires x >= 0.0
    ensures x / ratio >= 2.0 * x
  {
    var q := x / ratio;
    assert q * ratio == x;
    if q < 2.0 * x {
      ScaleIsStrict(q, 2.0 * x, ratio);
      ScaleIsMonotone(ratio, 0.5, 2.0 * x);
    }
  }

  lemma ScaleIsStrict(a: real, b: real, c: real)
    requires a < b && c > 0.0
    ensures a * c < b * c
  {
  }

  lemma ScaleIsMonotone(a: real, b: real, c: real)
    requires a <= b && c >= 0.0
    ensures c * a <= c * b
  {
  }

  class HashMap<K(==,!new), V> {
    const hasher: Hasher<K>
    var resizeRatio: Ratio
    var maxLength: nat
    var currentLength: nat
    var numDeletedCells: nat
    var threshold: nat
    var tableData: array<Slot<K, V>>
    var tableStatus: array<Status>

    /** The map the table stands for, and the probe number at which each key is stored. */
    ghost var contents: map<K, V>
    ghost var probe: map<K, nat>

    /** What holds at every moment, also in the middle of a rehash (when `threshold` is stale). */
    ghost predicate Core()
      reads this, tableData, tableStatus
    {
      && OddSteps(hasher)
      && IsPow2(maxLength)
      && tableData.Length == tableStatus.Length == maxLength
      && Represents(hasher, tableStatus[..], tableData[..], contents, probe)
      && currentLength == |contents| == Count(tableStatus[..], ValidCell)
      && Count(tableStatus[..], DeletedCell) <= numDeletedCells
    }

    ghost predicate HasRoom()
      reads this, tableStatus
    {
      EmptyCell in tableStatus[..]
    }

    /** The invariant of every state a caller can see. */
    ghost predicate Valid()
      reads this, tableData, tableStatus
    {
      && Core()
      && HasRoom()
      && threshold == Threshold(maxLength, resizeRatio)
      && 2 * numDeletedCells < maxLength
    }

    /** No more tombstones are on record than the threshold allows. */
    ghost predicate TombstonesBounded()
      reads this
    {
      numDeletedCells == 0 || numDeletedCells < threshold
    }

    /** At the default ratio: no more pairs than the threshold, so that a Resize reinserts them all
        without meeting the stale threshold. */
    ghost predicate Light()
      reads this
    {
      resizeRatio == 0.5 && currentLength <= threshold
    }

    /** Cell i holds key k with its current value. */
    ghost predicate PointsTo(i: nat, k: K)
      reads this, tableData, tableStatus
    {
      && k in contents
      && i < tableData.Length == tableStatus.Length
      && tableStatus[i] == ValidCell
      && tableData[i] == Holds(Pair(k, contents[k]))
    }

    constructor (tableSize: nat, hasher: Hasher<K>, newResizeRatio: Ratio)
      requires OddSteps(hasher)
      ensures Valid() && contents == map[] && this.hasher == hasher && resizeRatio == newResizeRatio
      ensures TombstonesBounded()
      ensures newResizeRatio == 0.5 ==> Light()
      ensures maxLength == RoundUp(tableSize)
      ensures fresh(tableData) && fresh(tableStatus)
    {
      var size := RoundUpToPowerOfTwo(tableSize);
      var k: nat :| size == Pow2(k);
      this.hasher := hasher;
      resizeRatio := newResizeRatio;
      maxLength, currentLength, numDeletedCells := size, 0, 0;
      threshold := Threshold(size, newResizeRatio);
      var data := new Slot<K, V>[size](_ => Unset);
      var status := new Status[size](_ => EmptyCell);
      tableData, tableStatus := data, status;
      contents, probe := map[], map[];
      EmptyTable(hasher, status[..], data[..]);
    }

    /** find / Search: the cell of the key, or maxLength, which is where end() points. */
    method Search(key: K) returns (i: nat)
      requires Valid()
      ensures key in contents ==> PointsTo(i, key)
      ensures key !in contents ==> i == maxLength
    {
      var found, at, _ := FindPlace(key);
      i := if found then at else maxLength;
    }

    /** The probe loop shared by Search, InsertWithoutDuplication and Delete: it stops at the
        key, or at the first hole, in which case it reports the first tombstone on the way
        (or else the hole itself) as the place for the key. */
    method FindPlace(key: K) returns (found: bool, location: nat, ghost j: nat)
      requires Core() && HasRoom()
      ensures found <==> key in contents
      ensures found ==> PointsTo(location, key)
      ensures location < maxLength
      ensures !found ==>
                && j < maxLength
                && location == hasher.At(key, j, maxLength)
                && tableStatus[location] != ValidCell
                && PathOccupied(hasher, tableStatus[..], key, j)
                && AllValid(hasher, tableStatus[..], key, j)
    {
      hide AllValid, Represents, OddSteps, IsPow2, Count;
      ghost var st, da := tableStatus[..], tableData[..];
      RepresentsShape(hasher, st, da, contents, probe);
      NoneYet(hasher, st, key);
      ghost var hole := HoleIsReached(hasher, st, key);
      var hashLocation := hasher.first(key) % maxLength;
      var hashIncrement := hasher.second(key);
      var firstDeletedLocation := -1;
      ghost var firstDeleted := 0;
      j := 0;
      var timesInLoop := 0;
      while true
        invariant j <= hole && timesInLoop == j
        invariant hashLocation == hasher.At(key, j, maxLength)
        invariant Missed(hasher, st, da, key, j)
        invariant firstDeletedLocation == -1 ||
                  (firstDeleted < j
                   && firstDeletedLocation == hasher.At(key, firstDeleted, maxLength)
                   && tableStatus[firstDeletedLocation] == DeletedCell)
        invariant AllValid(hasher, st, key, if firstDeletedLocation == -1 then j else firstDeleted)
        decreases hole - j
      {
        match tableStatus[hashLocation] {
          case EmptyCell =>
            MissedThenAbsent(hasher, st, da, contents, probe, key, j);
            assert PathOccupied(hasher, st, key, j);
            if firstDeletedLocation != -1 {
              j := firstDeleted;
              return false, firstDeletedLocation, j;
            }
            return false, hashLocation, j;
          case DeletedCell =>
            if firstDeletedLocation == -1 {
              firstDeletedLocation, firstDeleted := hashLocation, j;
            }
          case ValidCell =>
            CellHoldsValue(hasher, st, da, contents, probe, hashLocation);
            if tableData[hashLocation].pair.first == key {
              return true, hashLocation, j;
            }
            if firstDeletedLocation == -1 {
              OneMoreValid(hasher, st, key, j);
            }
        }
        CellStep(hasher.first(key), hashIncrement, j, maxLength);
        hashLocation := (hashLocation + hashIncrement) % maxLength;
        j := j + 1;
        timesInLoop := timesInLoop + 1;
        if timesInLoop > maxLength {
          assert false;  // the "searched entire table" fallback is never reached
        }
      }
    }

    /** AssignToCell: write the pair, mark the cell, count it. */
    method AssignToCell(hashLocation: nat, key: K, value: V, ghost j: nat)
      requires Core() && key !in contents && j < maxLength
      requires hashLocation == hasher.At(key, j, maxLength)
      requires tableStatus[hashLocation] != ValidCell
      requires PathOccupied(hasher, tableStatus[..], key, j)
      modifies this, tableData, tableStatus
      ensures Core() && contents == old(contents)[key := value] && PointsTo(hashLocation, key)
      ensures tableData == old(tableData) && tableStatus == old(tableStatus)
      ensures maxLength == old(maxLength) && threshold == old(threshold)
      ensures resizeRatio == old(resizeRatio) && numDeletedCells == old(numDeletedCells)
      ensures Count(tableStatus[..], DeletedCell) <= old(Count(tableStatus[..], DeletedCell))
    {
      FillCell(hasher, tableStatus[..], tableData[..], contents, probe, key, value, j);
      ghost var st, da := tableStatus[..], tableData[..];
      CountAfterUpdate(st, hashLocation, ValidCell, ValidCell);
      CountAfterUpdate(st, hashLocation, ValidCell, DeletedCell);
      tableStatus[hashLocation] := ValidCell;
      tableData[hashLocation] := Holds(Pair(key, value));
      currentLength := currentLength + 1;
      contents, probe := contents[key := value], probe[key := j];
      assert tableStatus[..] == st[hashLocation := ValidCell];
      assert tableData[..] == da[hashLocation := Holds(Pair(key, value))];
    }

    /** At or above the threshold the table is rehashed into a larger one first; then the
        key is looked up, and stored if it is absent. Called by Resize too, with a stale
        threshold, which is why it asks only for Core(). */
    method InsertWithoutDuplication(key: K, value: V) returns (location: nat, didInsert: bool)
      requires Core() && (HasRoom() || currentLength >= threshold)
      modifies this, tableData, tableStatus
      ensures Core() && resizeRatio == old(resizeRatio)
      ensures didInsert <==> key !in old(contents)
      ensures contents == if didInsert then old(contents)[key := value] else old(contents)
      ensures PointsTo(location, key)
      ensures tableData == old(tableData) || fresh(tableData)
      ensures tableStatus == old(tableStatus) || fresh(tableStatus)
      ensures old(currentLength) < old(threshold) ==>
                && maxLength == old(maxLength) && threshold == old(threshold)
                && numDeletedCells == old(numDeletedCells)
                && Count(tableStatus[..], DeletedCell) <= old(Count(tableStatus[..], DeletedCell))
      ensures old(currentLength) >= old(threshold) ==>
                && maxLength >= 2 * old(maxLength)
                && threshold == Threshold(maxLength, resizeRatio)
                && numDeletedCells == 0
      ensures old(currentLength) == old(threshold) ==> maxLength == RoundUp(GrownLength(old(maxLength), resizeRatio))
      ensures old(Valid()) ==> Valid()
      ensures old(TombstonesBounded()) ==> TombstonesBounded()
      ensures old(Valid() && Light()) ==> Light()
      decreases currentLength, 2
    {
      HalfThreshold(maxLength);
      if currentLength >= threshold {
        RoundUpIsLeast(GrownLength(maxLength, resizeRatio));
        CountsAddUp(tableStatus[..]);
        Resize(GrownLength(maxLength, resizeRatio));
      }
      var found;
      ghost var j;
      found, location, j := FindPlace(key);
      didInsert := !found;
      if didInsert {
        AssignToCell(location, key, value, j);
      }
      RoomIsCounted(tableStatus[..]);
      HalfThreshold(maxLength);
    }

    /** insert: store the value whether or not the key was present. */
    method Insert(key: K, value: V) returns (location: nat)
      requires Core() && (HasRoom() || currentLength >= threshold)
      modifies this, tableData, tableStatus
      ensures Core() && resizeRatio == old(resizeRatio)
      ensures contents == old(contents)[key := value] && PointsTo(location, key)
      ensures tableData == old(tableData) || fresh(tableData)
      ensures tableStatus == old(tableStatus) || fresh(tableStatus)
      ensures old(currentLength) < old(threshold) ==>
                && maxLength == old(maxLength) && threshold == old(threshold)
                && numDeletedCells == old(numDeletedCells)
                && Count(tableStatus[..], DeletedCell) <= old(Count(tableStatus[..], DeletedCell))
      ensures old(currentLength) >= old(threshold) ==>
                && maxLength >= 2 * old(maxLength)
                && threshold == Threshold(maxLength, resizeRatio)
                && numDeletedCells == 0
      ensures old(currentLength) == old(threshold) ==> maxLength == RoundUp(GrownLength(old(maxLength), resizeRatio))
      ensures old(Valid()) ==> Valid()
      ensures old(TombstonesBounded()) ==> TombstonesBounded()
      ensures old(Valid() && Light()) ==> Light()
      decreases currentLength, 3
    {
      var didInsert;
      location, didInsert := InsertWithoutDuplication(key, value);
      if !didInsert {
        OverwriteCell(location, key, value);
      }
    }

    /** Replace the pair of a stored key (also a store through the reference operator[] returns). */
    method OverwriteCell(location: nat, key: K, value: V)
      requires Core() && PointsTo(location, key)
      modifies this`contents, tableData
      ensures Core() && contents == old(contents)[key := value] && PointsTo(location, key)
      ensures old(Valid()) ==> Valid()
      ensures old(TombstonesBounded()) ==> TombstonesBounded()
      ensures old(Valid() && Light()) ==> Light()
    {
      ghost var da := tableData[..];
      ReplaceCell(hasher, tableStatus[..], da, contents, probe, key, value, location);
      tableData[location] := Holds(Pair(key, value));
      contents := contents[key := value];
      assert tableData[..] == da[location := Holds(Pair(key, value))];
    }

    /** The first half of Resize: fresh arrays of the new size, all cells empty. */
    method StartEmpty(size: nat)
      requires OddSteps(hasher) && IsPow2(size)
      modifies this
      ensures Core() && contents == map[] && maxLength == size
      ensures fresh(tableData) && fresh(tableStatus)
      ensures numDeletedCells == 0 && threshold == old(threshold) && resizeRatio == old(resizeRatio)
    {
      var k: nat :| size == Pow2(k);
      maxLength := size;
      tableData := new Slot<K, V>[size](_ => Unset);
      tableStatus := new Status[size](_ => EmptyCell);
      numDeletedCells, currentLength := 0, 0;
      contents, probe := map[], map[];
      EmptyTable(hasher, tableStatus[..], tableData[..]);
    }

    /** While n pairs move into a table of `size` cells: either no nested Resize has happened,
        or one has, and then n exceeds the stale threshold. */
    ghost predicate Rehashing(size: nat, stale: nat, n: nat)
      reads this
    {
      || (maxLength == size && threshold == stale && currentLength <= stale)
      || (maxLength >= 2 * size && n > stale)
    }

    method ReinsertPair(p: Pair<K, V>, ghost size: nat, ghost stale: nat, ghost n: nat)
      requires Core() && numDeletedCells == 0 && currentLength < n <= size
      requires Rehashing(size, stale, n) && p.first !in contents
      modifies this, tableData, tableStatus
      ensures Core() && numDeletedCells == 0 && Rehashing(size, stale, n)
      ensures contents == old(contents)[p.first := p.second] && resizeRatio == old(resizeRatio)
      ensures tableData == old(tableData) || fresh(tableData)
      ensures tableStatus == old(tableStatus) || fresh(tableStatus)
      decreases currentLength, 4
    {
      RoomIsCounted(tableStatus[..]);
      var _ := Insert(p.first, p.second);
    }

    /** The second half of Resize: insert every VALID pair of the old arrays. `threshold` is
        still the old one, so an insertion may resize again, on strictly fewer pairs. */
    method Reinsert(oldTableData: array<Slot<K, V>>, oldTableStatus: array<Status>,
                    ghost m: map<K, V>, ghost at: map<K, nat>)
      requires Core() && contents == map[] && numDeletedCells == 0 && |m| <= maxLength
      requires oldTableData != tableData && oldTableStatus != tableStatus
      requires Represents(hasher, oldTableStatus[..], oldTableData[..], m, at)
      modifies this, tableData, tableStatus
      ensures Core() && contents == m && numDeletedCells == 0 && resizeRatio == old(resizeRatio)
      ensures tableData == old(tableData) || fresh(tableData)
      ensures tableStatus == old(tableStatus) || fresh(tableStatus)
      ensures |m| <= old(threshold) ==> maxLength == old(maxLength)
      ensures |m| > old(threshold) ==> maxLength >= 2 * old(maxLength)
      decreases |m|, 0
    {
      hide Represents, OddSteps, IsPow2, StoredBelow, Count;
      ghost var st, da, size, stale := oldTableStatus[..], oldTableData[..], maxLength, threshold;
      RepresentsShape(hasher, st, da, m, at);
      StoredBelowAll(hasher, |st|, m, at);
      for i := 0 to oldTableStatus.Length
        invariant Core() && numDeletedCells == 0 && resizeRatio == old(resizeRatio)
        invariant tableData == old(tableData) || fresh(tableData)
        invariant tableStatus == old(tableStatus) || fresh(tableStatus)
        invariant contents == StoredBelow(hasher, |st|, m, at, i)
        invariant oldTableStatus[..] == st && oldTableData[..] == da
        invariant Rehashing(size, stale, |m|)
      {
        StoredBelowNext(hasher, st, da, m, at, i);
        if oldTableStatus[i] == ValidCell {
          ReinsertPair(oldTableData[i].pair, size, stale, |m|);
        }
      }
    }

    /** Resize: rehash every pair into a table of RoundUp(newMaxSize) cells. The map is kept
        and all tombstones disappear. A nested Resize happens exactly when the old table
        held more pairs than its (then stale) threshold; it rehashes strictly fewer pairs.
        The new table has an empty cell if and only if it was made larger than the number of
        pairs or a nested Resize enlarged it. */
    method Resize(newMaxSize: nat)
      requires Core() && RoundUp(newMaxSize) >= currentLength
      modifies this
      ensures Core() && contents == old(contents) && resizeRatio == old(resizeRatio)
      ensures fresh(tableData) && fresh(tableStatus)
      ensures numDeletedCells == 0 && Count(tableStatus[..], DeletedCell) == 0
      ensures threshold == Threshold(maxLength, resizeRatio)
      ensures old(currentLength) <= old(threshold) ==> maxLength == RoundUp(newMaxSize)
      ensures old(currentLength) > old(threshold) ==> maxLength >= 2 * RoundUp(newMaxSize)
      ensures HasRoom() <==> RoundUp(newMaxSize) > old(currentLength) || old(currentLength) > old(threshold)
      ensures old(Valid()) && HasRoom() ==> Valid()
      ensures old(TombstonesBounded()) ==> TombstonesBounded()
      ensures old(Light()) ==> (Light() <==> RoundUp(newMaxSize) >= 2 * currentLength)
      decreases currentLength, 1
    {
      var size := RoundUpToPowerOfTwo(newMaxSize);
      var oldTableData, oldTableStatus := tableData, tableStatus;
      ghost var m, at := contents, probe;
      StartEmpty(size);
      Reinsert(oldTableData, oldTableStatus, m, at);
      RoomIsCounted(tableStatus[..]);
      threshold := Threshold(maxLength, resizeRatio);
      HalfThreshold(maxLength);
    }

    /** Turn the key's cell into a tombstone and count it. */
    method MarkDeleted(location: nat, key: K)
      requires Core() && HasRoom() && PointsTo(location, key)
      modifies this, tableStatus
      ensures Core() && HasRoom() && contents == old(contents) - {key}
      ensures tableData == old(tableData) && tableStatus == old(tableStatus)
      ensures maxLength == old(maxLength) && threshold == old(threshold) && resizeRatio == old(resizeRatio)
      ensures numDeletedCells == old(numDeletedCells) + 1
    {
      ghost var st := tableStatus[..];
      FreeCell(hasher, st, tableData[..], contents, probe, key, location);
      CountAfterUpdate(st, location, DeletedCell, ValidCell);
      CountAfterUpdate(st, location, DeletedCell, DeletedCell);
      RoomIsCounted(st);
      tableStatus[location] := DeletedCell;
      assert tableStatus[..] == st[location := DeletedCell];
      RoomIsCounted(tableStatus[..]);
      RemoveKeySize(contents, key);
      contents, probe := contents - {key}, probe - {key};
      currentLength := currentLength - 1;
      numDeletedCells := numDeletedCells + 1;
    }

    /** Delete: remove the key if present; too many tombstones trigger a rehash in place. */
    method Delete(key: K) returns (wasPresent: bool)
      requires Valid()
      modifies this, tableData, tableStatus
      ensures Valid() && resizeRatio == old(resizeRatio)
      ensures wasPresent <==> key in old(contents)
      ensures contents == old(contents) - {key}
      ensures tableData == old(tableData) || fresh(tableData)
      ensures tableStatus == old(tableStatus) || fresh(tableStatus)
      ensures maxLength >= old(maxLength)
      ensures wasPresent ==> numDeletedCells == 0 || numDeletedCells < threshold
      ensures wasPresent && old(numDeletedCells) + 1 < old(threshold) ==>
                && numDeletedCells == old(numDeletedCells) + 1
                && tableStatus == old(tableStatus) && tableData == old(tableData)
      ensures wasPresent && old(numDeletedCells) + 1 >= old(threshold) ==>
                numDeletedCells == 0 && fresh(tableStatus) && fresh(tableData)
      ensures !wasPresent ==> numDeletedCells == old(numDeletedCells)
      ensures old(TombstonesBounded()) ==> TombstonesBounded()
      ensures old(Light()) ==> Light()
    {
      var location;
      ghost var j;
      wasPresent, location, j := FindPlace(key);
      if !wasPresent {
        assert contents == contents - {key};
        return;
      }
      MarkDeleted(location, key);
      if numDeletedCells >= threshold {
        RoundUpOfPow2(maxLength);
        HalfThreshold(maxLength);
        Resize(maxLength);
      }
    }

    /** operator[]: the cell of the key, inserting the default value if the key is absent. */
    method IndexOrInsert(key: K, default: V) returns (location: nat)
      requires Valid()
      modifies this, tableData, tableStatus
      ensures Valid() && PointsTo(location, key)
      ensures contents == if key in old(contents) then old(contents) else old(contents)[key := default]
      ensures tableData == old(tableData) || fresh(tableData)
      ensures tableStatus == old(tableStatus) || fresh(tableStatus)
      ensures old(TombstonesBounded()) ==> TombstonesBounded()
      ensures old(Light()) ==> Light()
    {
      var didInsert;
      location, didInsert := InsertWithoutDuplication(key, default);
    }

    /** table[key] = value: operator[] followed by a store through the returned reference. */
    method AssignThrough(key: K, value: V, default: V)
      requires Valid()
      modifies this, tableData, tableStatus
      ensures Valid() && contents == old(contents)[key := value]
      ensures tableData == old(tableData) || fresh(tableData)
      ensures tableStatus == old(tableStatus) || fresh(tableStatus)
      ensures old(TombstonesBounded()) ==> TombstonesBounded()
      ensures old(Light()) ==> Light()
    {
      var location := IndexOrInsert(key, default);
      OverwriteCell(location, key, value);
    }

    method Clear()
      requires Valid()
      modifies this, tableStatus
      ensures Valid() && contents == map[] && maxLength == old(maxLength)
      ensures tableData == old(tableData) && tableStatus == old(tableStatus)
      ensures old(TombstonesBounded()) ==> TombstonesBounded()
      ensures old(Light()) ==> Light()
    {
      for i := 0 to maxLength
        invariant maxLength == tableStatus.Length == old(maxLength) && tableStatus == old(tableStatus)
        invariant forall p :: 0 <= p < i ==> tableStatus[p] == EmptyCell
        modifies tableStatus
      {
        tableStatus[i] := EmptyCell;
      }
      currentLength, numDeletedCells := 0, 0;
      contents, probe := map[], map[];
      EmptyTable(hasher, tableStatus[..], tableData[..]);
    }

    method SetResizeRatio(a: Ratio)
      requires Valid()
      modifies this`resizeRatio, this`threshold
      ensures Valid() && contents == old(contents) && resizeRatio == a
      ensures Light() <==> a == 0.5 && 2 * currentLength <= maxLength
    {
      resizeRatio := a;
      threshold := Threshold(maxLength, a);
      HalfThreshold(maxLength);
    }

    /** begin(): an empty table begins where it ends. */
    function Begin(): nat
      reads this
    {
      if currentLength == 0 then maxLength else 0
    }

    /** Postfix ++ of an iterator standing at `current`: hand out the next stored pair and
        move on to the one after it, or to the end. */
    method PostIncrement(current: nat) returns (result: Slot<K, V>, next: nat)
      requires Core() && current <= maxLength
      ensures next <= maxLength
      ensures result.Unset? <==> PairsFrom(tableStatus[..], tableData[..], current) == []
      ensures result.Unset? ==> next == maxLength
      ensures result.Holds? ==>
                && current < next
                && PairsFrom(tableStatus[..], tableData[..], current)
                == [result.pair] + PairsFrom(tableStatus[..], tableData[..], next)
                && (next < maxLength ==> PairsFrom(tableStatus[..], tableData[..], next) != [])
    {
      ghost var st, da := tableStatus[..], tableData[..];
      result, next := Unset, current;
      while next < maxLength && tableStatus[next] != ValidCell
        invariant current <= next <= maxLength
        invariant PairsFrom(st, da, next) == PairsFrom(st, da, current)
      {
        next := next + 1;
      }
      if next < maxLength {
        CellHoldsValue(hasher, st, da, contents, probe, next);
        result := tableData[next];
        next := next + 1;
      }
      ghost var rest := PairsFrom(st, da, next);
      while next < maxLength && tableStatus[next] != ValidCell
        invariant current <= next <= maxLength
        invariant result.Holds? ==> current < next
        invariant result.Unset? ==> next == maxLength
        invariant PairsFrom(st, da, next) == rest
      {
        next := next + 1;
      }
      if next < maxLength {
        CellHoldsValue(hasher, st, da, contents, probe, next);
      }
    }

    /** for (i = begin(); i < end(); i++), handing out what each step passes. */
    method Traverse() returns (pairs: seq<Pair<K, V>>)
      requires Core()
      ensures pairs == PairsFrom(tableStatus[..], tableData[..], 0)
    {
      ghost var st, da := tableStatus[..], tableData[..];
      PairsFromCount(hasher, st, da, contents, probe, 0);
      assert st[0..] == st;
      pairs := [];
      var current := Begin();
      while current < maxLength
        invariant current <= maxLength
        invariant pairs + PairsFrom(st, da, current) == PairsFrom(st, da, 0)
        invariant PairsFrom(st, da, current) == [] ==> current == maxLength
        decreases maxLength - current
      {
        var item;
        item, current := PostIncrement(current);
        pairs := pairs + [item.pair];
      }
    }

    /** A traversal hands out every stored pair exactly once. */
    method AllPairs() returns (pairs: seq<Pair<K, V>>)
      requires Valid()
      ensures |pairs| == |contents|
      ensures forall p :: p in pairs <==> p.first in contents && contents[p.first] == p.second
      ensures DistinctKeys(pairs)
    {
      pairs := Traverse();
      PairsAreTheMap(hasher, tableStatus[..], tableData[..], contents, probe);
    }
  }

  // ---------------------------------------------------------------- whole runs

  datatype Op<K, V> =
    | Insert(key: K, value: V)
    | InsertNew(key: K, value: V)
    | Index(key: K)
    | Assign(key: K, value: V)
    | Delete(key: K)
    | Find(key: K)
    | Size
    | Clear
    | Resize(newMaxSize: nat)
    | SetRatio(ratio: Ratio)

  datatype Answer<V> = Done | Flag(b: bool) | Number(n: nat) | Absent | Value(v: V)

  /** The same operation on a mathematical map. */
  function MapStep<K, V>(m: map<K, V>, op: Op<K, V>, default: V): (map<K, V>, Answer<V>) {
    match op
    case Insert(k, v) => (m[k := v], Done)
    case InsertNew(k, v) => (if k in m then m else m[k := v], Flag(k !in m))
    case Index(k) => if k in m then (m, Value(m[k])) else (m[k := default], Value(default))
    case Assign(k, v) => (m[k := v], Done)
    case Delete(k) => (m - {k}, Flag(k in m))
    case Find(k) => (m, if k in m then Value(m[k]) else Absent)
    case Size => (m, Number(|m|))
    case Clear => (map[], Done)
    case Resize(_) => (m, Done)
    case SetRatio(_) => (m, Done)
  }

  function MapRun<K, V>(m: map<K, V>, ops: seq<Op<K, V>>, default: V): (r: (map<K, V>, seq<Answer<V>>)) {
    if ops == [] then (m, [])
    else
      var init := MapRun(m, ops[..|ops| - 1], default);
      var last := MapStep(init.0, ops[|ops| - 1], default);
      (last.0, init.1 + [last.1])
  }

  /** The one demand on callers: an explicit Resize leaves more cells than there are keys. */
  ghost predicate Legal<K, V>(ops: seq<Op<K, V>>, default: V) {
    forall i :: 0 <= i < |ops| && ops[i].Resize? ==>
      |MapRun(map[], ops[..i], default).0| < RoundUp(ops[i].newMaxSize)
  }

  /** An explicit Resize leaves at least twice as many cells as there are keys. */
  ghost predicate Roomy<K, V>(ops: seq<Op<K, V>>, default: V) {
    forall i :: 0 <= i < |ops| && ops[i].Resize? ==>
      2 * |MapRun(map[], ops[..i], default).0| <= RoundUp(ops[i].newMaxSize)
  }

  method Perform<K(==,!new), V>(t: HashMap<K, V>, op: Op<K, V>, default: V) returns (a: Answer<V>)
    requires t.Valid()
    requires op.Resize? ==> t.currentLength < RoundUp(op.newMaxSize)
    modifies t, t.tableData, t.tableStatus
    ensures t.Valid() && (t.contents, a) == MapStep(old(t.contents), op, default)
    ensures old(t.TombstonesBounded()) && !op.SetRatio? ==> t.TombstonesBounded()
    ensures old(t.Light()) && !op.SetRatio? && (op.Resize? ==> 2 * old(|t.contents|) <= RoundUp(op.newMaxSize)) ==> t.Light()
    ensures t.tableData == old(t.tableData) || fresh(t.tableData)
    ensures t.tableStatus == old(t.tableStatus) || fresh(t.tableStatus)
  {
    if op.Insert? || op.InsertNew? || op.Index? || op.Assign? {
      a := PerformInsertion(t, op, default);
      return;
    }
    a := Done;
    match op {
      case Delete(k) =>
        var wasPresent := t.Delete(k);
        a := Flag(wasPresent);
      case Find(k) =>
        var i := t.Search(k);
        a := if i < t.maxLength then Value(t.tableData[i].pair.second) else Absent;
      case Size =>
        a := Number(t.currentLength);
      case Clear =>
        t.Clear();
      case Resize(n) =>
        t.Resize(n);
      case SetRatio(r) =>
        t.SetResizeRatio(r);
    }
  }

  method PerformInsertion<K(==,!new), V>(t: HashMap<K, V>, op: Op<K, V>, default: V) returns (a: Answer<V>)
    requires t.Valid()
    requires op.Insert? || op.InsertNew? || op.Index? || op.Assign?
    modifies t, t.tableData, t.tableStatus
    ensures t.Valid() && (t.contents, a) == MapStep(old(t.contents), op, default)
    ensures old(t.TombstonesBounded()) && !op.SetRatio? ==> t.TombstonesBounded()
    ensures old(t.Light()) ==> t.Light()
    ensures t.tableData == old(t.tableData) || fresh(t.tableData)
    ensures t.tableStatus == old(t.tableStatus) || fresh(t.tableStatus)
  {
    a := Done;
    match op {
      case Insert(k, v) =>
        var _ := t.Insert(k, v);
      case InsertNew(k, v) =>
        var _, didInsert := t.InsertWithoutDuplication(k, v);
        a := Flag(didInsert);
      case Index(k) =>
        var i := t.IndexOrInsert(k, default);
        a := Value(t.tableData[i].pair.second);
      case Assign(k, v) =>
        t.AssignThrough(k, v, default);
    }
  }

  /** Every run from a fresh table gives the answers of the mathematical map, whatever the
      hashes, the initial size and the ratios, and leaves a table that holds that map. */
  method Run<K(==,!new), V>(tableSize: nat, hasher: Hasher<K>, ratio: Ratio, default: V, ops: seq<Op<K, V>>)
    returns (t: HashMap<K, V>, answers: seq<Answer<V>>)
    requires OddSteps(hasher) && Legal(ops, default)
    ensures t.Valid() && (t.contents, answers) == MapRun(map[], ops, default)
    ensures (forall i :: 0 <= i < |ops| ==> !ops[i].SetRatio?) ==> t.TombstonesBounded()
    ensures (forall i :: 0 <= i < |ops| ==> !ops[i].SetRatio?) && ratio == 0.5 && Roomy(ops, default) ==> t.Light()
  {
    t := new HashMap<K, V>(tableSize, hasher, ratio);
    answers := [];
    for i := 0 to |ops|
      invariant t.Valid() && fresh(t) && fresh(t.tableData) && fresh(t.tableStatus)
      invariant (t.contents, answers) == MapRun(map[], ops[..i], default)
      invariant (forall k :: 0 <= k < i ==> !ops[k].SetRatio?) ==> t.TombstonesBounded()
      invariant (forall k :: 0 <= k < i ==> !ops[k].SetRatio?) && ratio == 0.5 && Roomy(ops, default) ==> t.Light()
    {
      var a := Perform(t, ops[i], default);
      answers := answers + [a];
      assert ops[..i + 1][..i] == ops[..i];
    }
    assert ops[..|ops|] == ops;
  }

  /** At a smaller ratio reachable tables may hold more pairs than the threshold: one pair in a
      table of one cell is enough. The next insertion resizes, and again while it reinserts. */
  method Overtaken<K(==,!new), V>(hasher: Hasher<K>, key: K, value: V) returns (t: HashMap<K, V>)
    requires OddSteps(hasher)
    ensures t.Valid() && t.contents == map[key := value] && t.resizeRatio == 0.4
    ensures t.maxLength == 2 && t.currentLength > t.threshold
  {
    t := new HashMap<K, V>(1, hasher, 0.4);
    SmallThresholds();
    var _ := t.Insert(key, value);
  }

  lemma SmallThresholds()
    ensures RoundUp(1) == 1 && Threshold(1, 0.4) == 0
    ensures RoundUp(GrownLength(1, 0.4)) == 2 && Threshold(2, 0.4) == 0
  {
    assert 1.0 / 0.4 == 2.5;
    assert 2.5.Floor == 2 && (2.0 * 0.4).Floor == 0;
  }

  lemma RemoveKeySize<K, V>(m: map<K, V>, k: K)
    requires k in m
    ensures |m - {k}| == |m| - 1
  {
    assert m.Keys == (m - {k}).Keys + {k};
  }

  lemma RoundUpOfPow2(n: nat)
    requires IsPow2(n)
    ensures RoundUp(n) == n
  {
    var k: nat :| n == Pow2(k);
    RoundUpIsLeast(n);
  }
}
