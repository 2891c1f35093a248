/**
 The open-addressing hash table the query compiler emits
 (PochiVM/mini_db_backend/query_plan_ast.hpp:241-447).
 A stored key is the nonzero address of a row; rows are compared and hashed by their key fields.
 */
module HashTable {
  import opened Arith
  import ProbeSequence

  /** The generated comparison and hash functions: both see a row's key fields and nothing else. */
  datatype Schema<!K> = Schema(key: nat -> K, hash: K -> nat)

  function SlotOf<K>(sc: Schema<K>, q: K, k: nat, size: nat): nat
    requires size >= 1
  {
    ProbeSequence.ProbeSlot(sc.hash(q), k, size)
  }

  /** The emitted step: add the square of the step number to the slot, in 64-bit arithmetic, and reduce. */
  function NextSlot(slot: nat, factor: nat, size: nat): nat
    requires size >= 1
  {
    ((slot + factor * factor) % 0x1_0000_0000_0000_0000) % size
  }

  lemma NextIsNext<K>(sc: Schema<K>, q: K, k: nat, m: nat)
    requires m <= 64
    ensures NextSlot(SlotOf(sc, q, k, Pow2(m)), k + 1, Pow2(m)) == SlotOf(sc, q, k + 1, Pow2(m))
  {
    WordSizes();
    ProbeSequence.ProbeStep(sc.hash(q), k, m);
  }

  /** The first k slots probed for q hold rows with other keys. */
  ghost predicate Passes<K(!new)>(sc: Schema<K>, keys: seq<nat>, q: K, k: nat)
    requires |keys| >= 1
  {
    forall j {:trigger SlotOf(sc, q, j, |keys|)} :: 0 <= j < k ==>
      var row := keys[SlotOf(sc, q, j, |keys|)];
      row != 0 && sc.key(row) != q
  }

  /** Probing for q stops at this slot after k steps. */
  ghost predicate StopsAt<K(!new)>(sc: Schema<K>, keys: seq<nat>, q: K, k: nat, slot: nat)
    requires |keys| >= 1
  {
    && Passes(sc, keys, q, k)
    && slot == SlotOf(sc, q, k, |keys|)
    && (keys[slot] == 0 || sc.key(keys[slot]) == q)
  }

  ghost predicate Stops<K(!new)>(sc: Schema<K>, keys: seq<nat>, q: K, slot: nat)
    requires |keys| >= 1
  {
    exists k :: StopsAt(sc, keys, q, k, slot)
  }

  lemma PassOne<K(!new)>(sc: Schema<K>, keys: seq<nat>, q: K, k: nat)
    requires |keys| >= 1 && Passes(sc, keys, q, k)
    requires var row := keys[SlotOf(sc, q, k, |keys|)]; row != 0 && sc.key(row) != q
    ensures Passes(sc, keys, q, k + 1)
  {
  }

  lemma StopIsUnique<K(!new)>(sc: Schema<K>, keys: seq<nat>, q: K, s: nat, t: nat)
    requires |keys| >= 1 && Stops(sc, keys, q, s) && Stops(sc, keys, q, t)
    ensures s == t
  {
    var j: nat :| StopsAt(sc, keys, q, j, s);
    var k: nat :| StopsAt(sc, keys, q, k, t);
    assert s == SlotOf(sc, q, j, |keys|) && t == SlotOf(sc, q, k, |keys|);
    assert !(j < k) && !(k < j);
  }

  ghost predicate Stored(keys: seq<nat>, s: int) {
    0 <= s < |keys| && keys[s] != 0
  }

  /** Every stored row is where probing for its key stops. */
  ghost predicate Reachable<K(!new)>(sc: Schema<K>, keys: seq<nat>)
    requires |keys| >= 1
  {
    forall s {:trigger Stored(keys, s)} :: Stored(keys, s) ==> Stops(sc, keys, sc.key(keys[s]), s)
  }

  /** Storing a row where probing for its key found an empty slot. */
  lemma InsertReachable<K(!new)>(sc: Schema<K>, keys: seq<nat>, row: nat, slot: nat)
    requires |keys| >= 1 && Reachable(sc, keys) && row != 0
    requires slot < |keys| && keys[slot] == 0 && Stops(sc, keys, sc.key(row), slot)
    ensures Reachable(sc, keys[slot := row])
  {
    var keys' := keys[slot := row];
    forall s | Stored(keys', s)
      ensures Stops(sc, keys', sc.key(keys'[s]), s)
    {
      var q := sc.key(keys'[s]);
      assert s != slot ==> keys'[s] == keys[s] && Stored(keys, s);
      var k: nat :| StopsAt(sc, keys, q, k, s);
      forall j | 0 <= j < k
        ensures keys'[SlotOf(sc, q, j, |keys|)] == keys[SlotOf(sc, q, j, |keys|)]
      {
        assert keys[SlotOf(sc, q, j, |keys|)] != 0;
      }
      assert StopsAt(sc, keys', q, k, s);
    }
  }

  function Occupied(keys: seq<nat>, n: nat): nat
    requires n <= |keys|
  {
    if n == 0 then 0 else Occupied(keys, n - 1) + (if keys[n - 1] != 0 then 1 else 0)
  }

  lemma {:induction false} EmptySlot(keys: seq<nat>, n: nat) returns (e: nat)
    requires n <= |keys| && Occupied(keys, n) < n
    ensures e < n && keys[e] == 0
  {
    if keys[n - 1] == 0 {
      e := n - 1;
    } else {
      e := EmptySlot(keys, n - 1);
    }
  }

  lemma {:induction false} OccupiedUpdate(keys: seq<nat>, slot: nat, row: nat, n: nat)
    requires slot < |keys| && keys[slot] == 0 && row != 0 && n <= |keys|
    ensures Occupied(keys[slot := row], n) == Occupied(keys, n) + (if slot < n then 1 else 0)
  {
    if n > 0 {
      OccupiedUpdate(keys, slot, row, n - 1);
    }
  }

  lemma {:induction false} OccupiedNone(keys: seq<nat>, n: nat)
    requires n <= |keys| && forall s :: 0 <= s < n ==> keys[s] == 0
    ensures Occupied(keys, n) == 0
  {
    if n > 0 {
      OccupiedNone(keys, n - 1);
    }
  }

  lemma {:induction false} OccupiedBound(keys: seq<nat>, n: nat)
    requires n <= |keys|
    ensures Occupied(keys, n) <= n
  {
    if n > 0 {
      OccupiedBound(keys, n - 1);
    }
  }

  /** A stored row and its value word. */
  datatype Entry<V> = Entry(row: nat, value: V)

  /** The finite map from keys to entries that the two arrays stand for. */
  ghost predicate Represents<K(!new), V>(sc: Schema<K>, keys: seq<nat>, values: seq<V>, contents: map<K, Entry<V>>)
    requires |keys| == |values|
  {
    && (forall s {:trigger Stored(keys, s)} :: Stored(keys, s) ==>
          sc.key(keys[s]) in contents && contents[sc.key(keys[s])] == Entry(keys[s], values[s]))
    && (forall q :: q in contents ==> HasSlot(sc, keys, q))
  }

  ghost predicate HasSlot<K>(sc: Schema<K>, keys: seq<nat>, q: K) {
    HasSlotBelow(sc, keys, |keys|, q)
  }

  ghost predicate HasSlotBelow<K>(sc: Schema<K>, keys: seq<nat>, n: nat, q: K)
    requires n <= |keys|
  {
    exists s :: 0 <= s < n && keys[s] != 0 && sc.key(keys[s]) == q
  }

  /** Where probing stops tells whether the key is in the map, and finds its entry. */
  lemma StopDecides<K(!new), V>(sc: Schema<K>, keys: seq<nat>, values: seq<V>, contents: map<K, Entry<V>>, q: K,
      slot: nat)
    requires |keys| == |values| >= 1 && Reachable(sc, keys) && Represents(sc, keys, values, contents)
    requires slot < |keys| && Stops(sc, keys, q, slot)
    ensures q in contents <==> keys[slot] != 0
    ensures q in contents ==> contents[q] == Entry(keys[slot], values[slot])
  {
    if q in contents {
      assert HasSlot(sc, keys, q);
      var s :| 0 <= s < |keys| && keys[s] != 0 && sc.key(keys[s]) == q;
      assert Stored(keys, s);
      StopIsUnique(sc, keys, q, s, slot);
    }
    var k: nat :| StopsAt(sc, keys, q, k, slot);
    assert keys[slot] != 0 ==> Stored(keys, slot);
  }

  lemma InsertRepresents<K(!new), V>(sc: Schema<K>, keys: seq<nat>, values: seq<V>, contents: map<K, Entry<V>>,
      row: nat, v: V, slot: nat)
    requires |keys| == |values| >= 1 && Reachable(sc, keys) && Represents(sc, keys, values, contents)
    requires slot < |keys| && keys[slot] == 0 && row != 0 && Stops(sc, keys, sc.key(row), slot)
    ensures Represents(sc, keys[slot := row], values[slot := v], contents[sc.key(row) := Entry(row, v)])
  {
    var keys', values' := keys[slot := row], values[slot := v];
    var q := sc.key(row);
    StopDecides(sc, keys, values, contents, q, slot);
    forall p | p in contents[q := Entry(row, v)]
      ensures HasSlot(sc, keys', p)
    {
      if p == q {
        assert keys'[slot] == row;
      } else {
        assert HasSlot(sc, keys, p);
        var s :| 0 <= s < |keys| && keys[s] != 0 && sc.key(keys[s]) == p;
        assert keys'[s] == keys[s];
      }
    }
    forall s | Stored(keys', s)
      ensures sc.key(keys'[s]) in contents[q := Entry(row, v)]
      ensures contents[q := Entry(row, v)][sc.key(keys'[s])] == Entry(keys'[s], values'[s])
    {
      if s != slot {
        assert keys'[s] == keys[s] && values'[s] == values[s] && Stored(keys, s);
      }
    }
  }

  lemma UpdateRepresents<K(!new), V>(sc: Schema<K>, keys: seq<nat>, values: seq<V>, contents: map<K, Entry<V>>,
      slot: nat, v: V)
    requires |keys| == |values| >= 1 && Reachable(sc, keys) && Represents(sc, keys, values, contents)
    requires slot < |keys| && keys[slot] != 0
    ensures Represents(sc, keys, values[slot := v], contents[sc.key(keys[slot]) := Entry(keys[slot], v)])
  {
    var q := sc.key(keys[slot]);
    assert Stored(keys, slot);
    forall s | Stored(keys, s) && s != slot
      ensures sc.key(keys[s]) != q
    {
      if sc.key(keys[s]) == q {
        StopIsUnique(sc, keys, q, s, slot);
      }
    }
    assert forall p :: p in contents[q := Entry(keys[slot], v)] ==> HasSlot(sc, keys, p);
  }

  /** The part of a map that the first n slots account for. */
  ghost predicate Part<K(!new), V>(sc: Schema<K>, keys: seq<nat>, contents: map<K, Entry<V>>, n: nat,
      part: map<K, Entry<V>>)
    requires n <= |keys|
  {
    && (forall q :: q in part ==> q in contents && part[q] == contents[q])
    && (forall q :: q in part <==> HasSlotBelow(sc, keys, n, q))
  }

  lemma PartSkip<K(!new), V>(sc: Schema<K>, keys: seq<nat>, contents: map<K, Entry<V>>, n: nat, part: map<K, Entry<V>>)
    requires n < |keys| && keys[n] == 0 && Part(sc, keys, contents, n, part)
    ensures Part(sc, keys, contents, n + 1, part)
  {
    forall q
      ensures HasSlotBelow(sc, keys, n, q) <==> HasSlotBelow(sc, keys, n + 1, q)
    {
    }
  }

  /** Distinct slots hold distinct keys, so the next row's key is not in the part yet. */
  lemma PartExtend<K(!new), V>(sc: Schema<K>, keys: seq<nat>, values: seq<V>, contents: map<K, Entry<V>>, n: nat,
      part: map<K, Entry<V>>)
    requires |keys| == |values| >= 1 && Reachable(sc, keys) && Represents(sc, keys, values, contents)
    requires n < |keys| && keys[n] != 0 && Part(sc, keys, contents, n, part)
    ensures sc.key(keys[n]) !in part
    ensures Part(sc, keys, contents, n + 1, part[sc.key(keys[n]) := Entry(keys[n], values[n])])
  {
    var p := sc.key(keys[n]);
    assert Stored(keys, n);
    if HasSlotBelow(sc, keys, n, p) {
      var s :| 0 <= s < n && keys[s] != 0 && sc.key(keys[s]) == p;
      assert Stored(keys, s);
      StopIsUnique(sc, keys, p, s, n);
    }
    forall q
      ensures HasSlotBelow(sc, keys, n + 1, q) <==> q == p || HasSlotBelow(sc, keys, n, q)
    {
    }
  }

  lemma PartWhole<K(!new), V>(sc: Schema<K>, keys: seq<nat>, values: seq<V>, contents: map<K, Entry<V>>,
      part: map<K, Entry<V>>)
    requires |keys| == |values| >= 1 && Represents(sc, keys, values, contents) && Part(sc, keys, contents, |keys|, part)
    ensures part == contents
  {
    assert forall q :: q in contents ==> HasSlot(sc, keys, q);
  }

  /** The rows of the input whose key is q, in input order. */
  function RowsOf<K(==)>(sc: Schema<K>, input: seq<nat>, q: K): seq<nat> {
    if input == [] then []
    else
      var last := |input| - 1;
      RowsOf(sc, input[..last], q) + if sc.key(input[last]) == q then [input[last]] else []
  }

  /** Those rows are at the ascending positions of all rows with the key. */
  lemma {:induction false} RowsOfPositions<K>(sc: Schema<K>, input: seq<nat>, q: K) returns (at: seq<nat>)
    ensures |at| == |RowsOf(sc, input, q)|
    ensures forall a, b :: 0 <= a < b < |at| ==> at[a] < at[b]
    ensures forall a :: 0 <= a < |at| ==> at[a] < |input| && RowsOf(sc, input, q)[a] == input[at[a]]
    ensures forall i: nat :: i in at <==> i < |input| && sc.key(input[i]) == q
  {
    at := [];
    if input != [] {
      var last := |input| - 1;
      at := RowsOfPositions(sc, input[..last], q);
      if sc.key(input[last]) == q {
        at := at + [last];
      }
    }
  }

  lemma RowsOfSnoc<K>(sc: Schema<K>, input: seq<nat>, row: nat, q: K)
    ensures RowsOf(sc, input + [row], q) == RowsOf(sc, input, q) + if sc.key(row) == q then [row] else []
  {
    assert (input + [row])[..|input|] == input;
  }

  /** A table of 2^59 slots that is three eighths full holds more rows than any run has. */
  lemma RoomToGrow(log2: nat, expandThreshold: nat, count: nat)
    requires log2 <= 59 && 8 * expandThreshold == 3 * Pow2(log2)
    requires expandThreshold <= count < 0x300_0000_0000_0000
    ensures log2 < 59
  {
    WordSizes();
    assert Pow2(3) == 8;
    Pow2Add(8, 3);
    Pow2Add(16, 11);
    Pow2Add(32, 27);
  }

  /** A growing table with an empty slot: what the arrays look like at every moment of a rehash. */
  ghost predicate TableOk<K(!new), V>(sc: Schema<K>, keys: seq<nat>, values: seq<V>, log2: nat,
      contents: map<K, Entry<V>>) {
    && |keys| == |values| == Pow2(log2) && log2 <= 60
    && Reachable(sc, keys) && Represents(sc, keys, values, contents)
  }

  lemma InsertOk<K(!new), V>(sc: Schema<K>, keys: seq<nat>, values: seq<V>, log2: nat, contents: map<K, Entry<V>>,
      row: nat, v: V, slot: nat)
    requires TableOk(sc, keys, values, log2, contents)
    requires slot < |keys| && keys[slot] == 0 && row != 0 && Stops(sc, keys, sc.key(row), slot)
    ensures TableOk(sc, keys[slot := row], values[slot := v], log2, contents[sc.key(row) := Entry(row, v)])
    ensures Occupied(keys[slot := row], |keys|) == Occupied(keys, |keys|) + 1
  {
    InsertReachable(sc, keys, row, slot);
    InsertRepresents(sc, keys, values, contents, row, v, slot);
    OccupiedUpdate(keys, slot, row, |keys|);
  }

  /** Where a rehash stands after the first i slots: the new arrays hold exactly the rows met so far. */
  ghost predicate Moved<K(!new), V>(sc: Schema<K>, keys: seq<nat>, contents: map<K, Entry<V>>, i: nat,
      newKeys: seq<nat>, newValues: seq<V>, m: nat, part: map<K, Entry<V>>) {
    && i <= |keys|
    && TableOk(sc, newKeys, newValues, m, part)
    && Occupied(newKeys, |newKeys|) == Occupied(keys, i)
    && Part(sc, keys, contents, i, part)
  }

  lemma {:induction false} PowGrows(m: nat, n: nat)
    requires m <= n
    ensures Pow2(m) <= Pow2(n)
  {
    if m < n {
      PowGrows(m, n - 1);
    }
  }

  class HashTableContainer<K(==, !new), V(0)> {
    const sc: Schema<K>
    var keys: array<nat>
    var values: array<V>
    var tableSize: nat
    var expandThreshold: nat
    var count: nat
    ghost var log2: nat
    ghost var contents: map<K, Entry<V>>

    /** The table represents `contents`; its size is a power of two and it is at most three eighths full. */
    ghost predicate Valid()
      reads this, keys, values
    {
      && (keys as object) != (values as object)
      && keys.Length == values.Length == tableSize == Pow2(log2)
      && 3 <= log2 <= 59
      && 8 * expandThreshold == 3 * tableSize
      && count <= expandThreshold && count == Occupied(keys[..], tableSize)
      && TableOk(sc, keys[..], values[..], log2, contents)
    }

    constructor EmitDeclaration(sc: Schema<K>)
      ensures Valid() && fresh(keys) && fresh(values) && this.sc == sc && contents == map[]
      ensures count == 0 && expandThreshold == 12 && tableSize == 32
    {
      this.sc := sc;
      var initialSize := 32;
      keys := new nat[initialSize](_ => 0);
      values := new V[initialSize];
      tableSize, expandThreshold, count := initialSize, 12, 0;
      log2, contents := 5, map[];
      new;
      assert Pow2(3) == 8 && Pow2(5) == 32;
      OccupiedNone(keys[..], 32);
    }

    /** Finds the slot of key q, or the empty slot where it belongs. */
    method Probe(q: K) returns (output: nat)
      requires Valid()
      ensures output < tableSize && Stops(sc, keys[..], q, output)
      ensures keys[output] != 0 <==> q in contents
      ensures q in contents ==> contents[q] == Entry(keys[output], values[output])
    {
      output := sc.hash(q) % tableSize;
      var quadratic_probe_factor := 0;
      ghost var last := StopBound(q);
      while keys[output] != 0 && sc.key(keys[output]) != q
        invariant quadratic_probe_factor <= last
        invariant output == SlotOf(sc, q, quadratic_probe_factor, tableSize)
        invariant Passes(sc, keys[..], q, quadratic_probe_factor)
        decreases last - quadratic_probe_factor
      {
        NextIsNext(sc, q, quadratic_probe_factor, log2);
        PassOne(sc, keys[..], q, quadratic_probe_factor);
        quadratic_probe_factor := quadratic_probe_factor + 1;
        output := NextSlot(output, quadratic_probe_factor, tableSize);
      }
      assert StopsAt(sc, keys[..], q, quadratic_probe_factor, output);
      StopDecides(sc, keys[..], values[..], contents, q, output);
    }

    /** Some probe, within two table sizes, meets an empty slot. */
    lemma StopBound(q: K) returns (last: nat)
      requires Valid()
      ensures last < 2 * tableSize && keys[SlotOf(sc, q, last, tableSize)] == 0
    {
      var e := EmptySlot(keys[..], tableSize);
      last := ProbeSequence.ProbesEverySlot(sc.hash(q), log2, e);
    }

    /** The inner loop of a rehash: no comparison, the first empty slot on the row's probe path. */
    static method ProbeEmpty(sc: Schema<K>, newKeys: array<nat>, newTableSize: nat, input: nat, ghost m: nat)
        returns (slot: nat)
      requires newKeys.Length == newTableSize == Pow2(m) && m <= 60
      requires Occupied(newKeys[..], newTableSize) < newTableSize
      requires forall s :: Stored(newKeys[..], s) ==> sc.key(newKeys[s]) != sc.key(input)
      ensures slot < newTableSize && newKeys[slot] == 0 && Stops(sc, newKeys[..], sc.key(input), slot)
    {
      ghost var q := sc.key(input);
      slot := sc.hash(sc.key(input)) % newTableSize;
      var quadratic_probe_factor := 0;
      ghost var e := EmptySlot(newKeys[..], newTableSize);
      ghost var last := ProbeSequence.ProbesEverySlot(sc.hash(q), m, e);
      while newKeys[slot] != 0
        invariant quadratic_probe_factor <= last
        invariant slot == SlotOf(sc, q, quadratic_probe_factor, newTableSize)
        invariant Passes(sc, newKeys[..], q, quadratic_probe_factor)
        decreases last - quadratic_probe_factor
      {
        assert Stored(newKeys[..], slot);
        NextIsNext(sc, q, quadratic_probe_factor, m);
        PassOne(sc, newKeys[..], q, quadratic_probe_factor);
        quadratic_probe_factor := quadratic_probe_factor + 1;
        slot := NextSlot(slot, quadratic_probe_factor, newTableSize);
      }
      assert StopsAt(sc, newKeys[..], q, quadratic_probe_factor, slot);
    }

    /** One turn of the rehash loop: the row in slot i of the old table, if any, moves into the doubled arrays. */
    static method Rehash(sc: Schema<K>, newKeys: array<nat>, newValues: array<V>, newTableSize: nat, input: nat,
        value: V, i: nat,
        ghost keys: seq<nat>, ghost values: seq<V>, ghost contents: map<K, Entry<V>>, ghost m: nat,
            ghost part: map<K, Entry<V>>)
      returns (ghost part': map<K, Entry<V>>)
      requires (newKeys as object) != (newValues as object) && newKeys.Length == newTableSize
      requires i < |keys| == |values| && |keys| < newTableSize && input == keys[i] && value == values[i]
      requires Reachable(sc, keys) && Represents(sc, keys, values, contents)
      requires Moved(sc, keys, contents, i, newKeys[..], newValues[..], m, part)
      modifies newKeys, newValues
      ensures Moved(sc, keys, contents, i + 1, newKeys[..], newValues[..], m, part')
    {
      part' := part;
      if input != 0 {
        OccupiedBound(keys, i);
        PartExtend(sc, keys, values, contents, i, part);
        var slot := ProbeEmpty(sc, newKeys, newTableSize, input, m);
        ghost var keys0, values0 := newKeys[..], newValues[..];
        InsertOk(sc, keys0, values0, m, part, input, value, slot);
        newKeys[slot] := input;
        newValues[slot] := value;
        assert newKeys[..] == keys0[slot := input] && newValues[..] == values0[slot := value];
        part' := part[sc.key(input) := Entry(input, value)];
      } else {
        PartSkip(sc, keys, contents, i, part);
      }
    }

    /** Moves every row over to arrays of twice the size. */
    static method RehashAll(sc: Schema<K>, keys: array<nat>, values: array<V>, tableSize: nat, ghost log2: nat,
        ghost contents: map<K, Entry<V>>)
      returns (newKeys: array<nat>, newValues: array<V>)
      requires keys.Length == values.Length == tableSize && log2 < 60
      requires TableOk(sc, keys[..], values[..], log2, contents)
      ensures fresh(newKeys) && fresh(newValues) && (newKeys as object) != (newValues as object)
      ensures TableOk(sc, newKeys[..], newValues[..], log2 + 1, contents) && newKeys.Length == newValues.Length
      ensures Occupied(newKeys[..], newKeys.Length) == Occupied(keys[..], tableSize)
    {
      var newTableSize := tableSize + tableSize;
      newKeys := new nat[newTableSize](_ => 0);
      newValues := new V[newTableSize];
      ghost var part: map<K, Entry<V>> := map[];
      OccupiedNone(newKeys[..], newTableSize);
      var i := 0;
      while i < tableSize
        invariant i <= tableSize
        invariant Moved(sc, keys[..], contents, i, newKeys[..], newValues[..], log2 + 1, part)
        modifies newKeys, newValues
      {
        part := Rehash(sc, newKeys, newValues, newTableSize, keys[i], values[i], i, keys[..], values[..], contents,
          log2 + 1, part);
        i := i + 1;
      }
      PartWhole(sc, keys[..], values[..], contents, part);
    }

    /** Doubles a table that is three eighths full and moves every row over. */
    method CheckExpand()
      requires Valid()
      requires count >= expandThreshold ==> log2 < 59
      modifies this
      ensures Valid() && count < expandThreshold
      ensures contents == old(contents) && count == old(count)
      ensures old(count < expandThreshold) ==>
                keys == old(keys) && values == old(values) && tableSize == old(tableSize)
      ensures old(count >= expandThreshold) ==>
                fresh(keys) && fresh(values) && tableSize == 2 * old(tableSize)
    {
      if count >= expandThreshold {
        assert Pow2(3) == 8 && Pow2(log2) >= 8 by { PowGrows(3, log2); }
        keys, values := RehashAll(sc, keys, values, tableSize, log2, contents);
        tableSize := tableSize + tableSize;
        expandThreshold := expandThreshold + expandThreshold;
        log2 := log2 + 1;
      }
    }

    /** EmitProbe with its optional growth check. */
    method EmitProbe(q: K, emitCheckExpand: bool) returns (output: nat)
      requires Valid()
      requires emitCheckExpand && count >= expandThreshold ==> log2 < 59
      modifies this
      ensures Valid() && contents == old(contents) && count == old(count)
      ensures emitCheckExpand ==> count < expandThreshold
      ensures keys == old(keys) || fresh(keys)
      ensures values == old(values) || fresh(values)
      ensures !emitCheckExpand ==> keys == old(keys) && values == old(values)
      ensures output < tableSize && Stops(sc, keys[..], q, output)
      ensures keys[output] != 0 <==> q in contents
      ensures q in contents ==> contents[q] == Entry(keys[output], values[output])
    {
      if emitCheckExpand {
        CheckExpand();
      }
      output := Probe(q);
    }

    /** The statements that store a new row and its value in the slot a probe stopped at. */
    method Insert(slot: nat, row: nat, v: V)
      requires Valid() && count < expandThreshold && row != 0
      requires slot < tableSize && keys[slot] == 0 && Stops(sc, keys[..], sc.key(row), slot)
      modifies this`count, this`contents, keys, values
      ensures Valid() && contents == old(contents)[sc.key(row) := Entry(row, v)]
      ensures count == old(count) + 1 && keys[slot] == row && values[slot] == v
    {
      InsertOk(sc, keys[..], values[..], log2, contents, row, v, slot);
      ghost var keys0, values0 := keys[..], values[..];
      keys[slot] := row;
      values[slot] := v;
      count := count + 1;
      assert keys[..] == keys0[slot := row] && values[..] == values0[slot := v];
      contents := contents[sc.key(row) := Entry(row, v)];
    }

    /** The statement that overwrites the value in a slot. */
    method SetValue(slot: nat, v: V)
      requires Valid() && slot < tableSize && keys[slot] != 0
      modifies this`contents, values
      ensures Valid() && sc.key(keys[slot]) in old(contents)
      ensures contents == old(contents)[sc.key(keys[slot]) := Entry(keys[slot], v)]
      ensures values[slot] == v
    {
      assert Stored(keys[..], slot);
      UpdateRepresents(sc, keys[..], values[..], contents, slot, v);
      ghost var values0 := values[..];
      values[slot] := v;
      assert values[..] == values0[slot := v];
      contents := contents[sc.key(keys[slot]) := Entry(keys[slot], v)];
    }
  }
}
