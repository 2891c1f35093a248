/**
 Hash join (PochiVM/mini_db_backend/query_plan_ast.hpp:694-734, 812-847): the build side stores, for each key, a growing
 vector of rows; the probe side walks the vector its key finds.
 A vector is a block of words: capacity, size, then the rows.
 */
module HashJoin {
  import opened HashTable
  import RowMemory

  type Vectors = RowMemory.QueryExecutionTempAllocator<nat>

  /** A block that holds these rows. */
  ghost predicate VectorOk(block: seq<nat>, rows: seq<nat>) {
    && |block| >= 3 && block[0] == |block| - 2
    && block[1] == |rows| <= block[0]
    && block[2..2 + |rows|] == rows
  }

  /** A new, empty vector of capacity eight. */
  method NewVector(alloc: Vectors) returns (vec: nat)
    requires alloc.Valid()
    modifies alloc
    ensures alloc.Valid() && vec !in old(alloc.blocks) && vec in alloc.blocks
    ensures alloc.blocks == old(alloc.blocks)[vec := alloc.blocks[vec]] && VectorOk(alloc.blocks[vec], [])
  {
    var initSize := 8;
    vec := alloc.Allocate(initSize + 2);
    alloc.Assign(vec, 0, initSize);
    alloc.Assign(vec, 1, 0);
  }

  /** The copy loop of a vector that is full. */
  method DoubleVector(alloc: Vectors, vec: nat, ghost rows: seq<nat>) returns (expandedVec: nat)
    requires alloc.Valid() && vec in alloc.blocks && VectorOk(alloc.blocks[vec], rows)
    requires alloc.blocks[vec][0] == alloc.blocks[vec][1]
    modifies alloc
    ensures alloc.Valid() && expandedVec !in old(alloc.blocks) && expandedVec in alloc.blocks
    ensures alloc.blocks == old(alloc.blocks)[expandedVec := alloc.blocks[expandedVec]]
    ensures VectorOk(alloc.blocks[expandedVec], rows) && alloc.blocks[expandedVec][1] < alloc.blocks[expandedVec][0]
  {
    ghost var block := alloc.blocks[vec];
    var oldSize := alloc.blocks[vec][1];
    var newSize := oldSize + oldSize;
    expandedVec := alloc.Allocate(newSize + 2);
    alloc.Assign(expandedVec, 0, newSize);
    alloc.Assign(expandedVec, 1, oldSize);
    var i := 0;
    while i < oldSize
      invariant i <= oldSize && alloc.Valid() && vec in alloc.blocks && expandedVec in alloc.blocks
      invariant alloc.blocks == old(alloc.blocks)[expandedVec := alloc.blocks[expandedVec]]
      invariant |alloc.blocks[expandedVec]| == newSize + 2
      invariant alloc.blocks[expandedVec][0] == newSize && alloc.blocks[expandedVec][1] == oldSize
      invariant alloc.blocks[expandedVec][2..2 + i] == block[2..2 + i]
    {
      ghost var before := alloc.blocks[expandedVec];
      alloc.Assign(expandedVec, 2 + i, alloc.blocks[vec][2 + i]);
      assert alloc.blocks[expandedVec][2..2 + (i + 1)] == before[2..2 + i] + [block[2 + i]];
      i := i + 1;
    }
  }

  /** Appends a row in place. */
  method PushBack(alloc: Vectors, vec: nat, row: nat, ghost rows: seq<nat>)
    requires alloc.Valid() && vec in alloc.blocks && VectorOk(alloc.blocks[vec], rows)
    requires alloc.blocks[vec][1] < alloc.blocks[vec][0]
    modifies alloc
    ensures alloc.Valid() && vec in alloc.blocks
    ensures alloc.blocks == old(alloc.blocks)[vec := alloc.blocks[vec]] && VectorOk(alloc.blocks[vec], rows + [row])
  {
    alloc.Assign(vec, 2 + alloc.blocks[vec][1], row);
    alloc.Assign(vec, 1, alloc.blocks[vec][1] + 1);
  }

  /** Each key's table value is the address of its own vector, which holds its list of rows. */
  ghost predicate Listed<K(!new)>(contents: map<K, Entry<nat>>, blocks: map<nat, seq<nat>>, lists: map<K, seq<nat>>) {
    && (forall q :: q in contents <==> q in lists)
    && (forall q :: q in lists ==> contents[q].value in blocks && VectorOk(blocks[contents[q].value], lists[q]))
    && (forall p, q {:trigger contents[p], contents[q]} ::
          p in lists && q in lists && contents[p].value == contents[q].value ==> p == q)
  }

  /** A key's vector is ready at `vec`: the one it had, or a new one with the same rows. */
  ghost predicate VectorReady<K(!new)>(contents: map<K, Entry<nat>>, blocks: map<nat, seq<nat>>, q: K, rows: seq<nat>,
      contents': map<K, Entry<nat>>, blocks': map<nat, seq<nat>>, vec: nat)
  {
    && q in contents' && contents'[q].value == vec && vec in blocks' && VectorOk(blocks'[vec], rows)
    && if q in contents && contents[q].value == vec then contents' == contents && blocks' == blocks
       else vec !in blocks && contents' == contents[q := contents'[q]] && blocks' == blocks[vec := blocks'[vec]]
  }

  /** The rows a key's vector should hold. */
  ghost predicate HasRows<K(!new)>(contents: map<K, Entry<nat>>, blocks: map<nat, seq<nat>>, q: K, rows: seq<nat>) {
    if q in contents then contents[q].value in blocks && VectorOk(blocks[contents[q].value], rows) else rows == []
  }

  lemma ListedReady<K(!new)>(contents: map<K, Entry<nat>>, blocks: map<nat, seq<nat>>, lists: map<K, seq<nat>>, q: K,
      rows: seq<nat>,
      contents': map<K, Entry<nat>>, blocks': map<nat, seq<nat>>, vec: nat)
    requires q in lists ==> lists[q] == rows
    requires Listed(contents, blocks, lists)
    requires VectorReady(contents, blocks, q, rows, contents', blocks', vec)
    ensures Listed(contents', blocks', lists[q := rows])
  {
  }

  lemma ListedWrite<K(!new)>(contents: map<K, Entry<nat>>, blocks: map<nat, seq<nat>>, lists: map<K, seq<nat>>,
      q: K, block: seq<nat>, rows: seq<nat>)
    requires Listed(contents, blocks, lists) && q in lists && VectorOk(block, rows)
    ensures Listed(contents, blocks[contents[q].value := block], lists[q := rows])
  {
  }

  /** The lists are the build rows of each key, in insertion order. */
  ghost predicate ListOk<K>(sc: Schema<K>, build: seq<nat>, lists: map<K, seq<nat>>, q: K) {
    if RowsOf(sc, build, q) == [] then q !in lists else q in lists && lists[q] == RowsOf(sc, build, q)
  }

  ghost predicate Collected<K(!new)>(sc: Schema<K>, build: seq<nat>, lists: map<K, seq<nat>>) {
    forall q :: ListOk(sc, build, lists, q)
  }

  function ListAt<K>(lists: map<K, seq<nat>>, q: K): seq<nat> {
    if q in lists then lists[q] else []
  }

  function Extended<K>(lists: map<K, seq<nat>>, q: K, row: nat): map<K, seq<nat>> {
    lists[q := ListAt(lists, q) + [row]]
  }

  lemma CollectedSnoc<K(!new)>(sc: Schema<K>, build: seq<nat>, row: nat, lists: map<K, seq<nat>>)
    requires Collected(sc, build, lists)
    ensures Collected(sc, build + [row], Extended(lists, sc.key(row), row))
  {
    var lists' := Extended(lists, sc.key(row), row);
    forall p
      ensures ListOk(sc, build + [row], lists', p)
    {
      assert ListOk(sc, build, lists, p);
      RowsOfSnoc(sc, build, row, p);
    }
  }

  class HashJoinHashTableOutputter<K(==, !new)> {
    const container: HashTableContainer<K, nat>
    const alloc: Vectors
    ghost var build: seq<nat>
    ghost var lists: map<K, seq<nat>>

    ghost predicate Valid()
      reads this, container, container.keys, container.values, alloc
    {
      && container.Valid() && container.count <= |build|
      && alloc.Valid()
      && Listed(container.contents, alloc.blocks, lists)
      && Collected(container.sc, build, lists)
    }

    constructor (sc: Schema<K>)
      ensures Valid() && build == [] && container.sc == sc
      ensures fresh(container) && fresh(container.keys) && fresh(container.values) && fresh(alloc)
    {
      container := new HashTableContainer<K, nat>.EmitDeclaration(sc);
      alloc := new RowMemory.QueryExecutionTempAllocator<nat>();
      build, lists := [], map[];
    }

    /** The probe, storing an unseen key with an empty vector. */
    method FindVector(inputRow: nat, ghost rows: seq<nat>) returns (slot: nat)
      requires container.Valid() && alloc.Valid() && inputRow != 0 && container.count < 0x300_0000_0000_0000
      requires HasRows(container.contents, alloc.blocks, container.sc.key(inputRow), rows)
      modifies container, container.keys, container.values, alloc
      ensures container.Valid() && alloc.Valid() && container.count <= old(container.count) + 1
      ensures container.keys == old(container.keys) || fresh(container.keys)
      ensures container.values == old(container.values) || fresh(container.values)
      ensures slot < container.tableSize && container.keys[slot] != 0
      ensures container.sc.key(container.keys[slot]) == container.sc.key(inputRow)
      ensures VectorReady(old(container.contents), old(alloc.blocks), container.sc.key(inputRow), rows,
                          container.contents, alloc.blocks, container.values[slot])
    {
      if container.count >= container.expandThreshold {
        RoomToGrow(container.log2, container.expandThreshold, container.count);
      }
      slot := container.EmitProbe(container.sc.key(inputRow), true);
      if container.keys[slot] == 0 {
        var newVec := NewVector(alloc);
        container.Insert(slot, inputRow, newVec);
      }
    }

    /** The growth of a full vector. */
    method MakeRoom(slot: nat, ghost rows: seq<nat>) returns (vec: nat)
      requires container.Valid() && alloc.Valid() && slot < container.tableSize && container.keys[slot] != 0
      requires var q := container.sc.key(container.keys[slot]);
               q in container.contents && container.contents[q].value == container.values[slot]
      requires container.values[slot] in alloc.blocks && VectorOk(alloc.blocks[container.values[slot]], rows)
      modifies container`contents, container.values, alloc
      ensures container.Valid() && alloc.Valid()
      ensures VectorReady(old(container.contents), old(alloc.blocks), container.sc.key(container.keys[slot]), rows,
                          container.contents, alloc.blocks, vec)
      ensures alloc.blocks[vec][1] < alloc.blocks[vec][0]
    {
      vec := container.values[slot];
      if alloc.blocks[vec][0] == alloc.blocks[vec][1] {
        var expandedVec := DoubleVector(alloc, vec, rows);
        container.SetValue(slot, expandedVec);
        vec := expandedVec;
      }
    }

    /** A build row's vector, found or made, with room for the row. */
    method ReadyVector(inputRow: nat, ghost rows: seq<nat>, ghost lists1: map<K, seq<nat>>) returns (vec: nat)
      requires container.Valid() && alloc.Valid() && inputRow != 0 && container.count < 0x300_0000_0000_0000
      requires Listed(container.contents, alloc.blocks, lists)
      requires var q := container.sc.key(inputRow); rows == ListAt(lists, q) && lists1 == lists[q := rows]
      modifies container, container.keys, container.values, alloc
      ensures container.Valid() && alloc.Valid() && container.count <= old(container.count) + 1
      ensures container.keys == old(container.keys) || fresh(container.keys)
      ensures container.values == old(container.values) || fresh(container.values)
      ensures Listed(container.contents, alloc.blocks, lists1)
      ensures vec == container.contents[container.sc.key(inputRow)].value && alloc.blocks[vec][1] < alloc.blocks[vec][0]
    {
      ghost var q := container.sc.key(inputRow);
      var slot := FindVector(inputRow, rows);
      ListedReady(old(container.contents), old(alloc.blocks), lists, q, rows, container.contents, alloc.blocks,
        container.values[slot]);
      vec := MoreRoom(slot, q, rows, lists1);
    }

    method MoreRoom(slot: nat, ghost q: K, ghost rows: seq<nat>, ghost lists1: map<K, seq<nat>>) returns (vec: nat)
      requires container.Valid() && alloc.Valid() && slot < container.tableSize && container.keys[slot] != 0
      requires q == container.sc.key(container.keys[slot])
      requires Listed(container.contents, alloc.blocks, lists1) && q in lists1 && lists1[q] == rows
      requires container.contents[q].value == container.values[slot]
      modifies container`contents, container.values, alloc
      ensures container.Valid() && alloc.Valid() && Listed(container.contents, alloc.blocks, lists1)
      ensures vec == container.contents[q].value && alloc.blocks[vec][1] < alloc.blocks[vec][0]
    {
      vec := MakeRoom(slot, rows);
      ListedReady(old(container.contents), old(alloc.blocks), lists1, q, rows, container.contents, alloc.blocks, vec);
      assert lists1[q := rows] == lists1;
    }

    method AppendRow(vec: nat, inputRow: nat, ghost q: K, ghost lists1: map<K, seq<nat>>)
      requires lists1 == lists[q := ListAt(lists, q)]
      requires alloc.Valid() && Listed(container.contents, alloc.blocks, lists1) && q in lists1
      requires vec == container.contents[q].value && alloc.blocks[vec][1] < alloc.blocks[vec][0]
      modifies alloc
      ensures alloc.Valid() && Listed(container.contents, alloc.blocks, Extended(lists, q, inputRow))
    {
      PushBack(alloc, vec, inputRow, lists1[q]);
      ListedWrite(container.contents, old(alloc.blocks), lists1, q, alloc.blocks[vec], lists1[q] + [inputRow]);
      assert lists1[q := lists1[q] + [inputRow]] == Extended(lists, q, inputRow);
    }

    /** What the emitted code does with one build row. */
    method Consume(inputRow: nat)
      requires Valid() && inputRow != 0 && |build| < 0x300_0000_0000_0000
      modifies this`build, this`lists, container, container.keys, container.values, alloc
      ensures Valid() && build == old(build) + [inputRow]
      ensures container.keys == old(container.keys) || fresh(container.keys)
      ensures container.values == old(container.values) || fresh(container.values)
    {
      ghost var q := container.sc.key(inputRow);
      ghost var lists1 := lists[q := ListAt(lists, q)];
      CollectedSnoc(container.sc, build, inputRow, lists);
      var vec := ReadyVector(inputRow, ListAt(lists, q), lists1);
      AppendRow(vec, inputRow, q, lists1);
      lists := Extended(lists, q, inputRow);
      build := build + [inputRow];
    }

    /** What the emitted code does with one probe row: no growth check, and one output pair per row of the vector
     * found. */
    method ProbeRow(row: nat, joinKey: K) returns (matches: seq<(nat, nat)>)
      requires Valid()
      ensures matches == InnerLoop(container.sc, build, row, joinKey)
    {
      assert ListOk(container.sc, build, lists, joinKey);
      InnerLoopOf(container.sc, build, row, joinKey);
      matches := [];
      var slot := container.Probe(joinKey);
      if container.keys[slot] != 0 {
        var vec := container.values[slot];
        var vecSize := alloc.blocks[vec][1];
        var i := 0;
        while i < vecSize
          invariant i <= vecSize && matches == Paired(row, lists[joinKey][..i])
        {
          assert alloc.blocks[vec][2..2 + vecSize][i] == alloc.blocks[vec][2 + i];
          assert lists[joinKey][..i + 1] == lists[joinKey][..i] + [alloc.blocks[vec][2 + i]];
          matches := matches + [(row, alloc.blocks[vec][2 + i])];
          i := i + 1;
        }
        assert lists[joinKey][..vecSize] == lists[joinKey];
      }
    }
  }

  function Paired(row: nat, rows: seq<nat>): (pairs: seq<(nat, nat)>)
    ensures |pairs| == |rows| && forall i :: 0 <= i < |rows| ==> pairs[i] == (row, rows[i])
  {
    seq(|rows|, i requires 0 <= i < |rows| => (row, rows[i]))
  }

  /** The inner loop of a nested-loop join: scan all build rows for the probe row's key. */
  function InnerLoop<K(==)>(sc: Schema<K>, build: seq<nat>, row: nat, joinKey: K): seq<(nat, nat)> {
    if build == [] then []
    else
      var last := |build| - 1;
      InnerLoop(sc, build[..last], row, joinKey) + if sc.key(build[last]) == joinKey then [(row, build[last])] else []
  }

  /** The nested-loop join: for every probe row in order, for every build row in order. */
  function NestedLoopJoin<K(==)>(sc: Schema<K>, build: seq<nat>, joinKey: nat -> K, probe: seq<nat>): seq<(nat, nat)> {
    if probe == [] then []
    else
      var last := |probe| - 1;
      NestedLoopJoin(sc, build, joinKey, probe[..last]) + InnerLoop(sc, build, probe[last], joinKey(probe[last]))
  }

  lemma {:induction false} InnerLoopOf<K>(sc: Schema<K>, build: seq<nat>, row: nat, joinKey: K)
    ensures InnerLoop(sc, build, row, joinKey) == Paired(row, RowsOf(sc, build, joinKey))
  {
    if build != [] {
      InnerLoopOf(sc, build[..|build| - 1], row, joinKey);
    }
  }

  /** The pairs at these positions of probe and build rows: lexicographic, and all those whose keys match. */
  ghost predicate JoinsAt<K>(sc: Schema<K>, build: seq<nat>, joinKey: nat -> K, probe: seq<nat>, at: seq<(nat, nat)>,
      result: seq<(nat, nat)>) {
    && |at| == |result|
    && (forall a {:trigger at[a]} :: 0 <= a < |at| ==>
          at[a].0 < |probe| && at[a].1 < |build| && result[a] == (probe[at[a].0], build[at[a].1]))
    && (forall a, b {:trigger at[a], at[b]} :: 0 <= a < b < |at| ==>
          at[a].0 < at[b].0 || (at[a].0 == at[b].0 && at[a].1 < at[b].1))
    && (forall i: nat, j: nat {:trigger (i, j) in at} :: (i, j) in at <==>
          i < |probe| && j < |build| && sc.key(build[j]) == joinKey(probe[i]))
  }

  /** What a nested-loop join is, without a loop. */
  lemma {:induction false} JoinPositions<K>(sc: Schema<K>, build: seq<nat>, joinKey: nat -> K, probe: seq<nat>)
    returns (at: seq<(nat, nat)>)
    ensures JoinsAt(sc, build, joinKey, probe, at, NestedLoopJoin(sc, build, joinKey, probe))
  {
    at := [];
    if probe != [] {
      var last := |probe| - 1;
      var before := JoinPositions(sc, build, joinKey, probe[..last]);
      InnerLoopOf(sc, build, probe[last], joinKey(probe[last]));
      var js := RowsOfPositions(sc, build, joinKey(probe[last]));
      at := before + seq(|js|, b requires 0 <= b < |js| => (last, js[b]));
      JoinGrows(sc, build, joinKey, probe, before, js, at);
    }
  }

  lemma JoinGrows<K>(sc: Schema<K>, build: seq<nat>, joinKey: nat -> K, probe: seq<nat>, before: seq<(nat, nat)>,
      js: seq<nat>, at: seq<(nat, nat)>)
    requires probe != [] && |at| == |before| + |js| && at[..|before|] == before
    requires forall b :: 0 <= b < |js| ==> at[|before| + b] == (|probe| - 1, js[b])
    requires forall a, b :: 0 <= a < b < |js| ==> js[a] < js[b]
    requires forall j: nat :: j in js <==> j < |build| && sc.key(build[j]) == joinKey(probe[|probe| - 1])
    requires var last := |probe| - 1;
             && JoinsAt(sc, build, joinKey, probe[..last], before, NestedLoopJoin(sc, build, joinKey, probe[..last]))
             && |js| == |InnerLoop(sc, build, probe[last], joinKey(probe[last]))|
    requires forall b :: 0 <= b < |js| ==> js[b] < |build|
    requires var last := |probe| - 1;
             forall b :: 0 <= b < |js| ==>
               InnerLoop(sc, build, probe[last], joinKey(probe[last]))[b] == (probe[last], build[js[b]])
    ensures JoinsAt(sc, build, joinKey, probe, at, NestedLoopJoin(sc, build, joinKey, probe))
  {
    var last := |probe| - 1;
    forall i: nat, j: nat
      ensures (i, j) in at <==> i < |probe| && j < |build| && sc.key(build[j]) == joinKey(probe[i])
    {
      if i == last && j in js {
        var b :| 0 <= b < |js| && js[b] == j;
        assert at[|before| + b] == (i, j);
      }
      assert (i, j) in before ==> (i, j) in at;
      if (i, j) in at {
        var a :| 0 <= a < |at| && at[a] == (i, j);
        if a < |before| {
          assert before[a] == (i, j);
        } else {
          assert at[|before| + (a - |before|)] == (last, js[a - |before|]);
        }
      }
    }
    forall a | 0 <= a < |at|
      ensures at[a].0 < |probe| && at[a].1 < |build|
      ensures NestedLoopJoin(sc, build, joinKey, probe)[a] == (probe[at[a].0], build[at[a].1])
    {
      if a < |before| {
        assert at[a] == before[a];
      } else {
        assert at[|before| + (a - |before|)] == (last, js[a - |before|]);
      }
    }
    forall a, b | 0 <= a < b < |at|
      ensures at[a].0 < at[b].0 || (at[a].0 == at[b].0 && at[a].1 < at[b].1)
    {
      assert a < |before| ==> at[a] == before[a];
      assert b < |before| ==> at[b] == before[b];
      assert a >= |before| ==> at[|before| + (a - |before|)] == (last, js[a - |before|]);
      assert b >= |before| ==> at[|before| + (b - |before|)] == (last, js[b - |before|]);
    }
  }

  /** The build stage. */
  method BuildTable<K(==, !new)>(sc: Schema<K>, build: seq<nat>) returns (out: HashJoinHashTableOutputter<K>)
    requires 0 !in build && |build| < 0x300_0000_0000_0000
    ensures fresh(out) && out.Valid() && out.build == build && out.container.sc == sc
  {
    out := new HashJoinHashTableOutputter<K>(sc);
    var i := 0;
    while i < |build|
      invariant i <= |build| && out.Valid() && out.build == build[..i] && out.container.sc == sc
      invariant fresh(out) && fresh(out.container) && fresh(out.container.keys) && fresh(out.container.values) &&
        fresh(out.alloc)
    {
      assert build[i] in build;
      out.Consume(build[i]);
      i := i + 1;
    }
    assert build[..|build|] == build;
  }

  /** The code emitted for a hash join: the build stage, then the probe stage. */
  method HashJoinQuery<K(==, !new)>(sc: Schema<K>, build: seq<nat>, joinKey: nat -> K, probe: seq<nat>)
      returns (result: seq<(nat, nat)>)
    requires 0 !in build && |build| < 0x300_0000_0000_0000
    ensures result == NestedLoopJoin(sc, build, joinKey, probe)
    ensures exists at :: JoinsAt(sc, build, joinKey, probe, at, result)
  {
    ghost var at := JoinPositions(sc, build, joinKey, probe);
    var out := BuildTable(sc, build);
    result := [];
    var i := 0;
    while i < |probe|
      invariant i <= |probe| && out.Valid() && out.build == build && out.container.sc == sc
      invariant result == NestedLoopJoin(sc, build, joinKey, probe[..i])
    {
      var matches := out.ProbeRow(probe[i], joinKey(probe[i]));
      result := result + matches;
      assert probe[..i + 1][..i] == probe[..i];
      i := i + 1;
    }
    assert probe[..|probe|] == probe;
  }
}
