/**
 Hash aggregation (PochiVM/mini_db_backend/query_plan_ast.hpp:141-168, 588-605, 644-692): every input row is probed
 into the table, its group's aggregation row is created on first sight and then updated in place.
 */
module GroupBy {
  import opened HashTable
  import RowMemory
  import opened Wrappers

  /** An aggregation's initial-value expressions and its optional update expression per field. */
  datatype Plan<!V> = Plan(initial: seq<nat -> V>, update: seq<Option<(seq<V>, nat) -> V>>)

  ghost predicate PlanOk<V>(plan: Plan<V>) {
    |plan.initial| == |plan.update|
  }

  /** The initial field values of a group whose first row is `row`. */
  function Initial<V>(plan: Plan<V>, row: nat): (fields: seq<V>)
    ensures |fields| == |plan.initial|
  {
    seq(|plan.initial|, i requires 0 <= i < |plan.initial| => plan.initial[i](row))
  }

  /** The fields after the first n update expressions ran, each seeing the assignments before it. */
  function Updated<V>(plan: Plan<V>, fields: seq<V>, row: nat, n: nat): (fields': seq<V>)
    requires n <= |plan.update| == |fields|
    ensures |fields'| == |fields|
  {
    if n == 0 then fields
    else
      var before := Updated(plan, fields, row, n - 1);
      match plan.update[n - 1]
      case None => before
      case Some(e) => before[n - 1 := e(before, row)]
  }

  /** The fold of the update list, from the initial values, over a group's rows in input order. */
  function Fold<V>(plan: Plan<V>, rows: seq<nat>): (fields: seq<V>)
    requires |plan.initial| == |plan.update| && |rows| > 0
    ensures |fields| == |plan.initial|
  {
    var last := |rows| - 1;
    Updated(plan, if last == 0 then Initial(plan, rows[0]) else Fold(plan, rows[..last]), rows[last], |plan.update|)
  }

  /**
   Field by field: a field without an update expression keeps its value, and the others have their expression's value
   on the row as it is when their turn comes, with the fields in front of them already updated.
   */
  ghost predicate FieldsUpdated<V>(plan: Plan<V>, f: seq<V>, row: nat, r: seq<V>) {
    && |f| == |r| == |plan.update|
    && forall i {:trigger r[i]} {:trigger plan.update[i]} :: 0 <= i < |r| ==> FieldUpdated(plan, f, row, r, i)
  }

  ghost predicate FieldUpdated<V>(plan: Plan<V>, f: seq<V>, row: nat, r: seq<V>, i: nat)
    requires i < |f| == |r| == |plan.update|
  {
    if plan.update[i].None? then r[i] == f[i] else r[i] == plan.update[i].value(r[..i] + f[i..], row)
  }

  lemma {:induction false} UpdatedSplits<V>(plan: Plan<V>, f: seq<V>, row: nat, n: nat, i: nat)
    requires i <= n <= |plan.update| == |f|
    ensures Updated(plan, f, row, i) == Updated(plan, f, row, n)[..i] + f[i..]
  {
    if n == 0 {
      assert f == f[..0] + f[0..];
    } else if i < n {
      UpdatedSplits(plan, f, row, n - 1, i);
    } else {
      UpdatedSplits(plan, f, row, n - 1, n - 1);
      assert f[n - 1..][1..] == f[n..];
    }
  }

  lemma UpdatedFields<V>(plan: Plan<V>, f: seq<V>, row: nat)
    requires |plan.update| == |f|
    ensures FieldsUpdated(plan, f, row, Updated(plan, f, row, |f|))
  {
    var r := Updated(plan, f, row, |f|);
    forall i | 0 <= i < |r|
      ensures FieldUpdated(plan, f, row, r, i)
    {
      UpdatedSplits(plan, f, row, |f|, i);
      UpdatedSplits(plan, f, row, |f|, i + 1);
      assert r[i] == Updated(plan, f, row, i + 1)[i];
      assert f[i] == (r[..i] + f[i..])[i];
    }
  }

  function Total(value: nat -> int, rows: seq<nat>): int {
    if rows == [] then 0 else value(rows[0]) + Total(value, rows[1..])
  }

  lemma {:induction false} TotalSnoc(value: nat -> int, rows: seq<nat>, row: nat)
    ensures Total(value, rows + [row]) == Total(value, rows) + value(row)
  {
    if rows == [] {
      assert ([row])[1..] == [] && [] + [row] == [row];
    } else {
      assert (rows + [row])[1..] == rows[1..] + [row];
      TotalSnoc(value, rows[1..], row);
    }
  }

  /** Field i adds a value of each row to itself. */
  ghost predicate RunningSum(plan: Plan<int>, i: nat, value: nat -> int) {
    && i < |plan.update| && plan.update[i].Some?
    && forall f, row :: |f| == |plan.update| ==> plan.update[i].value(f, row) == f[i] + value(row)
  }

  lemma SumStep(plan: Plan<int>, i: nat, value: nat -> int, f: seq<int>, row: nat)
    requires RunningSum(plan, i, value) && |f| == |plan.update|
    ensures Updated(plan, f, row, |f|)[i] == f[i] + value(row)
  {
    var r := Updated(plan, f, row, |f|);
    UpdatedFields(plan, f, row);
    assert FieldUpdated(plan, f, row, r, i);
    assert (r[..i] + f[i..])[i] == f[i];
  }

  /** A running sum ends as its initial value plus the values of all rows of the group. */
  lemma {:induction false} FoldSums(plan: Plan<int>, i: nat, value: nat -> int, rows: seq<nat>)
    requires PlanOk(plan) && RunningSum(plan, i, value) && rows != []
    ensures Fold(plan, rows)[i] == plan.initial[i](rows[0]) + Total(value, rows)
  {
    var last := |rows| - 1;
    var f := if last == 0 then Initial(plan, rows[0]) else Fold(plan, rows[..last]);
    SumStep(plan, i, value, f, rows[last]);
    assert rows == rows[..last] + [rows[last]];
    TotalSnoc(value, rows[..last], rows[last]);
    if last > 0 {
      FoldSums(plan, i, value, rows[..last]);
    }
  }

  lemma FoldSnoc<V>(plan: Plan<V>, rows: seq<nat>, row: nat)
    requires PlanOk(plan)
    ensures rows == [] ==> Fold(plan, rows + [row]) == Updated(plan, Initial(plan, row), row, |plan.update|)
    ensures rows != [] ==> Fold(plan, rows + [row]) == Updated(plan, Fold(plan, rows), row, |plan.update|)
  {
    assert (rows + [row])[..|rows|] == rows;
  }

  /** The emitted initialisation of every field of a new aggregation row. */
  method EmitInit<V(0)>(memory: RowMemory.QueryExecutionTempAllocator<V>, plan: Plan<V>, aggRow: nat, inputRow: nat)
    requires memory.Valid() && aggRow in memory.blocks && |memory.blocks[aggRow]| == |plan.initial|
    modifies memory
    ensures memory.Valid() && memory.blocks == old(memory.blocks)[aggRow := Initial(plan, inputRow)]
    ensures forall i :: 0 <= i < |plan.initial| ==> memory.blocks[aggRow][i] == plan.initial[i](inputRow)
  {
    var i := 0;
    while i < |plan.initial|
      invariant i <= |plan.initial| && memory.Valid() && aggRow in memory.blocks
      invariant |memory.blocks[aggRow]| == |plan.initial|
      invariant memory.blocks[aggRow][..i] == Initial(plan, inputRow)[..i]
      invariant memory.blocks == old(memory.blocks)[aggRow := memory.blocks[aggRow]]
    {
      memory.Assign(aggRow, i, plan.initial[i](inputRow));
      i := i + 1;
    }
    assert memory.blocks[aggRow] == memory.blocks[aggRow][..i] == Initial(plan, inputRow);
  }

  /** The emitted update of an aggregation row, field after field in place. */
  method EmitUpdate<V(0)>(memory: RowMemory.QueryExecutionTempAllocator<V>, plan: Plan<V>, aggRow: nat, inputRow: nat)
    requires PlanOk(plan) && memory.Valid() && aggRow in memory.blocks && |memory.blocks[aggRow]| == |plan.update|
    modifies memory
    ensures memory.Valid()
    ensures memory.blocks
         == old(memory.blocks)[aggRow := Updated(plan, old(memory.blocks)[aggRow], inputRow, |plan.update|)]
    ensures FieldsUpdated(plan, old(memory.blocks)[aggRow], inputRow, memory.blocks[aggRow])
  {
    UpdatedFields(plan, memory.blocks[aggRow], inputRow);
    var i := 0;
    while i < |plan.update|
      invariant i <= |plan.update| && memory.Valid() && aggRow in memory.blocks
      invariant memory.blocks[aggRow] == Updated(plan, old(memory.blocks)[aggRow], inputRow, i)
      invariant memory.blocks == old(memory.blocks)[aggRow := memory.blocks[aggRow]]
    {
      if plan.update[i].Some? {
        memory.Assign(aggRow, i, plan.update[i].value(memory.blocks[aggRow], inputRow));
      }
      i := i + 1;
    }
  }

  /** A group holds the fold over its rows; a key without rows has no group. */
  ghost predicate GroupOk<K, V>(sc: Schema<K>, plan: Plan<V>, input: seq<nat>, groups: map<K, seq<V>>, q: K)
    requires PlanOk(plan)
  {
    var rows := RowsOf(sc, input, q);
    if rows == [] then q !in groups else q in groups && groups[q] == Fold(plan, rows)
  }

  ghost predicate Aggregated<K(!new), V>(sc: Schema<K>, plan: Plan<V>, input: seq<nat>, groups: map<K, seq<V>>)
    requires PlanOk(plan)
  {
    forall q :: GroupOk(sc, plan, input, groups, q)
  }

  /** The groups once the row's group exists. */
  function Opened<K, V>(sc: Schema<K>, plan: Plan<V>, groups: map<K, seq<V>>, row: nat): map<K, seq<V>> {
    if sc.key(row) in groups then groups else groups[sc.key(row) := Initial(plan, row)]
  }

  /** The groups after one more row. */
  function Absorbed<K, V>(sc: Schema<K>, plan: Plan<V>, groups: map<K, seq<V>>, row: nat): map<K, seq<V>>
    requires PlanOk(plan) && (sc.key(row) in groups ==> |groups[sc.key(row)]| == |plan.update|)
  {
    var withGroup := Opened(sc, plan, groups, row);
    withGroup[sc.key(row) := Updated(plan, withGroup[sc.key(row)], row, |plan.update|)]
  }

  lemma AggregatedSnoc<K(!new), V>(sc: Schema<K>, plan: Plan<V>, input: seq<nat>, row: nat, groups: map<K, seq<V>>)
    requires PlanOk(plan) && Aggregated(sc, plan, input, groups)
    ensures sc.key(row) in groups ==> |groups[sc.key(row)]| == |plan.update|
    ensures Aggregated(sc, plan, input + [row], Absorbed(sc, plan, groups, row))
  {
    var q := sc.key(row);
    assert GroupOk(sc, plan, input, groups, q);
    forall p
      ensures GroupOk(sc, plan, input + [row], Absorbed(sc, plan, groups, row), p)
    {
      assert GroupOk(sc, plan, input, groups, p);
      RowsOfSnoc(sc, input, row, p);
      if p == q {
        FoldSnoc(plan, RowsOf(sc, input, q), row);
      } else {
        assert RowsOf(sc, input + [row], p) == RowsOf(sc, input, p);
      }
    }
  }

  /** Each group's table value is the address of its own aggregation row. */
  ghost predicate Linked<K(!new), V>(contents: map<K, Entry<nat>>, blocks: map<nat, seq<V>>, groups: map<K, seq<V>>) {
    && (forall q :: q in contents <==> q in groups)
    && (forall q :: q in groups ==> contents[q].value in blocks && blocks[contents[q].value] == groups[q])
    && (forall p, q {:trigger contents[p], contents[q]} ::
          p in groups && q in groups && contents[p].value == contents[q].value ==> p == q)
  }

  /** What finding a group does: nothing if it exists, else a new block for it. */
  ghost predicate GroupFound<K(!new), V>(contents: map<K, Entry<nat>>, blocks: map<nat, seq<V>>, q: K, initial: seq<V>,
      contents': map<K, Entry<nat>>, blocks': map<nat, seq<V>>, aggRow: nat)
  {
    && q in contents' && contents'[q].value == aggRow
    && if q in contents && contents[q].value != 0 then contents' == contents && blocks' == blocks
       else aggRow !in blocks && contents' == contents[q := contents'[q]] && blocks' == blocks[aggRow := initial]
  }

  lemma LinkedFound<K(!new), V>(contents: map<K, Entry<nat>>, blocks: map<nat, seq<V>>, groups: map<K, seq<V>>, q: K,
      initial: seq<V>,
      contents': map<K, Entry<nat>>, blocks': map<nat, seq<V>>, aggRow: nat)
    requires Linked(contents, blocks, groups) && 0 !in blocks
    requires GroupFound(contents, blocks, q, initial, contents', blocks', aggRow)
    ensures Linked(contents', blocks', if q in groups then groups else groups[q := initial])
  {
  }

  lemma LinkedUpdate<K(!new), V>(contents: map<K, Entry<nat>>, blocks: map<nat, seq<V>>, groups: map<K, seq<V>>, q: K,
      fields: seq<V>)
    requires Linked(contents, blocks, groups) && q in groups
    ensures Linked(contents, blocks[contents[q].value := fields], groups[q := fields])
  {
  }

  class GroupByHashTableOutputter<K(==, !new), V(0)> {
    const plan: Plan<V>
    const container: HashTableContainer<K, nat>
    const alloc: RowMemory.QueryExecutionTempAllocator<V>
    ghost var input: seq<nat>
    ghost var groups: map<K, seq<V>>

    ghost predicate Valid()
      reads this, container, container.keys, container.values, alloc
    {
      && PlanOk(plan)
      && container.Valid() && container.count <= |input|
      && alloc.Valid()
      && Linked(container.contents, alloc.blocks, groups)
      && Aggregated(container.sc, plan, input, groups)
    }

    constructor (sc: Schema<K>, plan: Plan<V>)
      requires PlanOk(plan)
      ensures Valid() && input == [] && container.sc == sc && this.plan == plan
      ensures fresh(container) && fresh(container.keys) && fresh(container.values) && fresh(alloc)
    {
      this.plan := plan;
      container := new HashTableContainer<K, nat>.EmitDeclaration(sc);
      alloc := new RowMemory.QueryExecutionTempAllocator<V>();
      input, groups := [], map[];
    }

    /** The probe, storing an unseen key with a null aggregation row. */
    method FindSlot(inputRow: nat) returns (slot: nat)
      requires container.Valid() && inputRow != 0 && container.count < 0x300_0000_0000_0000
      modifies container, container.keys, container.values
      ensures container.Valid() && container.count <= old(container.count) + 1
      ensures container.keys == old(container.keys) || fresh(container.keys)
      ensures container.values == old(container.values) || fresh(container.values)
      ensures var q := container.sc.key(inputRow);
              && container.contents
                 == (if q in old(container.contents) then old(container.contents)
                     else old(container.contents)[q := Entry(inputRow, 0)])
              && slot < container.tableSize && container.keys[slot] != 0 && container.sc.key(container.keys[slot]) == q
              && container.values[slot] == container.contents[q].value
    {
      if container.count >= container.expandThreshold {
        RoomToGrow(container.log2, container.expandThreshold, container.count);
      }
      slot := container.EmitProbe(container.sc.key(inputRow), true);
      if container.keys[slot] == 0 {
        container.Insert(slot, inputRow, 0);
      }
    }

    /** The branch for a null aggregation row. */
    method CreateGroup(inputRow: nat, slot: nat)
      requires PlanOk(plan) && container.Valid() && alloc.Valid()
      requires slot < container.tableSize && container.keys[slot] != 0
      requires container.sc.key(container.keys[slot]) == container.sc.key(inputRow)
      modifies container`contents, container.values, alloc
      ensures container.Valid() && alloc.Valid() && container.values[slot] !in old(alloc.blocks)
      ensures alloc.blocks == old(alloc.blocks)[container.values[slot] := Initial(plan, inputRow)]
      ensures container.contents
           == old(container.contents)[container.sc.key(inputRow) := Entry(container.keys[slot], container.values[slot])]
    {
      var newAggRow := alloc.Allocate(|plan.initial|);
      container.SetValue(slot, newAggRow);
      EmitInit(alloc, plan, newAggRow, inputRow);
    }

    /** The probe, and the creation of a group that is not there yet. */
    method FindGroup(inputRow: nat) returns (aggRow: nat)
      requires PlanOk(plan) && container.Valid() && alloc.Valid()
      requires inputRow != 0 && container.count < 0x300_0000_0000_0000
      modifies container, container.keys, container.values, alloc
      ensures container.Valid() && alloc.Valid() && container.count <= old(container.count) + 1
      ensures container.keys == old(container.keys) || fresh(container.keys)
      ensures container.values == old(container.values) || fresh(container.values)
      ensures GroupFound(old(container.contents), old(alloc.blocks), container.sc.key(inputRow),
        Initial(plan, inputRow), container.contents, alloc.blocks, aggRow)
    {
      var slot := FindSlot(inputRow);
      if container.values[slot] == 0 {
        CreateGroup(inputRow, slot);
      }
      aggRow := container.values[slot];
    }

    /** What the emitted code does with one input row. */
    method Consume(inputRow: nat)
      requires Valid() && inputRow != 0 && |input| < 0x300_0000_0000_0000
      modifies this`input, this`groups, container, container.keys, container.values, alloc
      ensures Valid() && input == old(input) + [inputRow]
      ensures container.keys == old(container.keys) || fresh(container.keys)
      ensures container.values == old(container.values) || fresh(container.values)
    {
      AggregatedSnoc(container.sc, plan, input, inputRow, groups);
      var aggRow := OpenGroup(inputRow);
      AbsorbRow(aggRow, inputRow);
      groups := Absorbed(container.sc, plan, groups, inputRow);
      input := input + [inputRow];
    }

    /** The row's group, found or created. */
    method OpenGroup(inputRow: nat) returns (aggRow: nat)
      requires PlanOk(plan) && container.Valid() && alloc.Valid() && Linked(container.contents, alloc.blocks, groups)
      requires inputRow != 0 && container.count < 0x300_0000_0000_0000
      modifies container, container.keys, container.values, alloc
      ensures container.Valid() && alloc.Valid() && container.count <= old(container.count) + 1
      ensures container.keys == old(container.keys) || fresh(container.keys)
      ensures container.values == old(container.values) || fresh(container.values)
      ensures Linked(container.contents, alloc.blocks, Opened(container.sc, plan, groups, inputRow))
      ensures aggRow == container.contents[container.sc.key(inputRow)].value
    {
      aggRow := FindGroup(inputRow);
      LinkedFound(old(container.contents), old(alloc.blocks), groups, container.sc.key(inputRow),
        Initial(plan, inputRow), container.contents, alloc.blocks, aggRow);
    }

    /** The update of the aggregation row. */
    method AbsorbRow(aggRow: nat, inputRow: nat)
      requires PlanOk(plan) && alloc.Valid()
      requires container.sc.key(inputRow) in groups ==> |groups[container.sc.key(inputRow)]| == |plan.update|
      requires Linked(container.contents, alloc.blocks, Opened(container.sc, plan, groups, inputRow))
      requires aggRow == container.contents[container.sc.key(inputRow)].value
      modifies alloc
      ensures alloc.Valid()
      ensures Linked(container.contents, alloc.blocks, Absorbed(container.sc, plan, groups, inputRow))
    {
      ghost var q, withGroup := container.sc.key(inputRow), Opened(container.sc, plan, groups, inputRow);
      LinkedUpdate(container.contents, alloc.blocks, withGroup, q,
        Updated(plan, withGroup[q], inputRow, |plan.update|));
      EmitUpdate(alloc, plan, aggRow, inputRow);
    }

    /** The generator of the next stage: every group's aggregation row, in slot order. */
    method EmitGroups() returns (result: seq<seq<V>>, ghost order: seq<K>)
      requires Valid()
      ensures |order| == |result| && Distinct(order)
      ensures forall q :: q in order <==> q in groups
      ensures forall k :: 0 <= k < |order| ==> order[k] in groups && result[k] == groups[order[k]]
    {
      result, order := [], [];
      var i := 0;
      while i < container.tableSize
        invariant i <= container.tableSize && |order| == |result| && Distinct(order)
        invariant forall q :: q in order <==> HasSlotBelow(container.sc, container.keys[..], i, q)
        invariant forall k :: 0 <= k < |order| ==> order[k] in groups && result[k] == groups[order[k]]
      {
        SlotGroup(container.sc, container.keys[..], container.values[..], container.contents, alloc.blocks, groups, i);
        if container.keys[i] != 0 {
          result := result + [alloc.blocks[container.values[i]]];
          order := order + [container.sc.key(container.keys[i])];
        }
        i := i + 1;
      }
      assert forall q :: q in container.contents ==> HasSlot(container.sc, container.keys[..], q);
      assert forall q :: HasSlot(container.sc, container.keys[..], q) ==> q in container.contents by {
        StoredOnly(container.sc, container.keys[..], container.values[..], container.contents);
      }
    }
  }

  ghost predicate Distinct<K>(order: seq<K>) {
    forall i, j :: 0 <= i < j < |order| ==> order[i] != order[j]
  }

  lemma StoredOnly<K(!new)>(sc: Schema<K>, keys: seq<nat>, values: seq<nat>, contents: map<K, Entry<nat>>)
    requires |keys| == |values| && Represents(sc, keys, values, contents)
    ensures forall q :: HasSlot(sc, keys, q) ==> q in contents
  {
    forall q | HasSlot(sc, keys, q)
      ensures q in contents
    {
      var s :| 0 <= s < |keys| && keys[s] != 0 && sc.key(keys[s]) == q;
      assert Stored(keys, s);
    }
  }

  /** The row in slot i belongs to a group that no earlier slot holds. */
  lemma SlotGroup<K(!new), V>(sc: Schema<K>, keys: seq<nat>, values: seq<nat>, contents: map<K, Entry<nat>>,
      blocks: map<nat, seq<V>>, groups: map<K, seq<V>>, i: nat)
    requires |keys| == |values| >= 1 && Reachable(sc, keys) && Represents(sc, keys, values, contents) && i < |keys|
    requires Linked(contents, blocks, groups)
    ensures keys[i] != 0 ==>
              var q := sc.key(keys[i]);
              !HasSlotBelow(sc, keys, i, q) && q in groups && values[i] in blocks && blocks[values[i]] == groups[q]
    ensures forall q :: HasSlotBelow(sc, keys, i + 1, q) <==>
              HasSlotBelow(sc, keys, i, q) || (keys[i] != 0 && q == sc.key(keys[i]))
  {
    if keys[i] != 0 {
      var q := sc.key(keys[i]);
      assert Stored(keys, i);
      if HasSlotBelow(sc, keys, i, q) {
        var s :| 0 <= s < i && keys[s] != 0 && sc.key(keys[s]) == q;
        assert Stored(keys, s);
        StopIsUnique(sc, keys, q, s, i);
      }
    }
  }

  ghost predicate HasRow<K>(sc: Schema<K>, rows: seq<nat>, q: K) {
    exists r :: r in rows && sc.key(r) == q
  }

  lemma {:induction false} RowsOfMembers<K>(sc: Schema<K>, input: seq<nat>, q: K)
    ensures RowsOf(sc, input, q) != [] <==> HasRow(sc, input, q)
  {
    if input != [] {
      var last := |input| - 1;
      RowsOfMembers(sc, input[..last], q);
      assert input == input[..last] + [input[last]];
    }
  }

  /** The answer of a grouping query: each distinct key once, with the fold over its rows in input order. */
  ghost predicate IsGrouping<K(!new), V>(sc: Schema<K>, plan: Plan<V>, rows: seq<nat>, order: seq<K>,
      result: seq<seq<V>>)
    requires PlanOk(plan)
  {
    && |order| == |result| && Distinct(order)
    && (forall q :: q in order <==> HasRow(sc, rows, q))
    && (forall k :: 0 <= k < |order| ==>
          RowsOf(sc, rows, order[k]) != [] && result[k] == Fold(plan, RowsOf(sc, rows, order[k])))
  }

  /** In the answer of a grouping query, a running sum over a group is its initial value plus the values of its rows. */
  lemma GroupingSums<K(!new)>(sc: Schema<K>, plan: Plan<int>, rows: seq<nat>, order: seq<K>, result: seq<seq<int>>,
      k: nat, i: nat, value: nat -> int)
    requires PlanOk(plan) && IsGrouping(sc, plan, rows, order, result) && k < |order| && RunningSum(plan, i, value)
    ensures var group := RowsOf(sc, rows, order[k]);
            group != [] && i < |result[k]| && result[k][i] == plan.initial[i](group[0]) + Total(value, group)
  {
    FoldSums(plan, i, value, RowsOf(sc, rows, order[k]));
  }

  lemma GroupsAnswer<K(!new), V>(sc: Schema<K>, plan: Plan<V>, rows: seq<nat>, groups: map<K, seq<V>>, order: seq<K>,
      result: seq<seq<V>>)
    requires PlanOk(plan) && Aggregated(sc, plan, rows, groups)
    requires |order| == |result| && Distinct(order)
    requires forall q :: q in order <==> q in groups
    requires forall k :: 0 <= k < |order| ==> order[k] in groups && result[k] == groups[order[k]]
    ensures IsGrouping(sc, plan, rows, order, result)
  {
    forall q
      ensures q in order <==> HasRow(sc, rows, q)
    {
      assert GroupOk(sc, plan, rows, groups, q);
      RowsOfMembers(sc, rows, q);
    }
    forall k | 0 <= k < |order|
      ensures RowsOf(sc, rows, order[k]) != [] && result[k] == Fold(plan, RowsOf(sc, rows, order[k]))
    {
      assert GroupOk(sc, plan, rows, groups, order[k]);
    }
  }

  /** The code emitted for GROUP BY: the aggregation stage over all rows, then the generator of the next stage. */
  method GroupByQuery<K(==, !new), V(0)>(sc: Schema<K>, plan: Plan<V>, rows: seq<nat>) returns (result: seq<seq<V>>)
    requires PlanOk(plan) && 0 !in rows && |rows| < 0x300_0000_0000_0000
    ensures exists order :: IsGrouping(sc, plan, rows, order, result)
  {
    var out := new GroupByHashTableOutputter<K, V>(sc, plan);
    var i := 0;
    while i < |rows|
      invariant i <= |rows| && out.Valid() && out.input == rows[..i] && out.container.sc == sc && out.plan == plan
      invariant fresh(out) && fresh(out.container) && fresh(out.container.keys) && fresh(out.container.values) &&
        fresh(out.alloc)
    {
      assert rows[i] in rows;
      out.Consume(rows[i]);
      i := i + 1;
    }
    assert rows[..|rows|] == rows;
    ghost var order;
    result, order := out.EmitGroups();
    GroupsAnswer(sc, plan, rows, out.groups, order, result);
  }
}
