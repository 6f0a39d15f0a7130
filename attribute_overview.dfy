/**
 * The overview form of a product attribute: the value map (row index to saved
 * value id, or '_new' for a row not saved yet) and the delete queue that the form
 * keeps in its form state, the "Add" and "Remove" buttons that edit them, the
 * table rows that buildForm derives from them, and the storage calls of the
 * final submit.
 */
module AttributeOverview {
  import opened Wrappers

  /** The id of a saved product attribute value entity. */
  type ValueId = nat

  /** What a row of the value map refers to: the '_new' marker or a saved value's id. */
  datatype ValueRef = NewValue | Saved(id: ValueId)

  /** One `$index => $id` pair of the value map. */
  datatype Entry = Entry(index: nat, ref: ValueRef)

  /** A product attribute value entity; `id` is None while it is not saved. */
  datatype AttributeValue = AttributeValue(id: Option<ValueId>, name: string, weight: int)

  /** The inline entity form operation of a row. */
  datatype Op = Add | Edit

  /**
   * One row of the values table: its index (also the remove button's
   * `#value_index`), the inline form's operation and default entity, the weight
   * field's default value and the row's `#weight`.
   */
  datatype Row = Row(index: nat, op: Op, defaultValue: Option<AttributeValue>, defaultWeight: int, weight: Option<int>)

  /** The submitted values of one row: the entity built by its inline form and the weight field. */
  datatype SubmittedRow = SubmittedRow(entity: AttributeValue, weight: int)

  /** A call into the value storage: load and delete the given ids, or save one entity. */
  datatype StorageCall = Delete(ids: seq<Option<ValueId>>) | Save(value: AttributeValue)

  // ---------------------------------------------------------------------------
  // The attribute's saved values
  // ---------------------------------------------------------------------------

  /** getValues(): saved entities, keyed by their ids, so every id is present and distinct. */
  predicate Loaded(values: seq<AttributeValue>)
  {
    && (forall k :: 0 <= k < |values| ==> values[k].id.Some?)
    && (forall i, j :: 0 <= i < j < |values| ==> values[i].id != values[j].id)
  }

  /** `$values[$id]`: the saved value with that id, or NULL. */
  function ValueOf(values: seq<AttributeValue>, id: ValueId): (r: Option<AttributeValue>)
    ensures r.Some? ==> r.value in values && r.value.id == Some(id)
    ensures r.None? <==> forall k :: 0 <= k < |values| ==> values[k].id != Some(id)
  {
    if values == [] then None
    else if values[0].id == Some(id) then Some(values[0])
    else ValueOf(values[1..], id)
  }

  /** array_keys($values) stored as the value map: index k refers to the k-th saved value. */
  function InitialMap(values: seq<AttributeValue>): (m: seq<Entry>)
    requires Loaded(values)
    ensures |m| == |values|
    ensures forall k :: 0 <= k < |m| ==> m[k] == Entry(k, Saved(values[k].id.value))
  {
    seq(|values|, k requires 0 <= k < |values| => Entry(k, Saved(values[k].id.value)))
  }

  // ---------------------------------------------------------------------------
  // The value map as a PHP array with integer keys
  // ---------------------------------------------------------------------------

  /** The keys of the map grow in insertion order, so no key occurs twice. */
  predicate Ascending(m: seq<Entry>)
  {
    forall i, j :: 0 <= i < j < |m| ==> m[i].index < m[j].index
  }

  /** `$value_map[$index]`: the reference stored at that index, or NULL. */
  function Lookup(m: seq<Entry>, index: nat): (r: Option<ValueRef>)
    ensures r.None? <==> forall k :: 0 <= k < |m| ==> m[k].index != index
    ensures r.Some? ==> Entry(index, r.value) in m
  {
    if m == [] then None
    else if m[0].index == index then Some(m[0].ref)
    else Lookup(m[1..], index)
  }

  /** The index `$value_map[] = ...` uses: one past the largest index, 0 for an empty map. */
  function NextIndex(m: seq<Entry>): (r: nat)
    requires Ascending(m)
    ensures forall k :: 0 <= k < |m| ==> m[k].index < r
  {
    if m == [] then 0 else m[|m| - 1].index + 1
  }

  /** The map after addValueSubmit: one '_new' row appended after every other. */
  function Added(m: seq<Entry>): (r: seq<Entry>)
    requires Ascending(m)
    ensures Ascending(r)
  {
    m + [Entry(NextIndex(m), NewValue)]
  }

  /** `unset($value_map[$index])`: the other entries stay, in order and under their own index. */
  function Removed(m: seq<Entry>, index: nat): (r: seq<Entry>)
    ensures forall e :: e in r <==> e in m && e.index != index
    ensures Ascending(m) ==> Ascending(r)
  {
    if m == [] then []
    else if m[0].index == index then Removed(m[1..], index)
    else [m[0]] + Removed(m[1..], index)
  }

  /**
   * The delete queue after removing the row that held `removed`: a saved id is
   * queued, a '_new' row queues nothing, and a missing row (NULL, which is not
   * equal to '_new') queues NULL.
   */
  function Queued(queue: seq<Option<ValueId>>, removed: Option<ValueRef>): (r: seq<Option<ValueId>>)
    ensures removed == Some(NewValue) ==> r == queue
    ensures removed != Some(NewValue) ==> |r| == |queue| + 1 && r[..|queue|] == queue
    ensures removed.Some? && removed.value.Saved? ==> r[|queue|] == Some(removed.value.id)
    ensures removed.None? ==> r[|queue|].None?
  {
    match removed
    case None => queue + [None]
    case Some(NewValue) => queue
    case Some(Saved(id)) => queue + [Some(id)]
  }

  // ---------------------------------------------------------------------------
  // Properties of adding and removing rows
  // ---------------------------------------------------------------------------

  /** Adding a row gives exactly the new index a '_new' entry; every other index keeps its entry. */
  lemma {:induction false} AddedLookup(m: seq<Entry>, index: nat)
    requires Ascending(m)
    ensures Lookup(Added(m), index) == if index == NextIndex(m) then Some(NewValue) else Lookup(m, index)
    ensures Lookup(m, NextIndex(m)).None?
    decreases |m|
  {
    if m != [] {
      assert Added(m)[1..] == m[1..] + [Entry(NextIndex(m), NewValue)];
      if m[1..] != [] {
        assert NextIndex(m[1..]) == NextIndex(m);
      }
      if m[0].index != index {
        AddedLookup(m[1..], index);
      }
      if m[0].index != NextIndex(m) {
        AddedLookup(m[1..], NextIndex(m));
      }
    }
  }

  /** Removing a row clears exactly its index; every other index keeps its entry: nothing is renumbered. */
  lemma {:induction false} RemovedLookup(m: seq<Entry>, index: nat, other: nat)
    ensures Lookup(Removed(m, index), other) == if other == index then None else Lookup(m, other)
    decreases |m|
  {
    if m != [] {
      RemovedLookup(m[1..], index, other);
    }
  }

  /** The ids of the saved rows of a map, in map order. */
  function SavedIds(m: seq<Entry>): (r: seq<Option<ValueId>>)
    ensures |r| <= |m|
    ensures forall k :: 0 <= k < |r| ==> r[k].Some?
  {
    if m == [] then []
    else match m[0].ref
      case NewValue => SavedIds(m[1..])
      case Saved(id) => [Some(id)] + SavedIds(m[1..])
  }

  /** The map and queue after pressing "Remove" on each of the given indexes in turn. */
  function RemoveEach(m: seq<Entry>, queue: seq<Option<ValueId>>, indexes: seq<nat>): (seq<Entry>, seq<Option<ValueId>>)
    decreases |indexes|
  {
    if indexes == [] then (m, queue)
    else RemoveEach(Removed(m, indexes[0]), Queued(queue, Lookup(m, indexes[0])), indexes[1..])
  }

  /** The indexes of a map, in map order. */
  function IndexesOf(m: seq<Entry>): (r: seq<nat>)
    ensures |r| == |m| && forall k :: 0 <= k < |m| ==> r[k] == m[k].index
  {
    seq(|m|, k requires 0 <= k < |m| => m[k].index)
  }

  /**
   * Removing every row, top to bottom, empties the map and queues the id of
   * every saved row in row order; '_new' rows leave no trace.
   */
  lemma {:induction false} RemoveEveryRow(m: seq<Entry>, queue: seq<Option<ValueId>>)
    requires Ascending(m)
    ensures RemoveEach(m, queue, IndexesOf(m)) == ([], queue + SavedIds(m))
    decreases |m|
  {
    if m != [] {
      var rest := m[1..];
      var queue' := Queued(queue, Lookup(m, m[0].index));
      RemovedHead(m);
      assert IndexesOf(m)[1..] == IndexesOf(rest);
      assert RemoveEach(m, queue, IndexesOf(m)) == RemoveEach(rest, queue', IndexesOf(rest));
      RemoveEveryRow(rest, queue');
      QueuedHead(m, queue);
    } else {
      assert queue + SavedIds(m) == queue;
    }
  }

  /** Removing the first row queues exactly what SavedIds counts for it. */
  lemma QueuedHead(m: seq<Entry>, queue: seq<Option<ValueId>>)
    requires m != []
    ensures Queued(queue, Lookup(m, m[0].index)) + SavedIds(m[1..]) == queue + SavedIds(m)
  {
    match m[0].ref
    case NewValue =>
    case Saved(id) =>
      assert queue + [Some(id)] + SavedIds(m[1..]) == queue + ([Some(id)] + SavedIds(m[1..]));
  }

  /** In an ascending map, removing the first row's index leaves the rest as it is. */
  lemma RemovedHead(m: seq<Entry>)
    requires Ascending(m) && m != []
    ensures Removed(m, m[0].index) == m[1..]
  {
    RemovedAbsent(m[1..], m[0].index);
  }

  /** Removing an index that is not in the map changes nothing. */
  lemma {:induction false} RemovedAbsent(m: seq<Entry>, index: nat)
    requires forall k :: 0 <= k < |m| ==> m[k].index != index
    ensures Removed(m, index) == m
    decreases |m|
  {
    if m != [] {
      RemovedAbsent(m[1..], index);
    }
  }

  // ---------------------------------------------------------------------------
  // Building the rows
  // ---------------------------------------------------------------------------

  /** The foreach of buildForm over the value map; None where `$values[$id]` is NULL and getWeight() fails. */
  method BuildRows(m: seq<Entry>, values: seq<AttributeValue>, userWeights: map<nat, int>) returns (rows: Option<seq<Row>>)
    ensures rows.None? <==> exists k :: 0 <= k < |m| && m[k].ref.Saved? && ValueOf(values, m[k].ref.id).None?
    ensures rows.Some? ==> |rows.value| == |m|
    ensures rows.Some? ==> forall k :: 0 <= k < |m| ==>
      && rows.value[k].index == m[k].index
      && rows.value[k].weight == (if m[k].index in userWeights then Some(userWeights[m[k].index]) else None)
      && (m[k].ref == NewValue ==>
            && rows.value[k].op == Add
            && rows.value[k].defaultValue.None?
            && rows.value[k].defaultWeight == m[k].index)
      && (m[k].ref.Saved? ==>
            && rows.value[k].op == Edit
            && rows.value[k].defaultValue == ValueOf(values, m[k].ref.id)
            && rows.value[k].defaultWeight == ValueOf(values, m[k].ref.id).value.weight)
  {
    var built: seq<Row> := [];
    for k := 0 to |m|
      invariant |built| == k
      invariant forall j :: 0 <= j < k ==> m[j].ref.Saved? ==> ValueOf(values, m[j].ref.id).Some?
      invariant forall j :: 0 <= j < k ==>
        && built[j].index == m[j].index
        && built[j].weight == (if m[j].index in userWeights then Some(userWeights[m[j].index]) else None)
        && (m[j].ref == NewValue ==>
              built[j].op == Add && built[j].defaultValue.None? && built[j].defaultWeight == m[j].index)
        && (m[j].ref.Saved? ==>
              && built[j].op == Edit
              && built[j].defaultValue == ValueOf(values, m[j].ref.id)
              && built[j].defaultWeight == ValueOf(values, m[j].ref.id).value.weight)
    {
      var index := m[k].index;
      var weight := if index in userWeights then Some(userWeights[index]) else None;
      var row;
      match m[k].ref {
        case NewValue =>
          row := Row(index, Add, None, index, weight);
        case Saved(id) =>
          var value := ValueOf(values, id);
          if value.None? {
            return None;
          }
          row := Row(index, Edit, value, value.value.weight, weight);
      }
      built := built + [row];
    }
    rows := Some(built);
  }

  // ---------------------------------------------------------------------------
  // The form state
  // ---------------------------------------------------------------------------

  /** The form's `value_map` and `delete_queue`, kept in form state across rebuilds. */
  class OverviewForm {
    var valueMap: seq<Entry>
    var deleteQueue: seq<Option<ValueId>>

    ghost predicate Valid()
      reads this
    {
      Ascending(valueMap)
    }

    /** A form state that holds neither key yet (both read as empty). */
    constructor ()
      ensures Valid() && valueMap == [] && deleteQueue == []
    {
      valueMap := [];
      deleteQueue := [];
    }

    /**
     * buildForm: an empty value map is (re)initialised from the attribute's
     * saved values, whenever it is empty; then one row is built per entry.
     */
    method BuildForm(values: seq<AttributeValue>, userWeights: map<nat, int>) returns (rows: Option<seq<Row>>)
      requires Valid() && Loaded(values)
      modifies this`valueMap
      ensures Valid()
      ensures old(valueMap) != [] ==> valueMap == old(valueMap)
      ensures old(valueMap) == [] ==> valueMap == InitialMap(values)
      ensures rows.None? <==> exists k :: 0 <= k < |valueMap| && valueMap[k].ref.Saved? && ValueOf(values, valueMap[k].ref.id).None?
      ensures rows.Some? ==> |rows.value| == |valueMap|
      ensures rows.Some? ==> forall k :: 0 <= k < |valueMap| ==>
        && rows.value[k].index == valueMap[k].index
        && rows.value[k].weight == (if valueMap[k].index in userWeights then Some(userWeights[valueMap[k].index]) else None)
        && (valueMap[k].ref == NewValue ==>
              && rows.value[k].op == Add
              && rows.value[k].defaultValue.None?
              && rows.value[k].defaultWeight == valueMap[k].index)
        && (valueMap[k].ref.Saved? ==>
              && rows.value[k].op == Edit
              && rows.value[k].defaultValue == ValueOf(values, valueMap[k].ref.id)
              && rows.value[k].defaultWeight == ValueOf(values, valueMap[k].ref.id).value.weight)
    {
      if valueMap == [] {
        valueMap := InitialMap(values);
      }
      rows := BuildRows(valueMap, values, userWeights);
    }

    /** addValueSubmit: appends one '_new' row after every existing row. */
    method AddValueSubmit()
      requires Valid()
      modifies this`valueMap
      ensures Valid()
      ensures valueMap == Added(old(valueMap))
      ensures |valueMap| == |old(valueMap)| + 1 && valueMap[..|old(valueMap)|] == old(valueMap)
    {
      valueMap := valueMap + [Entry(NextIndex(valueMap), NewValue)];
    }

    /**
     * removeValueSubmit: unsets the triggering row's index and queues its id
     * for deletion unless the row was '_new'.
     */
    method RemoveValueSubmit(valueIndex: nat)
      requires Valid()
      modifies this
      ensures Valid()
      ensures valueMap == Removed(old(valueMap), valueIndex)
      ensures deleteQueue == Queued(old(deleteQueue), Lookup(old(valueMap), valueIndex))
    {
      var valueId := Lookup(valueMap, valueIndex);
      valueMap := Removed(valueMap, valueIndex);
      if valueId != Some(NewValue) {
        deleteQueue := deleteQueue + [if valueId.None? then None else Some(valueId.value.id)];
      }
    }

    /**
     * submitForm: deletes the queued values (when there are any) before saving
     * each submitted row's entity with the row's weight, in row order.
     */
    method SubmitForm(submitted: seq<SubmittedRow>) returns (calls: seq<StorageCall>)
      ensures |calls| == (if deleteQueue == [] then 0 else 1) + |submitted|
      ensures deleteQueue != [] ==> calls[0] == Delete(deleteQueue)
      ensures forall k :: 0 <= k < |submitted| ==>
        calls[|calls| - |submitted| + k] == Save(submitted[k].entity.(weight := submitted[k].weight))
      ensures forall i, j :: 0 <= i < j < |calls| ==> !(calls[i].Save? && calls[j].Delete?)
    {
      calls := [];
      if deleteQueue != [] {
        calls := [Delete(deleteQueue)];
      }
      var start := |calls|;
      for k := 0 to |submitted|
        invariant |calls| == start + k
        invariant start == (if deleteQueue == [] then 0 else 1)
        invariant start == 1 ==> calls[0] == Delete(deleteQueue)
        invariant forall j :: start <= j < |calls| ==> calls[j].Save?
        invariant forall j :: 0 <= j < k ==> calls[start + j] == Save(submitted[j].entity.(weight := submitted[j].weight))
      {
        var value := submitted[k].entity.(weight := submitted[k].weight);
        calls := calls + [Save(value)];
      }
    }
  }

  /**
   * The rebuild quirk: after every row of a freshly initialised map is removed,
   * the map is empty again, so the next buildForm shows every saved value anew,
   * while the queue already holds every one of their ids for deletion.
   */
  lemma RemoveAllThenRebuild(values: seq<AttributeValue>, queue: seq<Option<ValueId>>)
    requires Loaded(values)
    ensures RemoveEach(InitialMap(values), queue, IndexesOf(InitialMap(values))).0 == []
    ensures RemoveEach(InitialMap(values), queue, IndexesOf(InitialMap(values))).1
      == queue + seq(|values|, k requires 0 <= k < |values| => values[k].id)
  {
    var m := InitialMap(values);
    RemoveEveryRow(m, queue);
    SavedIdsOfInitial(values, m);
  }

  /** Every row of an initial map is saved, so its saved ids are the values' ids in order. */
  lemma {:induction false} SavedIdsOfInitial(values: seq<AttributeValue>, m: seq<Entry>)
    requires |m| == |values|
    requires forall k :: 0 <= k < |m| ==> values[k].id.Some? && m[k].ref == Saved(values[k].id.value)
    ensures SavedIds(m) == seq(|values|, k requires 0 <= k < |values| => values[k].id)
    decreases |m|
  {
    if m != [] {
      SavedIdsOfInitial(values[1..], m[1..]);
    }
  }
}
