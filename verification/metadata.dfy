/** The first loop of `stack()`: one-to-many `asset_metadata` rows are folded
    into a per-asset key/value dict, and each row that contributed loses its
    four `asset_metadata.*` columns. */
module Metadata {
  import opened Values

  const IdColumn := "asset.id"
  const KeyColumn := "asset_metadata.key"
  const ValueColumn := "asset_metadata.value"
  const UpdateIdColumn := "asset_metadata.updateId"
  const UpdatedAtColumn := "asset_metadata.updatedAt"

  /** The columns a contributing row loses. */
  const MetadataColumns: set<string> := {KeyColumn, ValueColumn, UpdateIdColumn, UpdatedAtColumn}

  /** One asset's metadata: `asset_metadata.key` to `asset_metadata.value`. */
  type Metadata = map<Value, Value>

  /** The `metadata` defaultdict: asset id to that asset's metadata. */
  type MetadataIndex = map<Value, Metadata>

  function IdOf(row: Row): Value {
    Get(row, IdColumn)
  }

  /** A row feeds the fold when its id, key and value are all truthy. */
  predicate Contributes(row: Row) {
    Truthy(Get(row, IdColumn)) && Truthy(Get(row, KeyColumn)) && Truthy(Get(row, ValueColumn))
  }

  /** The row contributes the metadata key `key` to the asset `id`. */
  predicate ContributesTo(row: Row, id: Value, key: Value) {
    Contributes(row) && IdOf(row) == id && Get(row, KeyColumn) == key
  }

  /** `metadata[id]` on the defaultdict: an empty dict for an id not seen. */
  function Lookup(index: MetadataIndex, id: Value): Metadata {
    if id in index then index[id] else map[]
  }

  /** The `metadata` dict after the loop has visited `rows`, in order. */
  function FoldMetadata(rows: seq<Row>): (index: MetadataIndex)
    ensures forall id :: id in index <==>
              exists j :: 0 <= j < |rows| && Contributes(rows[j]) && IdOf(rows[j]) == id
    decreases |rows|
  {
    if |rows| == 0 then map[]
    else
      var index := FoldMetadata(rows[..|rows| - 1]);
      var row := rows[|rows| - 1];
      if Contributes(row) then
        var id := IdOf(row);
        index[id := Lookup(index, id)[Get(row, KeyColumn) := Get(row, ValueColumn)]]
      else index
  }

  /** An asset's metadata holds exactly the keys that some contributing row
      with that asset's id carries. */
  lemma {:induction false} MetadataKeys(rows: seq<Row>, id: Value, key: Value)
    ensures key in Lookup(FoldMetadata(rows), id)
        <==> exists j :: 0 <= j < |rows| && ContributesTo(rows[j], id, key)
    decreases |rows|
  {
    if |rows| > 0 {
      var front := rows[..|rows| - 1];
      MetadataKeys(front, id, key);
      assert forall j :: 0 <= j < |front| ==> front[j] == rows[j];
      if exists j :: 0 <= j < |rows| && ContributesTo(rows[j], id, key) {
        var j :| 0 <= j < |rows| && ContributesTo(rows[j], id, key);
        if j < |front| {
          assert ContributesTo(front[j], id, key);
        }
      }
    }
  }

  /** When several rows give the same asset the same key, the last one wins. */
  lemma {:induction false} MetadataLastWins(rows: seq<Row>, j: nat, id: Value, key: Value)
    requires j < |rows| && ContributesTo(rows[j], id, key)
    requires forall j' :: j < j' < |rows| ==> !ContributesTo(rows[j'], id, key)
    ensures key in Lookup(FoldMetadata(rows), id)
    ensures Lookup(FoldMetadata(rows), id)[key] == Get(rows[j], ValueColumn)
    decreases |rows|
  {
    if j < |rows| - 1 {
      var front := rows[..|rows| - 1];
      assert front[j] == rows[j];
      MetadataLastWins(front, j, id, key);
    }
  }

  /** An asset no contributing row names gets an empty metadata dict. */
  lemma {:induction false} MetadataEmptyWithoutRows(rows: seq<Row>, id: Value)
    requires forall j :: 0 <= j < |rows| ==> !(Contributes(rows[j]) && IdOf(rows[j]) == id)
    ensures Lookup(FoldMetadata(rows), id) == map[]
  {
    forall key | key in Lookup(FoldMetadata(rows), id)
      ensures false
    {
      MetadataKeys(rows, id, key);
    }
  }

  /** Every key and value stored in the metadata is truthy. */
  lemma {:induction false} MetadataEntriesTruthy(rows: seq<Row>, id: Value)
    ensures forall key :: key in Lookup(FoldMetadata(rows), id) ==>
              Truthy(id) && Truthy(key) && Truthy(Lookup(FoldMetadata(rows), id)[key])
    decreases |rows|
  {
    if |rows| > 0 {
      MetadataEntriesTruthy(rows[..|rows| - 1], id);
    }
  }

  /** The `del` statements for one row: a contributing row loses exactly the
      four metadata columns, and raises KeyError if it lacks one of them. */
  function StripRow(row: Row): (r: Result<Row>)
    ensures r.Failure? <==> Contributes(row) && !(MetadataColumns <= row.Keys)
    ensures r.Failure? ==> r.error.KeyError? && r.error.key in MetadataColumns && r.error.key !in row
    ensures Contributes(row) && UpdateIdColumn !in row ==> r == Failure(KeyError(UpdateIdColumn))
    ensures Contributes(row) && UpdateIdColumn in row && UpdatedAtColumn !in row ==>
              r == Failure(KeyError(UpdatedAtColumn))
    ensures r.Success? && Contributes(row) ==>
      && r.value.Keys == row.Keys - MetadataColumns
      && forall c :: c in r.value ==> r.value[c] == row[c]
    ensures r.Success? && !Contributes(row) ==> r.value == row
    ensures r.Success? ==> IdOf(r.value) == IdOf(row)
  {
    if !Contributes(row) then Success(row)
    else if UpdateIdColumn !in row then Failure(KeyError(UpdateIdColumn))
    else if UpdatedAtColumn !in row then Failure(KeyError(UpdatedAtColumn))
    else Success(row - MetadataColumns)
  }

  /** The deletions of the whole first loop: every row stripped in order, or
      the KeyError of the first row that cannot be stripped. */
  function StripAll(rows: seq<Row>): (r: Result<seq<Row>>)
    ensures r.Success? <==> forall i :: 0 <= i < |rows| ==> StripRow(rows[i]).Success?
    ensures r.Success? ==>
              && |r.value| == |rows|
              && forall i :: 0 <= i < |rows| ==> r.value[i] == StripRow(rows[i]).value
    ensures r.Failure? ==>
              exists i :: && 0 <= i < |rows|
                          && StripRow(rows[i]) == Failure(r.error)
                          && forall i' :: 0 <= i' < i ==> StripRow(rows[i']).Success?
    decreases |rows|
  {
    if |rows| == 0 then Success([])
    else
      match StripRow(rows[0])
      case Failure(e) => Failure(e)
      case Success(first) =>
        match StripAll(rows[1..])
        case Failure(e) => Failure(e)
        case Success(rest) => Success([first] + rest)
  }
}
