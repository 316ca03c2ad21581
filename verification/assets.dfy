/** The second loop of `stack()` and the whole ingestion step: rows are
    indexed by `asset.id`, the last row for an id winning, and each indexed row
    gets the metadata folded for its id. */
module Assets {
  import opened Values
  import opened Metadata

  /** The key under which the script stores an asset's metadata in its row. */
  const MetadataAttribute := "asset_metadata"

  /** An indexed asset. The script's dict is `columns` with the key
      `asset_metadata` set to `metadata`. */
  datatype Asset = Asset(columns: Row, metadata: Metadata)

  /** `i['asset_metadata'] = metadata[i['asset.id']]`. */
  function Attach(row: Row, index: MetadataIndex): (a: Asset)
    ensures a.columns.Keys == row.Keys - {MetadataAttribute}
    ensures forall c :: c in a.columns ==> a.columns[c] == row[c]
    ensures a.metadata == Lookup(index, IdOf(row))
  {
    Asset(row - {MetadataAttribute}, Lookup(index, IdOf(row)))
  }

  /** The `assets` dict after the second loop has visited `rows`, in order. */
  function IndexAssets(rows: seq<Row>, index: MetadataIndex): (assets: map<Value, Asset>)
    ensures |assets| <= |rows|
    ensures forall id :: id in assets ==> Truthy(id)
    decreases |rows|
  {
    if |rows| == 0 then map[]
    else
      var assets := IndexAssets(rows[..|rows| - 1], index);
      var row := rows[|rows| - 1];
      if Truthy(IdOf(row)) then assets[IdOf(row) := Attach(row, index)] else assets
  }

  /** The ids of `assets` are exactly the truthy ids among the rows. */
  lemma {:induction false} IndexKeys(rows: seq<Row>, index: MetadataIndex, id: Value)
    ensures id in IndexAssets(rows, index)
        <==> Truthy(id) && exists j :: 0 <= j < |rows| && IdOf(rows[j]) == id
    decreases |rows|
  {
    if |rows| > 0 {
      var front := rows[..|rows| - 1];
      IndexKeys(front, index, id);
      assert forall j :: 0 <= j < |front| ==> front[j] == rows[j];
      if Truthy(id) && exists j :: 0 <= j < |rows| && IdOf(rows[j]) == id {
        var j :| 0 <= j < |rows| && IdOf(rows[j]) == id;
        if j < |front| {
          assert IdOf(front[j]) == id;
        }
      }
    }
  }

  /** The asset stored for an id comes from the last row with that id. */
  lemma {:induction false} IndexLastRow(rows: seq<Row>, index: MetadataIndex, j: nat)
    requires j < |rows| && Truthy(IdOf(rows[j]))
    requires forall j' :: j < j' < |rows| ==> IdOf(rows[j']) != IdOf(rows[j])
    ensures IdOf(rows[j]) in IndexAssets(rows, index)
    ensures IndexAssets(rows, index)[IdOf(rows[j])] == Attach(rows[j], index)
    decreases |rows|
  {
    if j < |rows| - 1 {
      var front := rows[..|rows| - 1];
      assert front[j] == rows[j];
      IndexLastRow(front, index, j);
    }
  }

  /** No row with a missing or falsy id is indexed: every stored asset carries
      its own truthy id as `asset.id`, and the metadata folded for that id. */
  lemma {:induction false} IndexedAssetsWellFormed(rows: seq<Row>, index: MetadataIndex)
    ensures forall id :: id in IndexAssets(rows, index) ==>
              && Truthy(id)
              && IdColumn in IndexAssets(rows, index)[id].columns
              && IndexAssets(rows, index)[id].columns[IdColumn] == id
              && IndexAssets(rows, index)[id].metadata == Lookup(index, id)
    decreases |rows|
  {
    if |rows| > 0 {
      IndexedAssetsWellFormed(rows[..|rows| - 1], index);
    }
  }

  /** Lines 187-202 over decoded rows: strip and fold the metadata, then index
      the stripped rows. The step fails exactly when a contributing row lacks
      one of the four metadata columns, with a KeyError for one of them. */
  function Ingest(rows: seq<Row>): (r: Result<map<Value, Asset>>)
    ensures r.Failure?
        <==> exists i :: 0 <= i < |rows| && Contributes(rows[i]) && !(MetadataColumns <= rows[i].Keys)
    ensures r.Failure? ==> r.error.KeyError? && r.error.key in MetadataColumns
    ensures r.Failure? ==>
              exists i :: && 0 <= i < |rows|
                          && StripRow(rows[i]) == Failure(r.error)
                          && forall i' :: 0 <= i' < i ==> StripRow(rows[i']).Success?
  {
    match StripAll(rows)
    case Failure(e) => Failure(e)
    case Success(stripped) => Success(IndexAssets(stripped, FoldMetadata(rows)))
  }

  lemma StrippingKeepsIds(rows: seq<Row>)
    requires StripAll(rows).Success?
    ensures |StripAll(rows).value| == |rows|
    ensures forall j :: 0 <= j < |rows| ==> IdOf(StripAll(rows).value[j]) == IdOf(rows[j])
  {
  }

  /** On success the assets are keyed by exactly the truthy ids of the input
      rows. */
  lemma IngestKeys(rows: seq<Row>, id: Value)
    requires Ingest(rows).Success?
    ensures id in Ingest(rows).value
        <==> Truthy(id) && exists j :: 0 <= j < |rows| && IdOf(rows[j]) == id
  {
    StrippingKeepsIds(rows);
    IndexKeys(StripAll(rows).value, FoldMetadata(rows), id);
  }

  /** No row with a missing or falsy id reaches the result: every asset is
      stored under a truthy id, holds that id as its `asset.id` column, and
      carries the metadata folded for that id. */
  lemma IngestAssetsCarryIds(rows: seq<Row>)
    requires Ingest(rows).Success?
    ensures forall id :: id in Ingest(rows).value ==>
              && Truthy(id)
              && IdColumn in Ingest(rows).value[id].columns
              && Ingest(rows).value[id].columns[IdColumn] == id
              && Ingest(rows).value[id].metadata == Lookup(FoldMetadata(rows), id)
  {
    IndexedAssetsWellFormed(StripAll(rows).value, FoldMetadata(rows));
  }

  /** The asset for an id is built from the last row with that id, stripped,
      and carries the metadata of every row with that id. */
  lemma IngestLastRow(rows: seq<Row>, j: nat)
    requires Ingest(rows).Success?
    requires j < |rows| && Truthy(IdOf(rows[j]))
    requires forall j' :: j < j' < |rows| ==> IdOf(rows[j']) != IdOf(rows[j])
    ensures IdOf(rows[j]) in Ingest(rows).value
    ensures Ingest(rows).value[IdOf(rows[j])].columns == StripRow(rows[j]).value - {MetadataAttribute}
    ensures Ingest(rows).value[IdOf(rows[j])].metadata == Lookup(FoldMetadata(rows), IdOf(rows[j]))
  {
    var stripped := StripAll(rows).value;
    StrippingKeepsIds(rows);
    IndexLastRow(stripped, FoldMetadata(rows), j);
  }

  /** An indexed asset's metadata holds key `key` exactly when some row with
      that id carries `key` and a truthy value, whichever row the asset itself
      came from. */
  lemma IngestMetadataKeys(rows: seq<Row>, id: Value, key: Value)
    requires Ingest(rows).Success? && id in Ingest(rows).value
    ensures key in Ingest(rows).value[id].metadata
        <==> exists j :: 0 <= j < |rows| && ContributesTo(rows[j], id, key)
  {
    IndexedAssetsWellFormed(StripAll(rows).value, FoldMetadata(rows));
    MetadataKeys(rows, id, key);
  }

  /** Of several rows giving an asset the same key, the last one's value wins. */
  lemma IngestMetadataLastWins(rows: seq<Row>, j: nat, key: Value)
    requires forall i :: 0 <= i < |rows| && Contributes(rows[i]) ==> MetadataColumns <= rows[i].Keys
    requires j < |rows| && ContributesTo(rows[j], IdOf(rows[j]), key)
    requires forall j' :: j < j' < |rows| ==> !ContributesTo(rows[j'], IdOf(rows[j]), key)
    ensures Ingest(rows).Success?
    ensures IdOf(rows[j]) in Ingest(rows).value
    ensures key in Ingest(rows).value[IdOf(rows[j])].metadata
    ensures Ingest(rows).value[IdOf(rows[j])].metadata[key] == Get(rows[j], ValueColumn)
  {
    var id := IdOf(rows[j]);
    IngestKeys(rows, id);
    IndexedAssetsWellFormed(StripAll(rows).value, FoldMetadata(rows));
    MetadataLastWins(rows, j, id, key);
  }
}
