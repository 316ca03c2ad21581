/** `stack()` from the fetch on: the fetched tuples are decoded, their metadata
    folded and the rows indexed by asset id. The connection pool, the query
    text and the final print are outside the model. */
module AutoStack {
  import opened Values
  import opened Rows
  import opened Metadata
  import opened Assets
  import opened FetchRetry

  /** `list(map(lambda x: dict(zip(headers, x)), got))`: every tuple with all
      66 selected columns becomes a row holding the four metadata columns. */
  function DecodeAll(tuples: seq<seq<Value>>): (rows: seq<Row>)
    ensures |rows| == |tuples|
    ensures forall i :: 0 <= i < |tuples| ==> rows[i] == Decode(tuples[i])
    ensures forall i :: 0 <= i < |tuples| && |tuples[i]| >= HeaderCount ==>
              MetadataColumns <= rows[i].Keys
  {
    FullRowsHaveMetadataColumns(tuples);
    seq(|tuples|, i requires 0 <= i < |tuples| => Decode(tuples[i]))
  }

  /** `FullRowHasMetadataColumns` for every tuple of a fetch. */
  lemma FullRowsHaveMetadataColumns(tuples: seq<seq<Value>>)
    ensures forall i :: 0 <= i < |tuples| && |tuples[i]| >= HeaderCount ==>
              MetadataColumns <= Decode(tuples[i]).Keys
  {
    forall i | 0 <= i < |tuples| && |tuples[i]| >= HeaderCount
      ensures MetadataColumns <= Decode(tuples[i]).Keys
    {
      FullRowHasMetadataColumns(tuples[i]);
    }
  }

  /** The `assets` dict `stack()` builds, or the exception that leaves it. */
  function Stack(outcomes: seq<Attempt>): (r: Result<map<Value, Asset>>)
    requires |outcomes| >= MaxAttempts
    ensures r == Failure(UnboundLocalError("res"))
        <==> forall a :: 0 <= a < MaxAttempts ==> outcomes[a].OperationalError?
    ensures forall a: nat :: FirstDecisive(outcomes, a) && outcomes[a].Failed? ==>
              r == Failure(Raised(outcomes[a].exception))
    ensures forall a: nat :: FirstDecisive(outcomes, a) && outcomes[a].Fetched? ==>
              r == Ingest(DecodeAll(outcomes[a].tuples))
  {
    match Fetch(outcomes)
    case Exhausted => Failure(UnboundLocalError("res"))
    case Propagated(e, _) => Failure(Raised(e))
    case Rows(tuples, _) => Ingest(DecodeAll(tuples))
  }

  /** A tuple with every selected column decodes to a row holding all four
      metadata columns. */
  lemma FullRowHasMetadataColumns(tuple: seq<Value>)
    requires |tuple| >= HeaderCount
    ensures MetadataColumns <= Decode(tuple).Keys
  {
    MetadataHeaders();
    assert forall i :: 62 <= i < HeaderCount ==> Headers()[i] in Decode(tuple);
  }

  /** Rows as the query returns them, with all 66 columns, never make the
      metadata deletions raise: the ingestion step always succeeds on them. */
  lemma FullRowsIngest(tuples: seq<seq<Value>>)
    requires forall i :: 0 <= i < |tuples| ==> |tuples[i]| >= HeaderCount
    ensures Ingest(DecodeAll(tuples)).Success?
  {
    // `DecodeAll` already guarantees every row its metadata columns, which is
    // the failure condition of `Ingest`.
  }
}
