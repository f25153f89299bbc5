/** The records both ingestion scripts send to the vector index, and the loop
    that sends them in batches of four. */
module Upsert {

  /** One index record: `_id`, the embedded `chunk_text`, and the metadata
      fields returned with search hits. */
  datatype Record = Record(
    id: string,
    chunkText: string,
    condition: string,
    plantName: string,
    scientificName: string,
    preparation: string,
    source: string)

  const BatchSize: nat := 4

  /** The concatenation of a list of batches. */
  function Flatten<T>(batches: seq<seq<T>>): seq<T> {
    if batches == [] then [] else batches[0] + Flatten(batches[1..])
  }

  lemma {:induction false} FlattenAppend<T>(batches: seq<seq<T>>, b: seq<T>)
    ensures Flatten(batches + [b]) == Flatten(batches) + b
  {
    if batches == [] {
      assert [] + [b] == [b];
      assert [b][1..] == [];
    } else {
      assert (batches + [b])[0] == batches[0];
      assert (batches + [b])[1..] == batches[1..] + [b];
      FlattenAppend(batches[1..], b);
    }
  }

  /** The upsert loop: `for (i = 0; i < n; i += 4) upsert(records.slice(i, i + 4))`.
      The batches sent are non-empty, hold at most four records, number
      ceil(n / 4), and together are the record list in its original order. */
  method UpsertInBatches<T>(records: seq<T>) returns (batches: seq<seq<T>>)
    ensures |batches| == (|records| + BatchSize - 1) / BatchSize
    ensures forall k :: 0 <= k < |batches| ==> 0 < |batches[k]| <= BatchSize
    ensures forall k :: 0 <= k < |batches| - 1 ==> |batches[k]| == BatchSize
    ensures Flatten(batches) == records
  {
    var n := |records|;
    batches := [];
    var i := 0;
    while i < n
      invariant i == BatchSize * |batches|
      invariant i < n + BatchSize
      invariant Flatten(batches) == records[..if i <= n then i else n]
      invariant forall k :: 0 <= k < |batches| ==> 0 < |batches[k]| <= BatchSize
      invariant i <= n ==> forall k :: 0 <= k < |batches| ==> |batches[k]| == BatchSize
      invariant i > n ==> forall k :: 0 <= k < |batches| - 1 ==> |batches[k]| == BatchSize
      decreases n - i
    {
      var end := if i + BatchSize < n then i + BatchSize else n;
      var batch := records[i..end];
      FlattenAppend(batches, batch);
      assert records[..i] + batch == records[..end];
      batches := batches + [batch];
      i := i + BatchSize;
    }
    assert records[..n] == records;
  }
}
