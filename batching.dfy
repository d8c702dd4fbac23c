/**
 * The batches `ReindexManager.getIds` cuts from the one-shot stream of
 * object ids. The stream is the sequence `ids` together with a cursor: the
 * number of ids its iterator has already handed out.
 */
module Batching {

  /** The batch one `getIds` call returns when the cursor stands at `cursor`. */
  function NextBatch(ids: seq<string>, cursor: nat, batchSize: int): (batch: seq<string>)
    requires cursor <= |ids|
    ensures cursor + |batch| <= |ids|
    decreases |ids| - cursor
  {
    if cursor == |ids| || batchSize <= 0 then []
    else [ids[cursor]] + NextBatch(ids, cursor + 1, batchSize - 1)
  }

  /**
   * A batch is the next ids of the stream in stream order, at most
   * `batchSize` of them (none when `batchSize` is not positive), and fewer
   * only when the stream runs out; it is empty exactly when the batch size
   * is not positive or the stream is exhausted.
   */
  lemma {:induction false} NextBatchContents(ids: seq<string>, cursor: nat, batchSize: int)
    requires cursor <= |ids|
    ensures var batch := NextBatch(ids, cursor, batchSize);
      && cursor + |batch| <= |ids|
      && batch == ids[cursor..cursor + |batch|]
      && |batch| <= (if batchSize < 0 then 0 else batchSize)
      && (|batch| < batchSize ==> cursor + |batch| == |ids|)
      && (batch == [] <==> batchSize <= 0 || cursor == |ids|)
    decreases |ids| - cursor
  {
    if cursor < |ids| && batchSize > 0 {
      NextBatchContents(ids, cursor + 1, batchSize - 1);
      var rest := NextBatch(ids, cursor + 1, batchSize - 1);
      assert ids[cursor..cursor + 1 + |rest|] == [ids[cursor]] + ids[cursor + 1..cursor + 1 + |rest|];
    }
  }

  function Flatten(batches: seq<seq<string>>): seq<string>
  {
    if batches == [] then [] else batches[0] + Flatten(batches[1..])
  }

  /**
   * The non-empty batches successive `getIds` calls return from `cursor` on,
   * up to (not including) the first empty one.
   */
  function Batches(ids: seq<string>, cursor: nat, batchSize: int): seq<seq<string>>
    requires cursor <= |ids|
    requires batchSize >= 1
    decreases |ids| - cursor
  {
    var batch := NextBatch(ids, cursor, batchSize);
    if batch == [] then [] else [batch] + Batches(ids, cursor + |batch|, batchSize)
  }

  /**
   * The batches partition the rest of the stream: their concatenation is
   * exactly the ids after the cursor, in order, so none is skipped or handed
   * out twice; every batch has between 1 and `batchSize` ids, and all but the
   * last have exactly `batchSize`.
   */
  lemma {:induction false} BatchesPartition(ids: seq<string>, cursor: nat, batchSize: int)
    requires cursor <= |ids|
    requires batchSize >= 1
    ensures Flatten(Batches(ids, cursor, batchSize)) == ids[cursor..]
    ensures forall i :: 0 <= i < |Batches(ids, cursor, batchSize)| ==>
      1 <= |Batches(ids, cursor, batchSize)[i]| <= batchSize
    ensures forall i :: 0 <= i < |Batches(ids, cursor, batchSize)| - 1 ==>
      |Batches(ids, cursor, batchSize)[i]| == batchSize
    decreases |ids| - cursor
  {
    var batch := NextBatch(ids, cursor, batchSize);
    var bs := Batches(ids, cursor, batchSize);
    NextBatchContents(ids, cursor, batchSize);
    if batch == [] {
      assert cursor == |ids|;
    } else {
      var rest := Batches(ids, cursor + |batch|, batchSize);
      BatchesPartition(ids, cursor + |batch|, batchSize);
      assert bs == [batch] + rest;
      assert bs[1..] == rest;
      assert Flatten(bs) == batch + Flatten(rest);
      assert ids[cursor..] == ids[cursor..cursor + |batch|] + ids[cursor + |batch|..];
      assert rest != [] ==> |batch| == batchSize;
      forall i | 0 <= i < |bs| ensures 1 <= |bs[i]| <= batchSize {
        if i > 0 {
          assert bs[i] == rest[i - 1];
        }
      }
      forall i | 0 <= i < |bs| - 1 ensures |bs[i]| == batchSize {
        if i > 0 {
          assert bs[i] == rest[i - 1];
        }
      }
    }
  }
}
