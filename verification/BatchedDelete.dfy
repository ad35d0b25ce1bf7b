/** Bounded deletes, app/db/batched-delete.ts, over a table given as a map from row id to row. */
module BatchedDelete {

  const DELETE_BATCH_SIZE: nat := 5_000
  const MAX_BATCHES: nat := 10_000
  /** Rows one call can remove: 50 million. */
  const BATCH_CAP: nat := MAX_BATCHES * DELETE_BATCH_SIZE

  function Min(a: nat, b: nat): nat { if a < b then a else b }

  function Matching<Id(==), Row>(rows: map<Id, Row>, pred: Row -> bool): set<Id> {
    set id | id in rows && pred(rows[id])
  }

  function Rest<Id(==), Row>(rows: map<Id, Row>, pred: Row -> bool): map<Id, Row> {
    map id | id in rows && !pred(rows[id]) :: rows[id]
  }

  /** `rows` is `table` without some of its matching rows, and is otherwise unchanged. */
  ghost predicate Trimmed<Id, Row>(table: map<Id, Row>, rows: map<Id, Row>, pred: Row -> bool) {
    && (forall id <- rows :: id in table && rows[id] == table[id])
    && (forall id <- table :: id !in rows ==> pred(table[id]))
  }

  /** What the LIMIT subquery may select: any ids of matching rows, as many as there are up to the batch size. */
  ghost predicate IsBatch<Id, Row>(rows: map<Id, Row>, pred: Row -> bool, batch: set<Id>) {
    batch <= Matching(rows, pred) && |batch| == Min(DELETE_BATCH_SIZE, |Matching(rows, pred)|)
  }

  method SelectBatch<Id(==), Row>(rows: map<Id, Row>, pred: Row -> bool) returns (batch: set<Id>)
    ensures IsBatch(rows, pred, batch)
    ensures |batch| <= 5_000 && forall id <- batch :: id in rows && pred(rows[id])
    ensures forall id <- rows | pred(rows[id]) :: id in batch || |batch| == 5_000
  {
    batch := {};
    var candidates := Matching(rows, pred);
    while |batch| < DELETE_BATCH_SIZE && candidates != {}
      invariant batch !! candidates && batch + candidates == Matching(rows, pred)
      invariant |batch| <= DELETE_BATCH_SIZE
      decreases candidates
    {
      var id :| id in candidates;
      batch, candidates := batch + {id}, candidates - {id};
    }
    assert |Matching(rows, pred)| == |batch| + |candidates|;
  }

  /**
    `deleteInBatches` over `batchedDeleteBy`: of n matching rows it deletes and reports
    min(n, 50,000,000), nothing else, and meets the cap exactly when n is at least that.
   */
  method DeleteInBatches<Id(==), Row>(table: map<Id, Row>, pred: Row -> bool)
    returns (rows: map<Id, Row>, total: nat, capReached: bool)
    ensures Trimmed(table, rows, pred)
    ensures total == Min(|Matching(table, pred)|, BATCH_CAP)
    ensures BATCH_CAP == 50_000_000
    ensures capReached <==> |Matching(table, pred)| >= BATCH_CAP
    ensures |Matching(table, pred)| <= BATCH_CAP ==> rows == Rest(table, pred)
    ensures |Matching(rows, pred)| == |Matching(table, pred)| - total
  {
    rows, total := table, 0;
    ghost var gone: set<Id> := {};
    Removal(table, pred, gone);
    for i := 0 to MAX_BATCHES
      invariant gone <= Matching(table, pred) && rows == table - gone
      invariant total == |gone| == i * DELETE_BATCH_SIZE
    {
      Removal(table, pred, gone);
      var batch := SelectBatch(rows, pred);
      assert rows - batch == table - (gone + batch) && batch !! gone;
      rows, total, gone := rows - batch, total + |batch|, gone + batch;
      Removal(table, pred, gone);
      if |batch| < DELETE_BATCH_SIZE {
        capReached := false;
        return;
      }
    }
    capReached := true;
    Removal(table, pred, gone);
  }

  /** A table without some of its matching rows. */
  lemma Removal<Id, Row>(table: map<Id, Row>, pred: Row -> bool, gone: set<Id>)
    requires gone <= Matching(table, pred)
    ensures Trimmed(table, table - gone, pred)
    ensures |Matching(table - gone, pred)| == |Matching(table, pred)| - |gone|
    ensures |gone| == |Matching(table, pred)| ==> table - gone == Rest(table, pred)
  {
    var left := Matching(table - gone, pred);
    assert left == Matching(table, pred) - gone;
    Cardinality(Matching(table, pred), gone);
    if |gone| == |Matching(table, pred)| {
      assert left == {};
      assert forall id <- Matching(table, pred) :: id !in gone ==> id in left;
      assert table - gone == Rest(table, pred);
    }
  }

  lemma Cardinality<T>(whole: set<T>, part: set<T>)
    requires part <= whole
    ensures |whole - part| == |whole| - |part|
  {
  }
}
