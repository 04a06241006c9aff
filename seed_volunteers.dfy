/** The volunteer seeding script: the seed rows whose email is not yet in the database are inserted in
    batches of five, one insert call per batch, counting the rows of the batches that succeed. */
module SeedVolunteers {
  import opened Wrappers
  import opened Lists
  import opened Records
  import opened Seeding

  const BATCH_SIZE: nat := 5

  /** The `b`-th batch: `rows.slice(5b, 5b + 5)`. */
  function BatchAt<T>(rows: seq<T>, b: nat): (r: seq<T>)
    ensures |r| <= BATCH_SIZE
    ensures forall i :: 0 <= i < |r| ==> BATCH_SIZE * b + i < |rows| && r[i] == rows[BATCH_SIZE * b + i]
  {
    Slice(rows, BATCH_SIZE * b, BATCH_SIZE * b + BATCH_SIZE)
  }

  /** How many times the loop runs over `n` rows. */
  function BatchCount(n: nat): (r: nat)
    ensures BATCH_SIZE * (r - 1) < n <= BATCH_SIZE * r || (n == 0 && r == 0)
  {
    (n + BATCH_SIZE - 1) / BATCH_SIZE
  }

  /** The batches the loop sends, in order. */
  function Batches<T>(rows: seq<T>): (r: seq<seq<T>>)
    ensures |r| == BatchCount(|rows|)
  {
    seq(BatchCount(|rows|), b requires 0 <= b => BatchAt(rows, b))
  }

  /** Every batch the loop sends holds between one and five rows. */
  lemma BatchesNonEmpty<T>(rows: seq<T>, b: nat)
    requires b < BatchCount(|rows|)
    ensures 1 <= |Batches(rows)[b]| <= BATCH_SIZE
  {
    assert BATCH_SIZE * b < |rows|;
    assert Batches(rows)[b][0] == rows[BATCH_SIZE * b];
  }

  /** The first `b` batches, one after the other. */
  function Joined<T>(rows: seq<T>, b: nat): seq<T> {
    if b == 0 then [] else Joined(rows, b - 1) + BatchAt(rows, b - 1)
  }

  function Min(x: nat, y: nat): nat { if x < y then x else y }

  /** The first `b` batches are the first `5b` rows (or all of them, when there are fewer). */
  lemma {:induction false} JoinedPrefix<T>(rows: seq<T>, b: nat)
    ensures Joined(rows, b) == rows[..Min(BATCH_SIZE * b, |rows|)]
  {
    if b > 0 {
      JoinedPrefix(rows, b - 1);
      var lo := Min(BATCH_SIZE * (b - 1), |rows|);
      var hi := Min(BATCH_SIZE * b, |rows|);
      if BATCH_SIZE * (b - 1) <= |rows| {
        assert BatchAt(rows, b - 1) == rows[lo..hi];
      } else {
        assert BatchAt(rows, b - 1) == [];
      }
      assert rows[..lo] + rows[lo..hi] == rows[..hi];
    }
  }

  /** The batches cover the new rows in order, each once. */
  lemma BatchesCoverRows<T>(rows: seq<T>)
    ensures Joined(rows, BatchCount(|rows|)) == rows
  {
    JoinedPrefix(rows, BatchCount(|rows|));
    assert rows[..|rows|] == rows;
  }

  /** `insertedCount` after the first `b` batches, where `ok(b)` says whether batch `b`'s insert
      answered without an error: the failed batches are skipped. */
  function InsertedUpTo<T>(rows: seq<T>, ok: nat -> bool, b: nat): nat {
    if b == 0 then 0 else InsertedUpTo(rows, ok, b - 1) + (if ok(b - 1) then |BatchAt(rows, b - 1)| else 0)
  }

  function InsertedCount<T>(rows: seq<T>, ok: nat -> bool): (r: nat)
    ensures r <= |rows|
  {
    InsertedUpToBound(rows, ok, BatchCount(|rows|));
    InsertedUpTo(rows, ok, BatchCount(|rows|))
  }

  /** The rows the successful batches actually inserted, in order. */
  function InsertedRowsUpTo<T>(rows: seq<T>, ok: nat -> bool, b: nat): (r: seq<T>)
    ensures |r| == InsertedUpTo(rows, ok, b)
  {
    if b == 0 then [] else InsertedRowsUpTo(rows, ok, b - 1) + (if ok(b - 1) then BatchAt(rows, b - 1) else [])
  }

  function InsertedRows<T>(rows: seq<T>, ok: nat -> bool): seq<T> {
    InsertedRowsUpTo(rows, ok, BatchCount(|rows|))
  }

  /** The count never exceeds the rows sent so far, and reaches it exactly when none of those batches
      failed. */
  lemma {:induction false} InsertedUpToBound<T>(rows: seq<T>, ok: nat -> bool, b: nat)
    requires b <= BatchCount(|rows|)
    ensures InsertedUpTo(rows, ok, b) <= Min(BATCH_SIZE * b, |rows|)
    ensures InsertedUpTo(rows, ok, b) == Min(BATCH_SIZE * b, |rows|) <==> forall k :: 0 <= k < b ==> ok(k)
  {
    if b > 0 {
      InsertedUpToBound(rows, ok, b - 1);
      var size := |BatchAt(rows, b - 1)|;
      assert size == Min(BATCH_SIZE * b, |rows|) - Min(BATCH_SIZE * (b - 1), |rows|) by {
        JoinedPrefix(rows, b);
        JoinedPrefix(rows, b - 1);
      }
      BatchesNonEmpty(rows, b - 1);
      assert size >= 1;
    }
  }

  /** `insertedCount` is at most the number of new rows, and equals it exactly when every batch
      succeeded. */
  lemma InsertedCountBound<T>(rows: seq<T>, ok: nat -> bool)
    ensures InsertedCount(rows, ok) == |rows| <==> forall k :: 0 <= k < BatchCount(|rows|) ==> ok(k)
  {
    InsertedUpToBound(rows, ok, BatchCount(|rows|));
  }

  /** When every batch succeeds, the rows inserted are all the new rows, in order. */
  lemma {:induction false} AllSucceedInsertsAll<T>(rows: seq<T>, ok: nat -> bool, b: nat)
    requires forall k :: 0 <= k < b ==> ok(k)
    ensures InsertedRowsUpTo(rows, ok, b) == Joined(rows, b)
  {
    if b > 0 {
      AllSucceedInsertsAll(rows, ok, b - 1);
    }
  }

  /** The success listing names the first `insertedCount` new rows. When every batch succeeds these
      are the rows inserted. */
  lemma ListingRightWhenAllSucceed<T>(rows: seq<T>, ok: nat -> bool)
    requires forall k :: 0 <= k < BatchCount(|rows|) ==> ok(k)
    ensures rows[..InsertedCount(rows, ok)] == InsertedRows(rows, ok)
  {
    AllSucceedInsertsAll(rows, ok, BatchCount(|rows|));
    BatchesCoverRows(rows);
    InsertedCountBound(rows, ok);
    assert rows[..|rows|] == rows;
  }

  /** After a failed first batch of two, the listing names a row that was never inserted. Six new
      rows, the first batch failing and the second succeeding: one row is counted, the listing shows
      row 0, and the row inserted was row 5. */
  lemma ListingWrongAfterEarlyFailure()
    ensures var rows := [0, 1, 2, 3, 4, 5];
      var ok := (b: nat) => b == 1;
      && InsertedCount(rows, ok) == 1
      && rows[..InsertedCount(rows, ok)] == [0]
      && InsertedRows(rows, ok) == [5]
  {
    var rows := [0, 1, 2, 3, 4, 5];
    var ok := (b: nat) => b == 1;
    assert BatchCount(6) == 2;
    assert BatchAt(rows, 0) == [0, 1, 2, 3, 4];
    assert BatchAt(rows, 1) == [5];
    assert InsertedRowsUpTo(rows, ok, 1) == [];
    assert InsertedRowsUpTo(rows, ok, 2) == [5];
  }

  function Email(v: VolunteerDraft): string { v.email }

  /** How a run ends: every seed row was already present, or the batches ran and the report names
      the count and the rows it lists. */
  datatype SeedOutcome = AllExist | Inserted(insertedCount: nat, listed: seq<VolunteerDraft>)

  /** `seedVolunteers`, with the answer of the email lookup and which batch inserts answered without
      an error. */
  method Seed(seedRows: seq<VolunteerDraft>, lookup: Option<seq<string>>, ok: nat -> bool)
    returns (split: Split<VolunteerDraft>, sent: seq<seq<VolunteerDraft>>, outcome: SeedOutcome)
    ensures split == Partition(seedRows, Email, lookup)
    ensures split.newRows == [] ==> sent == [] && outcome == AllExist
    ensures split.newRows != [] ==>
      && sent == Batches(split.newRows)
      && outcome == Inserted(InsertedCount(split.newRows, ok), split.newRows[..InsertedCount(split.newRows, ok)])
  {
    split := Partition(seedRows, Email, lookup);
    var rows := split.newRows;
    sent := [];
    if |rows| == 0 {
      outcome := AllExist;
      return;
    }
    var insertedCount;
    sent, insertedCount := SendBatches(rows, ok);
    outcome := Inserted(insertedCount, rows[..insertedCount]);
  }

  /** The batching loop: `for (i = 0; i < rows.length; i += 5)`, one insert per batch, a failed batch
      skipped and not counted. */
  method SendBatches(rows: seq<VolunteerDraft>, ok: nat -> bool) returns (sent: seq<seq<VolunteerDraft>>, insertedCount: nat)
    ensures sent == Batches(rows)
    ensures insertedCount == InsertedCount(rows, ok)
  {
    sent := [];
    insertedCount := 0;
    var i := 0;
    ghost var b := 0;
    while i < |rows|
      invariant i == BATCH_SIZE * b && i < |rows| + BATCH_SIZE
      invariant sent == Batches(rows)[..b]
      invariant insertedCount == InsertedUpTo(rows, ok, b)
    {
      var batch := Slice(rows, i, i + BATCH_SIZE);
      BatchesStep(rows, b);
      assert batch == BatchAt(rows, b) && i / BATCH_SIZE == b;
      sent := sent + [batch];
      if ok(i / BATCH_SIZE) {
        insertedCount := insertedCount + |batch|;
      }
      i := i + BATCH_SIZE;
      b := b + 1;
    }
    assert b == BatchCount(|rows|);
  }

  /** One more turn of the loop sends the next batch. */
  lemma BatchesStep<T>(rows: seq<T>, b: nat)
    requires BATCH_SIZE * b < |rows|
    ensures b < BatchCount(|rows|)
    ensures Batches(rows)[..b + 1] == Batches(rows)[..b] + [BatchAt(rows, b)]
  {
  }
}
