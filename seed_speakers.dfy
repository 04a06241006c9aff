/** The speaker seeding script: the seed speakers whose name is not yet in the database are inserted
    with one insert call. */
module SeedSpeakers {
  import opened Wrappers
  import opened Records
  import opened Seeding

  function Name(s: SpeakerDraft): string { s.name }

  /** How a run ends: nothing to insert, the insert answered with an error (no report), or the
      success report listing the speakers inserted. */
  datatype Outcome = AllExist | InsertFailed | Inserted(listed: seq<SpeakerDraft>)

  /** One run: the partition, the rows of the one insert call if there is one, and how it ended. */
  datatype Run = Run(split: Split<SpeakerDraft>, insert: Option<seq<SpeakerDraft>>, outcome: Outcome)

  /** `seedSpeakers`, with the answer of the name lookup and whether the insert answered without an
      error. */
  function Seed(seedRows: seq<SpeakerDraft>, lookup: Option<seq<string>>, insertOk: bool): (run: Run)
    ensures run.split == Partition(seedRows, Name, lookup)
    ensures run.insert.None? <==> run.split.newRows == []
    ensures run.insert.Some? ==> run.insert.value == run.split.newRows
    ensures run.split.newRows == [] ==> run.outcome == AllExist
    ensures run.split.newRows != [] && !insertOk ==> run.outcome == InsertFailed
    ensures run.split.newRows != [] && insertOk ==> run.outcome == Inserted(run.split.newRows)
  {
    var split := Partition(seedRows, Name, lookup);
    if split.newRows == [] then Run(split, None, AllExist)
    else Run(split, Some(split.newRows), if insertOk then Inserted(split.newRows) else InsertFailed)
  }

  /** A lookup that returned no data sends every seed speaker, in seed order, in the one insert. */
  lemma NoDataInsertsAll(seedRows: seq<SpeakerDraft>, insertOk: bool)
    requires seedRows != []
    ensures Seed(seedRows, None, insertOk).insert == Some(seedRows)
  {
    NoDataAllNew(seedRows, Name);
  }
}
