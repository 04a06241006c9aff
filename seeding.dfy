/** What both seeding scripts do first: look up which seed rows the database already holds, by a key
    column, and split the seed list into rows that exist and rows still to insert. */
module Seeding {
  import opened Wrappers
  import opened Lists

  /** `existing?.map(r => r.key) || []`: the keys the lookup found, none when it returned no data. */
  function FoundKeys(lookup: Option<seq<string>>): seq<string> {
    lookup.GetOr([])
  }

  function InKeys<T>(key: T -> string, keys: seq<string>): T -> bool {
    x => key(x) in keys
  }

  function OutOfKeys<T>(key: T -> string, keys: seq<string>): T -> bool {
    x => key(x) !in keys
  }

  /** The two groups of seed rows. */
  datatype Split<T> = Split(existing: seq<T>, newRows: seq<T>)

  /** The partition: a row whose key the lookup found exists, every other row is new. */
  function Partition<T>(rows: seq<T>, key: T -> string, lookup: Option<seq<string>>): (r: Split<T>)
    ensures forall i :: 0 <= i < |r.existing| ==> r.existing[i] in rows && key(r.existing[i]) in FoundKeys(lookup)
    ensures forall i :: 0 <= i < |r.newRows| ==> r.newRows[i] in rows && key(r.newRows[i]) !in FoundKeys(lookup)
    ensures multiset(r.existing) + multiset(r.newRows) == multiset(rows)
  {
    var keys := FoundKeys(lookup);
    var existing := Filter(InKeys(key, keys), rows);
    var newRows := Filter(OutOfKeys(key, keys), rows);
    FilterSplit(InKeys(key, keys), OutOfKeys(key, keys), rows);
    forall i | 0 <= i < |existing| ensures key(existing[i]) in keys {
      assert InKeys(key, keys)(existing[i]);
    }
    forall i | 0 <= i < |newRows| ensures key(newRows[i]) !in keys {
      assert OutOfKeys(key, keys)(newRows[i]);
    }
    Split(existing, newRows)
  }

  /** No row is in both groups, and every row of the seed list is in one of them. */
  lemma PartitionDisjointCover<T>(rows: seq<T>, key: T -> string, lookup: Option<seq<string>>, x: T)
    ensures var r := Partition(rows, key, lookup);
      && !(x in r.existing && x in r.newRows)
      && (x in rows <==> x in r.existing || x in r.newRows)
  {
    var r := Partition(rows, key, lookup);
    assert multiset(r.existing)[x] + multiset(r.newRows)[x] == multiset(rows)[x];
  }

  /** Both groups keep the seed order: the partition of two lists one after the other is the
      partition of the first followed by that of the second. */
  lemma PartitionKeepsOrder<T>(a: seq<T>, b: seq<T>, key: T -> string, lookup: Option<seq<string>>)
    ensures Partition(a + b, key, lookup).existing == Partition(a, key, lookup).existing + Partition(b, key, lookup).existing
    ensures Partition(a + b, key, lookup).newRows == Partition(a, key, lookup).newRows + Partition(b, key, lookup).newRows
  {
    var keys := FoundKeys(lookup);
    FilterConcat(InKeys(key, keys), a, b);
    FilterConcat(OutOfKeys(key, keys), a, b);
  }

  /** A lookup that returned no data makes every seed row new. */
  lemma NoDataAllNew<T>(rows: seq<T>, key: T -> string)
    ensures Partition(rows, key, None) == Split([], rows)
  {
    forall i | 0 <= i < |rows| ensures OutOfKeys(key, [])(rows[i]) {
    }
    FilterAll(OutOfKeys(key, []), rows);
  }
}
