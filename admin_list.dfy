/** The list logic that both admin managers share: pagination into pages of ten, the selection
    updaters behind the row and header checkboxes, and the local list updates after a delete,
    an edit or an insert. */
module AdminList {
  import opened Lists

  /** Rows per page of an admin table. */
  const PAGE_SIZE: nat := 10

  /** `Math.ceil(n / PAGE_SIZE)`. */
  function TotalPages(n: nat): (r: nat)
    ensures r * PAGE_SIZE >= n
    ensures r > 0 ==> (r - 1) * PAGE_SIZE < n
    ensures n == 0 <==> r == 0
  {
    (n + PAGE_SIZE - 1) / PAGE_SIZE
  }

  /** Index of the first row of page `page` (pages count from 1). */
  function StartIndex(page: nat): nat
    requires page >= 1
  {
    (page - 1) * PAGE_SIZE
  }

  /** `rows.slice(startIndex, startIndex + PAGE_SIZE)`. */
  function PageOf<T>(rows: seq<T>, page: nat): (r: seq<T>)
    requires page >= 1
    ensures |r| <= PAGE_SIZE
    ensures forall i :: 0 <= i < |r| ==> StartIndex(page) + i < |rows| && r[i] == rows[StartIndex(page) + i]
    ensures StartIndex(page) + PAGE_SIZE <= |rows| ==> r == rows[StartIndex(page)..StartIndex(page) + PAGE_SIZE]
    ensures StartIndex(page) <= |rows| <= StartIndex(page) + PAGE_SIZE ==> r == rows[StartIndex(page)..]
    ensures StartIndex(page) < |rows| ==> |r| > 0
    ensures page <= TotalPages(|rows|) <==> |r| > 0
  {
    Slice(rows, StartIndex(page), StartIndex(page) + PAGE_SIZE)
  }

  /** The pages `1 .. TotalPages(|rows|)`, put together in order, give back every row exactly once. */
  lemma PagesCoverRows<T>(rows: seq<T>)
    ensures Concat(1, rows) == rows
  {
    PagesCoverSuffix(rows, 1);
  }

  lemma {:induction false} PagesCoverSuffix<T>(rows: seq<T>, page: nat)
    requires page >= 1
    ensures Concat(page, rows) == if StartIndex(page) <= |rows| then rows[StartIndex(page)..] else []
    decreases |rows| - StartIndex(page)
  {
    var s := StartIndex(page);
    if s < |rows| {
      PagesCoverSuffix(rows, page + 1);
      assert StartIndex(page + 1) == s + PAGE_SIZE;
      if s + PAGE_SIZE <= |rows| {
        assert rows[s..] == rows[s..s + PAGE_SIZE] + rows[s + PAGE_SIZE..];
      } else {
        assert Concat(page + 1, rows) == [];
      }
    }
  }

  /** The pages from `page` on, while there are rows left, put together in order. */
  function Concat<T>(page: nat, rows: seq<T>): seq<T>
    requires page >= 1
    decreases |rows| - StartIndex(page)
  {
    if StartIndex(page) >= |rows| then [] else PageOf(rows, page) + Concat(page + 1, rows)
  }

  /** A predicate that holds of every id except `id`. */
  function Other(id: string): string -> bool {
    x => x != id
  }

  /** The row checkbox: `prev.includes(id) ? prev.filter(x => x !== id) : [...prev, id]`. */
  function ToggleId(prev: seq<string>, id: string): (r: seq<string>)
    ensures id in r <==> id !in prev
    ensures forall x :: x != id ==> multiset(r)[x] == multiset(prev)[x]
    ensures multiset(r)[id] == if id in prev then 0 else 1
    ensures id !in prev ==> r == prev + [id]
  {
    if id in prev then
      RemoveCounts(prev, id);
      Filter(Other(id), prev)
    else prev + [id]
  }

  /** Removing every copy of `id` leaves the other ids as often as they were. */
  lemma RemoveCounts(prev: seq<string>, id: string)
    ensures forall x :: multiset(Filter(Other(id), prev))[x] == if x == id then 0 else multiset(prev)[x]
  {
    forall x ensures multiset(Filter(Other(id), prev))[x] == if x == id then 0 else multiset(prev)[x] {
      FilterCount(Other(id), prev, x);
    }
  }

  /** Ticking a row that was not selected and then unticking it restores the selection exactly. */
  lemma ToggleTwiceRestores(prev: seq<string>, id: string)
    requires id !in prev
    ensures ToggleId(ToggleId(prev, id), id) == prev
  {
    FilterConcat(Other(id), prev, [id]);
    FilterAll(Other(id), prev);
  }

  /** The header checkbox is shown ticked: `selected.length === filtered.length && filtered.length > 0`. */
  predicate HeaderTicked(selected: seq<string>, filteredIds: seq<string>) {
    |selected| == |filteredIds| && |filteredIds| > 0
  }

  /** The header checkbox: `prev.length === filtered.length ? [] : filtered.map(v => v.id)`.
      It compares lengths only, so a selection of other rows of the same size is cleared too. */
  function ToggleAll(prev: seq<string>, filteredIds: seq<string>): (r: seq<string>)
    ensures r == [] || r == filteredIds
    ensures HeaderTicked(r, filteredIds) <==> !HeaderTicked(prev, filteredIds) && |filteredIds| > 0
  {
    if |prev| == |filteredIds| then [] else filteredIds
  }

  /** A selection of different rows that only has the size of the filtered list is cleared anyway. */
  lemma ToggleAllComparesLengths(prev: seq<string>, filteredIds: seq<string>, x: string)
    requires |prev| == |filteredIds| && x in prev && x !in filteredIds
    ensures ToggleAll(prev, filteredIds) == []
  {
  }

  /** The predicate kept by a delete: the key is not among `ids`. */
  function NotIn<T>(key: T -> string, ids: seq<string>): T -> bool {
    x => key(x) !in ids
  }

  /** `rows.filter(r => !ids.includes(r.id))`: the local list after deleting `ids`. */
  function WithoutIds<T(!new)>(rows: seq<T>, key: T -> string, ids: seq<string>): (r: seq<T>)
    ensures forall i :: 0 <= i < |r| ==> r[i] in rows && key(r[i]) !in ids
    ensures forall i :: 0 <= i < |rows| && key(rows[i]) !in ids ==> rows[i] in r
    ensures forall x :: multiset(r)[x] == if key(x) in ids then 0 else multiset(rows)[x]
  {
    var r := Filter(NotIn(key, ids), rows);
    assert forall x :: multiset(r)[x] == if key(x) in ids then 0 else multiset(rows)[x] by {
      forall x ensures multiset(r)[x] == if key(x) in ids then 0 else multiset(rows)[x] {
        FilterCount(NotIn(key, ids), rows, x);
      }
    }
    r
  }

  /** Deleting nothing keeps the list. */
  lemma WithoutNothing<T(!new)>(rows: seq<T>, key: T -> string)
    ensures WithoutIds(rows, key, []) == rows
  {
    FilterAll(NotIn(key, []), rows);
  }

  /** `rows.map(r => r.id === id ? updated : r)`: the local list after an edit. */
  function ReplaceId<T>(rows: seq<T>, key: T -> string, id: string, updated: T): (r: seq<T>)
    ensures |r| == |rows|
    ensures forall i :: 0 <= i < |rows| ==> r[i] == if key(rows[i]) == id then updated else rows[i]
  {
    Map(x => if key(x) == id then updated else x, rows)
  }

  /** `[created, ...rows]`: the local list after an insert. */
  function Prepend<T>(created: T, rows: seq<T>): (r: seq<T>)
    ensures |r| == |rows| + 1 && r[0] == created && r[1..] == rows
  {
    [created] + rows
  }
}
