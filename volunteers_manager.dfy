/** The admin table of volunteers: the sorted, searched and paginated view of the list, the
    drag-and-drop reorder of one page, and the handlers that delete, select, edit and add rows. */
module VolunteersManager {
  import opened Wrappers
  import opened Lists
  import opened Text
  import opened Records
  import opened AdminList

  /** The sort key `v.sort_order || 0`: a missing value counts as 0. */
  function OrderKey(v: Volunteer): int {
    v.sort_order.GetOr(0)
  }

  predicate NonDecreasing(s: seq<Volunteer>) {
    forall i, j :: 0 <= i < j < |s| ==> OrderKey(s[i]) <= OrderKey(s[j])
  }

  /** A row no larger than the first row of a sorted list can go in front of it. */
  lemma SortedCons(y: Volunteer, t: seq<Volunteer>)
    requires t != [] ==> OrderKey(y) <= OrderKey(t[0])
    ensures NonDecreasing(t) ==> NonDecreasing([y] + t)
  {
    if NonDecreasing(t) {
      var s := [y] + t;
      forall i, j | 0 <= i < j < |s| ensures OrderKey(s[i]) <= OrderKey(s[j]) {
        assert s[j] == t[j - 1];
        if i > 0 { assert s[i] == t[i - 1]; }
      }
    }
  }

  /** The recursive step of `InsertByOrder`: a row smaller than `x` stays in front of the list `x`
      was inserted into. */
  lemma InsertBehind(y: Volunteer, x: Volunteer, rest: seq<Volunteer>, tail: seq<Volunteer>)
    requires OrderKey(y) < OrderKey(x)
    requires NonDecreasing(rest) ==> NonDecreasing(tail)
    requires multiset(tail) == multiset(rest) + multiset{x}
    requires |tail| == |rest| + 1 && (tail[0] == x || (rest != [] && tail[0] == rest[0]))
    ensures NonDecreasing([y] + rest) ==> NonDecreasing([y] + tail)
    ensures multiset([y] + tail) == multiset([y] + rest) + multiset{x}
  {
    if NonDecreasing([y] + rest) {
      var s := [y] + rest;
      forall i, j | 0 <= i < j < |rest| ensures OrderKey(rest[i]) <= OrderKey(rest[j]) {
        assert s[i + 1] == rest[i] && s[j + 1] == rest[j];
      }
      if tail[0] != x {
        assert s[0] == y && s[1] == rest[0];
      }
      SortedCons(y, tail);
    }
  }

  /** Puts `x` in front of the first row whose key is not smaller than its own. */
  function InsertByOrder(x: Volunteer, t: seq<Volunteer>): (r: seq<Volunteer>)
    ensures NonDecreasing(t) ==> NonDecreasing(r)
    ensures multiset(r) == multiset(t) + multiset{x}
    ensures |r| == |t| + 1 && (r[0] == x || (t != [] && r[0] == t[0]))
  {
    if t == [] then [x]
    else if OrderKey(x) <= OrderKey(t[0]) then
      SortedCons(x, t);
      [x] + t
    else
      assert t == [t[0]] + t[1..];
      var tail := InsertByOrder(x, t[1..]);
      InsertBehind(t[0], x, t[1..], tail);
      [t[0]] + tail
  }

  /** `[...volunteers].sort((a, b) => (a.sort_order || 0) - (b.sort_order || 0))`: a stable sort
      of a copy, so the list it sorts is left as it was. */
  function SortByOrder(s: seq<Volunteer>): (r: seq<Volunteer>)
    ensures NonDecreasing(r)
    ensures multiset(r) == multiset(s)
  {
    if s == [] then []
    else
      assert s == [s[0]] + s[1..];
      InsertByOrder(s[0], SortByOrder(s[1..]))
  }

  /** The rows whose key is `k`. */
  function HasKey(k: int): Volunteer -> bool {
    v => OrderKey(v) == k
  }

  /** The recursive step of `InsertKeepsTies`: a smaller row in front changes neither side. */
  lemma TiesBehind(y: Volunteer, x: Volunteer, rest: seq<Volunteer>, tail: seq<Volunteer>, k: int)
    requires OrderKey(y) < OrderKey(x)
    requires Filter(HasKey(k), tail) == (if OrderKey(x) == k then [x] else []) + Filter(HasKey(k), rest)
    ensures Filter(HasKey(k), [y] + tail) == (if OrderKey(x) == k then [x] else []) + Filter(HasKey(k), [y] + rest)
  {
    var p := HasKey(k);
    FilterCons(p, y, tail);
    FilterCons(p, y, rest);
    if OrderKey(x) == k {
      assert !p(y);
      assert Filter(p, [y] + tail) == Filter(p, tail);
      assert Filter(p, [y] + rest) == Filter(p, rest);
    } else {
      var head := if p(y) then [y] else [];
      assert Filter(p, [y] + tail) == head + Filter(p, tail);
      assert Filter(p, tail) == Filter(p, rest);
    }
  }

  lemma {:induction false} InsertKeepsTies(x: Volunteer, t: seq<Volunteer>, k: int)
    ensures Filter(HasKey(k), InsertByOrder(x, t)) == (if OrderKey(x) == k then [x] else []) + Filter(HasKey(k), t)
  {
    if t == [] {
      FilterCons(HasKey(k), x, []);
    } else if OrderKey(x) > OrderKey(t[0]) {
      assert t == [t[0]] + t[1..];
      InsertKeepsTies(x, t[1..], k);
      var tail := InsertByOrder(x, t[1..]);
      TiesBehind(t[0], x, t[1..], tail, k);
    } else {
      FilterCons(HasKey(k), x, t);
    }
  }

  /** The sort is stable: rows with equal keys keep their relative order. */
  lemma {:induction false} SortIsStable(s: seq<Volunteer>, k: int)
    ensures Filter(HasKey(k), SortByOrder(s)) == Filter(HasKey(k), s)
  {
    if s != [] {
      SortIsStable(s[1..], k);
      InsertKeepsTies(s[0], SortByOrder(s[1..]), k);
    }
  }

  /** The search: name, email or role contains the term, both lower-cased. */
  predicate Matches(v: Volunteer, term: string) {
    || Includes(Lower(v.name), Lower(term))
    || Includes(Lower(v.email), Lower(term))
    || Includes(Lower(v.role), Lower(term))
  }

  function MatchesTerm(term: string): Volunteer -> bool {
    v => Matches(v, term)
  }

  lemma {:induction false} FilterKeepsOrder(p: Volunteer -> bool, s: seq<Volunteer>)
    requires NonDecreasing(s)
    ensures NonDecreasing(Filter(p, s))
  {
    if s != [] {
      var rest := s[1..];
      forall i, j | 0 <= i < j < |rest| ensures OrderKey(rest[i]) <= OrderKey(rest[j]) {
        assert s[i + 1] == rest[i] && s[j + 1] == rest[j];
      }
      FilterKeepsOrder(p, rest);
      var tail := Filter(p, rest);
      if p(s[0]) {
        if tail != [] {
          var j :| 0 <= j < |rest| && rest[j] == tail[0];
          assert s[j + 1] == tail[0];
        }
        SortedCons(s[0], tail);
        assert Filter(p, s) == [s[0]] + tail;
      } else {
        assert Filter(p, s) == tail;
      }
    }
  }

  /** `filteredVolunteers`: the rows of the sorted view that match the search term, still sorted.
      An empty term matches every row. */
  function FilteredView(volunteers: seq<Volunteer>, term: string): (r: seq<Volunteer>)
    ensures NonDecreasing(r)
    ensures forall i :: 0 <= i < |r| ==> r[i] in volunteers && Matches(r[i], term)
    ensures forall i :: 0 <= i < |volunteers| && Matches(volunteers[i], term) ==> volunteers[i] in r
    ensures multiset(r) <= multiset(volunteers)
  {
    var sorted := SortByOrder(volunteers);
    SameMembers(sorted, volunteers);
    FilterKeepsOrder(MatchesTerm(term), sorted);
    FilterSubMultiset(MatchesTerm(term), sorted);
    FilterMembers(MatchesTerm(term), sorted);
    Filter(MatchesTerm(term), sorted)
  }

  /** The view holds every matching row exactly as often as the list does and no other row, and
      rows with equal `sort_order` appear in it in their order in the list. */
  lemma FilteredViewExact(volunteers: seq<Volunteer>, term: string)
    ensures forall x :: multiset(FilteredView(volunteers, term))[x] == if Matches(x, term) then multiset(volunteers)[x] else 0
    ensures forall k :: Filter(HasKey(k), FilteredView(volunteers, term)) == Filter(HasKey(k), Filter(MatchesTerm(term), volunteers))
  {
    var sorted := SortByOrder(volunteers);
    var m := MatchesTerm(term);
    forall x ensures multiset(Filter(m, sorted))[x] == if Matches(x, term) then multiset(volunteers)[x] else 0 {
      FilterCount(m, sorted, x);
    }
    forall k ensures Filter(HasKey(k), Filter(m, sorted)) == Filter(HasKey(k), Filter(m, volunteers)) {
      FilterCommute(HasKey(k), m, sorted);
      SortIsStable(volunteers, k);
      FilterCommute(m, HasKey(k), volunteers);
    }
  }

  /** dnd-kit's `arrayMove`: take the row at `from` out and put it back in at `to`. */
  function ArrayMove<T>(s: seq<T>, from: nat, to: nat): (r: seq<T>)
    requires from < |s| && to < |s|
    ensures |r| == |s|
    ensures multiset(r) == multiset(s)
    ensures r[to] == s[from]
    ensures r[..to] + r[to + 1..] == s[..from] + s[from + 1..]
  {
    var rest := s[..from] + s[from + 1..];
    assert s == s[..from] + [s[from]] + s[from + 1..];
    assert multiset(s) == multiset(rest) + multiset{s[from]};
    var r := rest[..to] + [s[from]] + rest[to..];
    assert rest == rest[..to] + rest[to..];
    assert multiset(r) == multiset(rest[..to]) + multiset{s[from]} + multiset(rest[to..]);
    assert r[..to] == rest[..to] && r[to + 1..] == rest[to..];
    r
  }

  /** The page after the row with id `activeId` was dropped on the row with id `overId`. */
  function MovedPage(shown: seq<Volunteer>, activeId: string, overId: string): seq<Volunteer>
    requires activeId in IdsOf(shown) && overId in IdsOf(shown)
  {
    ArrayMove(shown, IndexOfId(shown, activeId).value, IndexOfId(shown, overId).value)
  }

  function IdsOf(s: seq<Volunteer>): seq<string> {
    Map(VolunteerId, s)
  }

  /** `rows.findIndex(r => r.id === id)`, with -1 as `None`. */
  function IndexOfId(rows: seq<Volunteer>, id: string): (r: Option<nat>)
    ensures r.Some? ==> r.value < |rows| && rows[r.value].id == id
    ensures r.Some? ==> forall j :: 0 <= j < r.value ==> rows[j].id != id
    ensures r.None? <==> id !in IdsOf(rows)
  {
    if rows == [] then None
    else if rows[0].id == id then Some(0)
    else
      match IndexOfId(rows[1..], id)
      case None => None
      case Some(k) => Some(k + 1)
  }

  predicate DistinctIds(s: seq<Volunteer>) {
    forall i, j :: 0 <= i < j < |s| ==> s[i].id != s[j].id
  }

  /** With distinct ids, the position `findIndex` finds for a row's id is the row's own position. */
  lemma IndexOfDistinct(rows: seq<Volunteer>, k: nat)
    requires DistinctIds(rows) && k < |rows|
    ensures IndexOfId(rows, rows[k].id) == Some(k)
  {
    assert IdsOf(rows)[k] == rows[k].id;
  }

  /** The update batch of a reorder: `reordered.map((v, index) => update(v.id, {sort_order: startIndex + index + 1}))`. */
  function OrderUpdates(reordered: seq<Volunteer>, start: nat): (r: seq<OrderUpdate>)
    ensures |r| == |reordered|
    ensures forall i :: 0 <= i < |r| ==> r[i] == OrderUpdate(reordered[i].id, start + i + 1)
  {
    seq(|reordered|, i requires 0 <= i < |reordered| => OrderUpdate(reordered[i].id, start + i + 1))
  }

  /** The new `sort_order` of one row after a reorder. */
  function Renumbered(v: Volunteer, reordered: seq<Volunteer>, start: nat): (r: Volunteer)
    ensures r == v.(sort_order := r.sort_order)
    ensures v.id !in IdsOf(reordered) ==> r == v
    ensures forall k :: 0 <= k < |reordered| && DistinctIds(reordered) && reordered[k].id == v.id ==>
      r.sort_order == Some(start + k + 1)
  {
    forall k | 0 <= k < |reordered| && DistinctIds(reordered) && reordered[k].id == v.id
      ensures IndexOfId(reordered, v.id) == Some(k)
    {
      IndexOfDistinct(reordered, k);
    }
    match IndexOfId(reordered, v.id)
    case Some(k) => v.(sort_order := Some(k + start + 1))
    case None => v
  }

  /** The local list after every update of a reorder succeeded: `volunteers.map(...)` that gives each
      row of the reordered page its new `sort_order`. Length, order, the rows off the page and every
      other column stay as they were. */
  function Reconcile(volunteers: seq<Volunteer>, reordered: seq<Volunteer>, start: nat): (r: seq<Volunteer>)
    ensures |r| == |volunteers|
    ensures forall i :: 0 <= i < |r| ==> r[i] == volunteers[i].(sort_order := r[i].sort_order)
    ensures forall i :: 0 <= i < |r| && volunteers[i].id !in IdsOf(reordered) ==> r[i] == volunteers[i]
    ensures forall i, k :: 0 <= i < |r| && 0 <= k < |reordered| && DistinctIds(reordered) && reordered[k].id == volunteers[i].id ==>
      r[i].sort_order == Some(start + k + 1)
  {
    seq(|volunteers|, i requires 0 <= i < |volunteers| => Renumbered(volunteers[i], reordered, start))
  }

  // Distinct ids survive the sort, the search, the page slice and the move.

  lemma DistinctCons(y: Volunteer, t: seq<Volunteer>)
    ensures DistinctIds([y] + t) <==> DistinctIds(t) && forall i :: 0 <= i < |t| ==> t[i].id != y.id
  {
    var s := [y] + t;
    assert forall i :: 0 <= i < |t| ==> s[i + 1] == t[i];
    if DistinctIds(s) {
      forall i | 0 <= i < |t| ensures t[i].id != y.id { assert s[0] == y && s[i + 1] == t[i]; }
      forall i, j | 0 <= i < j < |t| ensures t[i].id != t[j].id { assert s[i + 1] == t[i] && s[j + 1] == t[j]; }
    }
    if DistinctIds(t) && forall i :: 0 <= i < |t| ==> t[i].id != y.id {
      forall i, j | 0 <= i < j < |s| ensures s[i].id != s[j].id {
        if i > 0 { assert s[i] == t[i - 1] && s[j] == t[j - 1]; }
      }
    }
  }

  lemma {:induction false} DistinctAtMostOnce(a: seq<Volunteer>, x: Volunteer)
    requires DistinctIds(a)
    ensures multiset(a)[x] <= 1
  {
    if a != [] {
      DistinctCons(a[0], a[1..]);
      assert a == [a[0]] + a[1..];
      DistinctAtMostOnce(a[1..], x);
      if a[0] == x {
        assert x !in a[1..];
      }
    }
  }

  lemma SameAtTwoPositions(b: seq<Volunteer>, i: nat, j: nat)
    requires i < j < |b| && b[i] == b[j]
    ensures multiset(b)[b[i]] >= 2
  {
    assert b == b[..j] + b[j..];
    assert b[i] in b[..j];
    assert b[j] == b[j..][0];
  }

  /** A permutation of a list with distinct ids has distinct ids. */
  lemma DistinctPermutation(a: seq<Volunteer>, b: seq<Volunteer>)
    requires multiset(a) == multiset(b) && DistinctIds(a)
    ensures DistinctIds(b)
  {
    forall i, j | 0 <= i < j < |b| ensures b[i].id != b[j].id {
      if b[i] == b[j] {
        SameAtTwoPositions(b, i, j);
        DistinctAtMostOnce(a, b[i]);
      } else {
        assert b[i] in multiset(a) && b[j] in multiset(a);
        var p :| 0 <= p < |a| && a[p] == b[i];
        var q :| 0 <= q < |a| && a[q] == b[j];
        assert p != q;
      }
    }
  }

  lemma {:induction false} DistinctFilter(p: Volunteer -> bool, s: seq<Volunteer>)
    requires DistinctIds(s)
    ensures DistinctIds(Filter(p, s))
  {
    if s != [] {
      DistinctCons(s[0], s[1..]);
      assert s == [s[0]] + s[1..];
      DistinctFilter(p, s[1..]);
      var tail := Filter(p, s[1..]);
      assert forall i :: 0 <= i < |tail| ==> tail[i] in s[1..];
      DistinctCons(s[0], tail);
    }
  }

  /** Every page of the view of a list with distinct ids has distinct ids. */
  lemma DistinctPage(volunteers: seq<Volunteer>, term: string, page: nat)
    requires page >= 1 && DistinctIds(volunteers)
    ensures DistinctIds(PageOf(FilteredView(volunteers, term), page))
  {
    var sorted := SortByOrder(volunteers);
    DistinctPermutation(volunteers, sorted);
    DistinctFilter(MatchesTerm(term), sorted);
  }

  /** After a successful reorder of a displayed page whose ids are distinct (as every page of a list
      with distinct ids is, by `DistinctPage`), the `k`-th row of the reordered page carries
      `sort_order` `start + k + 1`. */
  lemma ReorderNumbersPage(volunteers: seq<Volunteer>, shown: seq<Volunteer>, from: nat, to: nat, start: nat)
    requires DistinctIds(shown)
    requires from < |shown| && to < |shown|
    ensures
      var reordered := ArrayMove(shown, from, to);
      var r := Reconcile(volunteers, reordered, start);
      forall i, k :: 0 <= i < |r| && 0 <= k < |reordered| && reordered[k].id == volunteers[i].id ==>
        r[i].sort_order == Some(start + k + 1)
  {
    DistinctPermutation(shown, ArrayMove(shown, from, to));
  }

  /** The page reordered by a drag keeps the distinct ids of the list it was cut from. */
  lemma DistinctMoved(shown: seq<Volunteer>, volunteers: seq<Volunteer>, term: string, page: nat, from: nat, to: nat)
    requires page >= 1 && DistinctIds(volunteers)
    requires shown == PageOf(FilteredView(volunteers, term), page)
    requires from < |shown| && to < |shown|
    ensures DistinctIds(shown) && DistinctIds(ArrayMove(shown, from, to))
  {
    DistinctPage(volunteers, term, page);
    DistinctPermutation(shown, ArrayMove(shown, from, to));
  }

  /** The component's state: the list it was given (replaced through `onUpdate`), the selected ids,
      the search term, the current page and the two dialogs. */
  class Manager {
    var volunteers: seq<Volunteer>
    var selectedIds: seq<string>
    var searchTerm: string
    var currentPage: nat
    var editing: Option<Volunteer>
    var adding: bool

    /** Pages count from 1: the page buttons never go below it. */
    ghost predicate Valid()
      reads this
    {
      currentPage >= 1
    }

    constructor (volunteers: seq<Volunteer>)
      ensures Valid()
      ensures this.volunteers == volunteers && selectedIds == [] && searchTerm == "" && currentPage == 1
      ensures editing == None && !adding
    {
      this.volunteers := volunteers;
      selectedIds := [];
      searchTerm := "";
      currentPage := 1;
      editing := None;
      adding := false;
    }

    function Filtered(): seq<Volunteer>
      reads this
    {
      FilteredView(volunteers, searchTerm)
    }

    function PageCount(): nat
      reads this
    {
      TotalPages(|Filtered()|)
    }

    /** `displayedVolunteers`. */
    function Displayed(): seq<Volunteer>
      reads this
      requires Valid()
    {
      PageOf(Filtered(), currentPage)
    }

    method Search(term: string)
      modifies this`searchTerm
      ensures searchTerm == term
    {
      searchTerm := term;
    }

    /** The "previous" button: `Math.max(1, currentPage - 1)`. */
    method PreviousPage()
      requires Valid()
      modifies this`currentPage
      ensures Valid()
      ensures currentPage == if old(currentPage) > 1 then old(currentPage) - 1 else 1
    {
      currentPage := if currentPage > 1 then currentPage - 1 else 1;
    }

    /** The "next" button, shown only when there is more than one page: `Math.min(totalPages, currentPage + 1)`. */
    method NextPage()
      requires Valid() && PageCount() > 1
      modifies this`currentPage
      ensures Valid()
      ensures currentPage == if old(currentPage) + 1 < PageCount() then old(currentPage) + 1 else PageCount()
    {
      var total := PageCount();
      currentPage := if currentPage + 1 < total then currentPage + 1 else total;
    }

    /** `handleDragEnd`. dnd-kit only reports rows of the displayed page. With no drop target, or a
        drop onto the dragged row, nothing is sent and nothing changes. Otherwise the page is
        reordered, one `sort_order` update per row is sent, and only if all of them succeed is the
        local list reconciled. */
    method HandleDragEnd(activeId: string, overId: Option<string>, batchSucceeded: bool)
      returns (updates: seq<OrderUpdate>)
      requires Valid()
      requires activeId in IdsOf(Displayed())
      requires overId.Some? ==> overId.value in IdsOf(Displayed())
      modifies this`volunteers
      ensures overId.None? || overId.value == activeId ==> updates == [] && volunteers == old(volunteers)
      ensures overId.Some? && overId.value != activeId ==>
        var shown := old(Displayed());
        var reordered := MovedPage(shown, activeId, overId.value);
        && updates == OrderUpdates(reordered, StartIndex(currentPage))
        && volunteers == if batchSucceeded then Reconcile(old(volunteers), reordered, StartIndex(currentPage)) else old(volunteers)
    {
      if overId.None? || overId.value == activeId {
        return [];
      }
      var reordered := MovedPage(Displayed(), activeId, overId.value);
      updates := SendOrder(reordered, StartIndex(currentPage), batchSucceeded);
    }

    /** The second half of `handleDragEnd`: one `sort_order` update per row of the reordered page,
        and the local list reconciled only if the whole batch succeeded. */
    method SendOrder(reordered: seq<Volunteer>, start: nat, batchSucceeded: bool) returns (updates: seq<OrderUpdate>)
      modifies this`volunteers
      ensures updates == OrderUpdates(reordered, start)
      ensures volunteers == if batchSucceeded then Reconcile(old(volunteers), reordered, start) else old(volunteers)
    {
      updates := OrderUpdates(reordered, start);
      if batchSucceeded {
        volunteers := Reconcile(volunteers, reordered, start);
      }
    }

    /** `deleteVolunteer`: after the confirmation, one delete call; only on success is the row
        dropped from the list. The selection is left alone. */
    method DeleteVolunteer(id: string, confirmed: bool, succeeded: bool) returns (requested: seq<string>)
      modifies this`volunteers
      ensures requested == if confirmed then [id] else []
      ensures volunteers == if confirmed && succeeded then WithoutIds(old(volunteers), VolunteerId, [id]) else old(volunteers)
    {
      requested := [];
      if confirmed {
        requested := [id];
        if succeeded {
          volunteers := WithoutIds(volunteers, VolunteerId, [id]);
        }
      }
    }

    /** `deleteSelected`: nothing happens for an empty selection. Otherwise, after the confirmation,
        one delete per selected id; only when all succeed are those rows dropped and the selection emptied. */
    method DeleteSelected(confirmed: bool, succeeded: bool) returns (requested: seq<string>)
      modifies this`volunteers, this`selectedIds
      ensures requested == if |old(selectedIds)| > 0 && confirmed then old(selectedIds) else []
      ensures if |old(selectedIds)| > 0 && confirmed && succeeded
        then volunteers == WithoutIds(old(volunteers), VolunteerId, old(selectedIds)) && selectedIds == []
        else volunteers == old(volunteers) && selectedIds == old(selectedIds)
    {
      requested := [];
      if |selectedIds| == 0 {
        return;
      }
      if confirmed {
        requested := selectedIds;
        if succeeded {
          volunteers := WithoutIds(volunteers, VolunteerId, selectedIds);
          selectedIds := [];
        }
      }
    }

    method ToggleSelect(id: string)
      modifies this`selectedIds
      ensures selectedIds == ToggleId(old(selectedIds), id)
    {
      selectedIds := ToggleId(selectedIds, id);
    }

    /** The header checkbox works on the whole filtered list, not only on the displayed page. */
    method ToggleSelectAll()
      modifies this`selectedIds
      ensures selectedIds == ToggleAll(old(selectedIds), IdsOf(Filtered()))
    {
      selectedIds := ToggleAll(selectedIds, IdsOf(Filtered()));
    }

    /** `updateVolunteer`: sends only name, photo and LinkedIn URL. On success the row with that id is
        replaced by the record the backend returned and the dialog closes; on failure nothing changes. */
    method UpdateVolunteer(edited: Volunteer, reply: Reply<Volunteer>) returns (patch: VolunteerPatch)
      modifies this`volunteers, this`editing
      ensures patch == VolunteerPatch(edited.name, edited.photo_url, edited.linkedin_url)
      ensures reply.Ok? ==> volunteers == ReplaceId(old(volunteers), VolunteerId, edited.id, reply.value) && editing == None
      ensures reply.Err? ==> volunteers == old(volunteers) && editing == old(editing)
    {
      patch := VolunteerPatch(edited.name, edited.photo_url, edited.linkedin_url);
      if reply.Ok? {
        volunteers := ReplaceId(volunteers, VolunteerId, edited.id, reply.value);
        editing := None;
      }
    }

    /** `addVolunteer`: the draft is sent as it is; on success the created record goes first and the
        dialog closes. */
    method AddVolunteer(draft: VolunteerDraft, reply: Reply<Volunteer>) returns (sent: VolunteerDraft)
      modifies this`volunteers, this`adding
      ensures sent == draft
      ensures reply.Ok? ==> volunteers == Prepend(reply.value, old(volunteers)) && !adding
      ensures reply.Err? ==> volunteers == old(volunteers) && adding == old(adding)
    {
      sent := draft;
      if reply.Ok? {
        volunteers := Prepend(reply.value, volunteers);
        adding := false;
      }
    }
  }
}
