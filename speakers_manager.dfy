/** The admin table of speakers: the searched and paginated view of the list (in the order the list
    came, without sorting), and the handlers that delete, select, edit and add rows. */
module SpeakersManager {
  import opened Wrappers
  import opened Lists
  import opened Text
  import opened Records
  import opened AdminList

  /** The search: name, organization or talk title contains the term, both lower-cased. */
  predicate Matches(s: Speaker, term: string) {
    || Includes(Lower(s.name), Lower(term))
    || Includes(Lower(s.organization), Lower(term))
    || Includes(Lower(s.talk_title), Lower(term))
  }

  function MatchesTerm(term: string): Speaker -> bool {
    s => Matches(s, term)
  }

  /** `filteredSpeakers`: the speakers that match the search term. */
  function FilteredView(speakers: seq<Speaker>, term: string): (r: seq<Speaker>)
    ensures forall i :: 0 <= i < |r| ==> r[i] in speakers && Matches(r[i], term)
    ensures forall i :: 0 <= i < |speakers| && Matches(speakers[i], term) ==> speakers[i] in r
    ensures multiset(r) <= multiset(speakers)
  {
    FilterSubMultiset(MatchesTerm(term), speakers);
    var r := Filter(MatchesTerm(term), speakers);
    forall i | 0 <= i < |r| ensures Matches(r[i], term) {
      assert MatchesTerm(term)(r[i]);
    }
    forall i | 0 <= i < |speakers| && Matches(speakers[i], term) ensures speakers[i] in r {
      assert MatchesTerm(term)(speakers[i]);
    }
    r
  }

  /** There is no sorting: the view of two lists one after the other is the view of the first followed
      by the view of the second, so the list's own order survives. */
  lemma FilteredKeepsOrder(a: seq<Speaker>, b: seq<Speaker>, term: string)
    ensures FilteredView(a + b, term) == FilteredView(a, term) + FilteredView(b, term)
  {
    FilterConcat(MatchesTerm(term), a, b);
  }

  /** The empty search term keeps every speaker, in order. */
  lemma EmptyTermKeepsAll(speakers: seq<Speaker>)
    ensures FilteredView(speakers, "") == speakers
  {
    forall i | 0 <= i < |speakers| ensures MatchesTerm("")(speakers[i]) {
      assert Lower("") == "";
      assert Includes(Lower(speakers[i].name), "");
    }
    FilterAll(MatchesTerm(""), speakers);
  }

  function IdsOf(s: seq<Speaker>): seq<string> {
    Map(SpeakerId, s)
  }

  /** The talk length the forms start from and fall back to. */
  const DEFAULT_TALK_LENGTH: int := 45

  /** The talk-length inputs of both dialogs: `parseInt(value) || 45`, where `parsed` is what
      `parseInt` read (`None` when it read no number). */
  function TalkLength(parsed: Option<int>): (r: int)
    ensures r != 0
    ensures parsed.Some? && parsed.value != 0 ==> r == parsed.value
    ensures parsed.None? || parsed == Some(0) ==> r == DEFAULT_TALK_LENGTH
  {
    IntOr(parsed, DEFAULT_TALK_LENGTH)
  }

  /** The state the "add speaker" dialog opens with: every text empty, a 45-minute talk, no order. */
  function NewSpeakerForm(): (f: SpeakerDraft)
    ensures f.talk_length_minutes == DEFAULT_TALK_LENGTH && f.sort_order == None
    ensures f.name == f.title == f.organization == f.talk_title == f.talk_abstract == f.bio == f.photo_url == ""
  {
    SpeakerDraft("", "", "", "", "", "", "", Some(""), Some(""), Some(""), DEFAULT_TALK_LENGTH, None)
  }

  /** The edit dialog's patch: name, title, organization, talk title, abstract, photo, LinkedIn URL and
      talk length, taken from the edited speaker. */
  function PatchOf(edited: Speaker): (p: SpeakerPatch)
    ensures p.name == edited.name && p.title == edited.title && p.organization == edited.organization
    ensures p.talk_title == edited.talk_title && p.talk_abstract == edited.talk_abstract
    ensures p.photo_url == edited.photo_url && p.linkedin_url == edited.linkedin_url
    ensures p.talk_length_minutes == edited.talk_length_minutes
  {
    SpeakerPatch(edited.name, edited.title, edited.organization, edited.talk_title, edited.talk_abstract,
                 edited.photo_url, edited.linkedin_url, edited.talk_length_minutes)
  }

  /** What the backend does with a patch: the patched columns take its values, the others stay. */
  function ApplyPatch(stored: Speaker, p: SpeakerPatch): Speaker {
    stored.(name := p.name, title := p.title, organization := p.organization, talk_title := p.talk_title,
            talk_abstract := p.talk_abstract, photo_url := p.photo_url, linkedin_url := p.linkedin_url,
            talk_length_minutes := p.talk_length_minutes)
  }

  /** Saving an edit can change neither `bio`, `track`, `twitter_url`, `github_url`, `sort_order` nor
      `id`, whatever the dialog holds: the stored values of those columns survive. */
  lemma EditKeepsUnsentColumns(stored: Speaker, edited: Speaker)
    ensures var r := ApplyPatch(stored, PatchOf(edited));
      && r.id == stored.id && r.bio == stored.bio && r.track == stored.track
      && r.twitter_url == stored.twitter_url && r.github_url == stored.github_url && r.sort_order == stored.sort_order
      && r.(id := edited.id, bio := edited.bio, track := edited.track, twitter_url := edited.twitter_url,
            github_url := edited.github_url, sort_order := edited.sort_order) == edited
  {
  }

  /** The component's state: the list it was given (replaced through `onUpdate`), the selected ids,
      the search term, the current page and the two dialogs. */
  class Manager {
    var speakers: seq<Speaker>
    var selectedIds: seq<string>
    var searchTerm: string
    var currentPage: nat
    var editing: Option<Speaker>
    var adding: bool

    ghost predicate Valid()
      reads this
    {
      currentPage >= 1
    }

    constructor (speakers: seq<Speaker>)
      ensures Valid()
      ensures this.speakers == speakers && selectedIds == [] && searchTerm == "" && currentPage == 1
      ensures editing == None && !adding
    {
      this.speakers := speakers;
      selectedIds := [];
      searchTerm := "";
      currentPage := 1;
      editing := None;
      adding := false;
    }

    function Filtered(): seq<Speaker>
      reads this
    {
      FilteredView(speakers, searchTerm)
    }

    function PageCount(): nat
      reads this
    {
      TotalPages(|Filtered()|)
    }

    /** `displayedSpeakers`. */
    function Displayed(): seq<Speaker>
      reads this
      requires Valid()
    {
      PageOf(Filtered(), currentPage)
    }

    method Search(term: string)
      modifies this`searchTerm
      ensures searchTerm == term
    {
      searchTerm := term;
    }

    /** The "previous" button: `Math.max(1, currentPage - 1)`. */
    method PreviousPage()
      requires Valid()
      modifies this`currentPage
      ensures Valid()
      ensures currentPage == if old(currentPage) > 1 then old(currentPage) - 1 else 1
    {
      currentPage := if currentPage > 1 then currentPage - 1 else 1;
    }

    /** The "next" button, shown only when there is more than one page: `Math.min(totalPages, currentPage + 1)`. */
    method NextPage()
      requires Valid() && PageCount() > 1
      modifies this`currentPage
      ensures Valid()
      ensures currentPage == if old(currentPage) + 1 < PageCount() then old(currentPage) + 1 else PageCount()
    {
      var total := PageCount();
      currentPage := if currentPage + 1 < total then currentPage + 1 else total;
    }

    /** `deleteSpeaker`: after the confirmation, one delete call; only on success is the row dropped. */
    method DeleteSpeaker(id: string, confirmed: bool, succeeded: bool) returns (requested: seq<string>)
      modifies this`speakers
      ensures requested == if confirmed then [id] else []
      ensures speakers == if confirmed && succeeded then WithoutIds(old(speakers), SpeakerId, [id]) else old(speakers)
    {
      requested := [];
      if confirmed {
        requested := [id];
        if succeeded {
          speakers := WithoutIds(speakers, SpeakerId, [id]);
        }
      }
    }

    /** `deleteSelected`: nothing happens for an empty selection. Otherwise, after the confirmation,
        one delete per selected id; only when all succeed are exactly those rows dropped and the
        selection emptied. */
    method DeleteSelected(confirmed: bool, succeeded: bool) returns (requested: seq<string>)
      modifies this`speakers, this`selectedIds
      ensures requested == if |old(selectedIds)| > 0 && confirmed then old(selectedIds) else []
      ensures if |old(selectedIds)| > 0 && confirmed && succeeded
        then speakers == WithoutIds(old(speakers), SpeakerId, old(selectedIds)) && selectedIds == []
        else speakers == old(speakers) && selectedIds == old(selectedIds)
    {
      requested := [];
      if |selectedIds| == 0 {
        return;
      }
      if confirmed {
        requested := selectedIds;
        if succeeded {
          speakers := WithoutIds(speakers, SpeakerId, selectedIds);
          selectedIds := [];
        }
      }
    }

    method ToggleSelect(id: string)
      modifies this`selectedIds
      ensures selectedIds == ToggleId(old(selectedIds), id)
    {
      selectedIds := ToggleId(selectedIds, id);
    }

    method ToggleSelectAll()
      modifies this`selectedIds
      ensures selectedIds == ToggleAll(old(selectedIds), IdsOf(Filtered()))
    {
      selectedIds := ToggleAll(selectedIds, IdsOf(Filtered()));
    }

    /** `updateSpeaker`: sends the restricted patch; on success the row with that id is replaced by the
        record the backend returned and the dialog closes; on failure nothing changes. */
    method UpdateSpeaker(edited: Speaker, reply: Reply<Speaker>) returns (patch: SpeakerPatch)
      modifies this`speakers, this`editing
      ensures patch == PatchOf(edited)
      ensures reply.Ok? ==> speakers == ReplaceId(old(speakers), SpeakerId, edited.id, reply.value) && editing == None
      ensures reply.Err? ==> speakers == old(speakers) && editing == old(editing)
    {
      patch := PatchOf(edited);
      if reply.Ok? {
        speakers := ReplaceId(speakers, SpeakerId, edited.id, reply.value);
        editing := None;
      }
    }

    /** `addSpeaker`: the draft is sent as it is; on success the created record goes first, the rest of
        the list follows unchanged, and the dialog closes. */
    method AddSpeaker(draft: SpeakerDraft, reply: Reply<Speaker>) returns (sent: SpeakerDraft)
      modifies this`speakers, this`adding
      ensures sent == draft
      ensures reply.Ok? ==> speakers == Prepend(reply.value, old(speakers)) && !adding
      ensures reply.Err? ==> speakers == old(speakers) && adding == old(adding)
    {
      sent := draft;
      if reply.Ok? {
        speakers := Prepend(reply.value, speakers);
        adding := false;
      }
    }
  }
}
