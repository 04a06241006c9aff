/** The two records the admin dashboard manages, as the backend stores them, and the shapes the client
    sends when it creates or patches one. Optional columns are `Option`s (`null` / absent is `None`). */
module Records {
  import opened Wrappers

  datatype Volunteer = Volunteer(
    id: string,
    name: string,
    email: string,
    phone: Option<string>,
    role: string,
    experience_level: Option<string>,
    availability: seq<string>,
    motivation: string,
    photo_url: Option<string>,
    linkedin_url: Option<string>,
    twitter_url: Option<string>,
    github_url: Option<string>,
    /** `None` stands for a missing, `null` or not-a-number value. */
    sort_order: Option<int>,
    created_at: string)

  datatype Speaker = Speaker(
    id: string,
    name: string,
    title: string,
    organization: string,
    talk_title: string,
    talk_abstract: string,  // the `abstract` column (`abstract` is a Dafny keyword)
    track: string,
    bio: string,
    photo_url: string,
    linkedin_url: Option<string>,
    twitter_url: Option<string>,
    github_url: Option<string>,
    talk_length_minutes: int,
    sort_order: int)

  /** A volunteer without the server-assigned `id` and `created_at`: what the admin "add" form
      and the seeding script send. */
  datatype VolunteerDraft = VolunteerDraft(
    name: string,
    email: string,
    phone: Option<string>,
    role: string,
    experience_level: Option<string>,
    availability: seq<string>,
    motivation: string,
    photo_url: Option<string>,
    linkedin_url: Option<string>,
    twitter_url: Option<string>,
    github_url: Option<string>)

  /** A speaker without the server-assigned `id`: what the admin "add" form and the seeding script send
      (the form sends no `sort_order`, the seed rows do). */
  datatype SpeakerDraft = SpeakerDraft(
    name: string,
    title: string,
    organization: string,
    talk_title: string,
    talk_abstract: string,  // the `abstract` column (`abstract` is a Dafny keyword)
    bio: string,
    photo_url: string,
    linkedin_url: Option<string>,
    twitter_url: Option<string>,
    github_url: Option<string>,
    talk_length_minutes: int,
    sort_order: Option<int>)

  /** The only columns the admin edit dialog may change on a volunteer. */
  datatype VolunteerPatch = VolunteerPatch(
    name: string,
    photo_url: Option<string>,
    linkedin_url: Option<string>)

  /** The only columns the admin edit dialog may change on a speaker: never `bio`, `track`,
      `twitter_url`, `github_url` or `sort_order`. */
  datatype SpeakerPatch = SpeakerPatch(
    name: string,
    title: string,
    organization: string,
    talk_title: string,
    talk_abstract: string,  // the `abstract` column (`abstract` is a Dafny keyword)
    photo_url: string,
    linkedin_url: Option<string>,
    talk_length_minutes: int)

  /** The patch of one drag-and-drop reorder call: `update(id, {sort_order})`. */
  datatype OrderUpdate = OrderUpdate(id: string, sort_order: int)

  /** What a failed backend call throws: an `Error` carrying a message, or some other value. */
  datatype Thrown = ErrorInstance(message: string) | OtherValue

  /** The answer of one backend call: the returned record, or what it threw. */
  type Reply<T> = Result<T, Thrown>

  function VolunteerId(v: Volunteer): string { v.id }
  function SpeakerId(s: Speaker): string { s.id }
}
