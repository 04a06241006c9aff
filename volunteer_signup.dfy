/** The public volunteer page: the sign-up form's state and handlers, the payload it submits, and the
    two relabelling functions used to show the volunteers already registered. */
module VolunteerSignup {
  import opened Wrappers
  import opened Text
  import opened Records
  import opened AdminList

  /** The sign-up form. */
  datatype FormState = FormState(
    name: string,
    email: string,
    phone: string,
    role: string,
    experience_level: string,
    availability: seq<string>,
    motivation: string)

  /** The `name` attributes of the form's text inputs, selects and text area. */
  datatype FieldName = Name | Email | Phone | Role | ExperienceLevel | Motivation

  /** The form as it first appears and as it is reset after a successful submission. */
  function EmptyForm(): (f: FormState)
    ensures forall field :: FieldValue(f, field) == ""
    ensures f.availability == []
  {
    FormState("", "", "", "", "", [], "")
  }

  function FieldValue(f: FormState, field: FieldName): string {
    match field
    case Name => f.name
    case Email => f.email
    case Phone => f.phone
    case Role => f.role
    case ExperienceLevel => f.experience_level
    case Motivation => f.motivation
  }

  /** `handleChange`: the field the input names takes the new value; every other field, the
      availability list included, stays as it was. */
  function WithField(f: FormState, field: FieldName, value: string): (r: FormState)
    ensures FieldValue(r, field) == value
    ensures forall other :: other != field ==> FieldValue(r, other) == FieldValue(f, other)
    ensures r.availability == f.availability
  {
    match field
    case Name => f.(name := value)
    case Email => f.(email := value)
    case Phone => f.(phone := value)
    case Role => f.(role := value)
    case ExperienceLevel => f.(experience_level := value)
    case Motivation => f.(motivation := value)
  }

  /** `handleCheckboxChange`: a ticked day is removed from the availability list, an unticked one is
      appended at its end; the text fields stay as they were. */
  function WithAvailabilityToggled(f: FormState, day: string): (r: FormState)
    ensures day in f.availability ==> day !in r.availability && multiset(r.availability)[day] == 0
    ensures day !in f.availability ==> r.availability == f.availability + [day]
    ensures forall x :: x != day ==> multiset(r.availability)[x] == multiset(f.availability)[x]
    ensures forall field :: FieldValue(r, field) == FieldValue(f, field)
  {
    f.(availability := ToggleId(f.availability, day))
  }

  /** Ticking the same day twice, starting from a list without repetitions of it, restores the form. */
  lemma TickTwiceRestores(f: FormState, day: string)
    requires day !in f.availability
    ensures WithAvailabilityToggled(WithAvailabilityToggled(f, day), day) == f
  {
    ToggleTwiceRestores(f.availability, day);
  }

  /** What a submission sends to the backend. */
  datatype Application = Application(
    name: string,
    email: string,
    phone: Option<string>,
    role: string,
    experience_level: Option<string>,
    availability: seq<string>,
    motivation: string)

  /** `value || null` on a string: the empty string becomes `null`, any other string is kept. */
  function NullIfEmpty(s: string): (r: Option<string>)
    ensures r == None <==> s == ""
    ensures r.Some? ==> r.value == s
  {
    if s == "" then None else Some(s)
  }

  /** The payload of `handleSubmit`: an empty phone and an empty experience level become `null`, the
      other fields are copied as they are. */
  function ApplicationOf(f: FormState): (a: Application)
    ensures a.phone == NullIfEmpty(f.phone) && a.experience_level == NullIfEmpty(f.experience_level)
    ensures a.name == f.name && a.email == f.email && a.role == f.role
    ensures a.availability == f.availability && a.motivation == f.motivation
  {
    Application(f.name, f.email, NullIfEmpty(f.phone), f.role, NullIfEmpty(f.experience_level),
                f.availability, f.motivation)
  }

  /** Reading a payload back into a form, `null` as the empty string. */
  function FormOf(a: Application): FormState {
    FormState(a.name, a.email, a.phone.GetOr(""), a.role, a.experience_level.GetOr(""), a.availability, a.motivation)
  }

  /** No information is lost in the payload: the form can be read back from it. */
  lemma ApplicationRoundTrip(f: FormState)
    ensures FormOf(ApplicationOf(f)) == f
  {
  }

  /** The message shown for a failed submission: the error's message, or a fixed text for a thrown
      value that is not an `Error`. */
  function ErrorText(t: Thrown): (m: string)
    ensures t.ErrorInstance? ==> m == t.message
    ensures t.OtherValue? ==> m == "An error occurred"
  {
    match t
    case ErrorInstance(message) => message
    case OtherValue => "An error occurred"
  }

  /** JavaScript's `\w`: an ASCII letter, digit or underscore. */
  predicate IsWordChar(c: char) {
    IsUpperAscii(c) || IsLowerAscii(c) || IsDigit(c) || c == '_'
  }

  /** Where `/\b\w/` matches: a word character at the start of the string or after a non-word one. */
  predicate WordStart(s: string, i: nat)
    requires i < |s|
  {
    IsWordChar(s[i]) && (i == 0 || !IsWordChar(s[i - 1]))
  }

  /** `replace(/\b\w/g, l => l.toUpperCase())`. */
  function CapitalizeWords(s: string): string {
    seq(|s|, i requires 0 <= i < |s| => if WordStart(s, i) then UpperChar(s[i]) else s[i])
  }

  /** Upper-casing keeps a character a word character and keeps a non-word character what it is. */
  lemma UpperKeepsWordChar(c: char)
    ensures IsWordChar(UpperChar(c)) == IsWordChar(c)
  {
  }

  /** Capitalizing changes only the case of the word-initial letters: the text is the same up to case,
      every word now starts with no lower-case letter, and nothing else moves. */
  lemma CapitalizeWordsSpec(s: string)
    ensures |CapitalizeWords(s)| == |s|
    ensures Lower(CapitalizeWords(s)) == Lower(s)
    ensures forall i :: 0 <= i < |s| && WordStart(s, i) ==> !IsLowerAscii(CapitalizeWords(s)[i])
    ensures forall i :: 0 <= i < |s| && !WordStart(s, i) ==> CapitalizeWords(s)[i] == s[i]
  {
    var r := CapitalizeWords(s);
    forall i | 0 <= i < |s| ensures LowerChar(r[i]) == LowerChar(s[i]) {
      if WordStart(s, i) {
        assert r[i] == UpperChar(s[i]);
      }
    }
  }

  /** Capitalizing twice is capitalizing once: the word starts of the result are those of the input. */
  lemma CapitalizeWordsIdempotent(s: string)
    ensures CapitalizeWords(CapitalizeWords(s)) == CapitalizeWords(s)
  {
    var r := CapitalizeWords(s);
    forall i | 0 <= i < |s| ensures WordStart(r, i) == WordStart(s, i) {
      UpperKeepsWordChar(s[i]);
      if i > 0 {
        UpperKeepsWordChar(s[i - 1]);
      }
    }
    assert forall i :: 0 <= i < |s| ==> CapitalizeWords(r)[i] == r[i];
  }

  /** The experience label: the first `-` becomes a space, then every word starts upper-case. */
  function ExperienceLabel(level: string): string {
    CapitalizeWords(ReplaceFirst(level, "-", " "))
  }

  lemma ExperienceLabelFirstTime()
    ensures ExperienceLabel("first-time") == "First Time"
  {
    FirstDashToSpace("first-time", 5);
    CapitalizeFirstTime();
  }

  lemma ExperienceLabelEventOrganizer()
    ensures ExperienceLabel("event-organizer") == "Event Organizer"
  {
    FirstDashToSpace("event-organizer", 5);
    CapitalizeEventOrganizer();
  }

  lemma ExperienceLabelExperienced()
    ensures ExperienceLabel("experienced") == "Experienced"
  {
    var e := "experienced";
    assert forall i :: 0 <= i < |e| ==> e[i] != '-';
    FirstCharAbsent(e, "-");
    ReplaceFirstAbsent(e, "-", " ");
    CapitalizeExperienced();
  }

  /** Replacing the first dash, at `k`, puts a space in its place and changes nothing else. */
  lemma {:induction false} FirstDashToSpace(s: string, k: nat)
    requires k < |s| && s[k] == '-'
    requires forall j :: 0 <= j < k ==> s[j] != '-'
    ensures ReplaceFirst(s, "-", " ") == s[k := ' ']
  {
    if k == 0 {
      assert "-" <= s;
      assert ReplaceFirst(s, "-", " ") == " " + s[1..];
    } else {
      assert !("-" <= s) by {
        assert s[0] != '-';
      }
      FirstDashToSpace(s[1..], k - 1);
      assert ReplaceFirst(s, "-", " ") == [s[0]] + ReplaceFirst(s[1..], "-", " ");
      assert [s[0]] + s[1..][k - 1 := ' '] == s[k := ' '];
    }
  }

  lemma CapitalizeFirstTime()
    ensures CapitalizeWords("first-time"[5 := ' ']) == "First Time"
  {
    var s := "first-time"[5 := ' '];
    assert forall i :: 0 <= i < |s| ==> (WordStart(s, i) <==> i == 0 || i == 6);
  }

  lemma CapitalizeEventOrganizer()
    ensures CapitalizeWords("event-organizer"[5 := ' ']) == "Event Organizer"
  {
    var s := "event-organizer"[5 := ' '];
    assert forall i :: 0 <= i < |s| ==> (WordStart(s, i) <==> i == 0 || i == 6);
  }

  lemma CapitalizeExperienced()
    ensures CapitalizeWords("experienced") == "Experienced"
  {
    var s := "experienced";
    assert forall i :: 0 <= i < |s| ==> (WordStart(s, i) <==> i == 0);
  }

  const EVENT_DAY: string := "Event Day (Dec 13)"
  const DAY_BEFORE: string := "Day Before (Dec 12)"
  const DAY_AFTER: string := "Day After (Dec 14)"

  /** The availability label: the three offered days are shortened, in this order. */
  function AvailabilityLabel(day: string): string {
    ReplaceFirst(ReplaceFirst(ReplaceFirst(day, EVENT_DAY, "Event Day"), DAY_BEFORE, "Setup"), DAY_AFTER, "Cleanup")
  }

  lemma AvailabilityLabelOfEventDay()
    ensures AvailabilityLabel(EVENT_DAY) == "Event Day"
  {
    ReplaceWhole(EVENT_DAY, "Event Day");
    ReplaceFirstAbsent("Event Day", DAY_BEFORE, "Setup");
    ReplaceFirstAbsent("Event Day", DAY_AFTER, "Cleanup");
  }

  lemma AvailabilityLabelOfDayBefore()
    ensures AvailabilityLabel(DAY_BEFORE) == "Setup"
  {
    FirstCharAbsent(DAY_BEFORE, EVENT_DAY);
    ReplaceFirstAbsent(DAY_BEFORE, EVENT_DAY, "Event Day");
    ReplaceWhole(DAY_BEFORE, "Setup");
    ReplaceFirstAbsent("Setup", DAY_AFTER, "Cleanup");
  }

  lemma AvailabilityLabelOfDayAfter()
    ensures AvailabilityLabel(DAY_AFTER) == "Cleanup"
  {
    FirstCharAbsent(DAY_AFTER, EVENT_DAY);
    ReplaceFirstAbsent(DAY_AFTER, EVENT_DAY, "Event Day");
    ReplaceFirstAbsent(DAY_AFTER, DAY_BEFORE, "Setup");
    ReplaceWhole(DAY_AFTER, "Cleanup");
  }

  /** A day that contains none of the three offered days is shown as it is. */
  lemma AvailabilityLabelOfOther(day: string)
    requires !Includes(day, EVENT_DAY) && !Includes(day, DAY_BEFORE) && !Includes(day, DAY_AFTER)
    ensures AvailabilityLabel(day) == day
  {
    ReplaceFirstAbsent(day, EVENT_DAY, "Event Day");
    ReplaceFirstAbsent(day, DAY_BEFORE, "Setup");
    ReplaceFirstAbsent(day, DAY_AFTER, "Cleanup");
  }

  /** The page's state: the registered volunteers it shows, the form, and the submission flags. */
  class SignupPage {
    var volunteers: seq<Volunteer>
    var volunteersLoading: bool
    var form: FormState
    var submitted: bool
    var error: string
    var loading: bool

    constructor ()
      ensures volunteers == [] && volunteersLoading && form == EmptyForm()
      ensures !submitted && error == "" && !loading
    {
      volunteers := [];
      volunteersLoading := true;
      form := EmptyForm();
      submitted := false;
      error := "";
      loading := false;
    }

    /** The first load: the list the backend returns, or still the empty list when the call fails;
        either way loading is over. */
    method Load(reply: Reply<seq<Volunteer>>)
      modifies this`volunteers, this`volunteersLoading
      ensures volunteers == if reply.Ok? then reply.value else old(volunteers)
      ensures !volunteersLoading
    {
      if reply.Ok? {
        volunteers := reply.value;
      }
      volunteersLoading := false;
    }

    method HandleChange(field: FieldName, value: string)
      modifies this`form
      ensures form == WithField(old(form), field, value)
    {
      form := WithField(form, field, value);
    }

    method HandleCheckboxChange(day: string)
      modifies this`form
      ensures form == WithAvailabilityToggled(old(form), day)
    {
      form := WithAvailabilityToggled(form, day);
    }

    /** `handleSubmit`: sends the payload of the current form. On success the created volunteer goes
        first in the list, the page shows the confirmation and the form is emptied; on failure the
        error text is shown and list, form and confirmation stay. The spinner is off in both cases. */
    method HandleSubmit(reply: Reply<Volunteer>) returns (sent: Application)
      modifies this`volunteers, this`form, this`submitted, this`error, this`loading
      ensures sent == ApplicationOf(old(form))
      ensures !loading
      ensures reply.Ok? ==>
        volunteers == Prepend(reply.value, old(volunteers)) && submitted && form == EmptyForm() && error == ""
      ensures reply.Err? ==>
        volunteers == old(volunteers) && submitted == old(submitted) && form == old(form)
        && error == ErrorText(reply.error)
    {
      error := "";
      loading := true;
      sent := ApplicationOf(form);
      match reply {
        case Ok(created) =>
          volunteers := Prepend(created, volunteers);
          submitted := true;
          form := EmptyForm();
        case Err(thrown) =>
          error := ErrorText(thrown);
      }
      loading := false;
    }
  }
}
