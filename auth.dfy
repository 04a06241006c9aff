/** The admin session: a single browser-local slot written by a successful login, cleared by logout,
    and read back to tell who is signed in and whether they are an admin. */
module Auth {
  import opened Wrappers
  import opened Lists

  /** A row of the `admin_users` table (the password is stored and compared as plain text). */
  datatype AdminUser = AdminUser(id: string, email: string, password: string, role: string)

  /** What the `admin_session` slot can hold: the JSON of a stored row, or text that does not parse. */
  datatype StoredSession = Parsed(user: AdminUser) | Unparsable

  /** The slot itself: `None` when nothing (or the empty string) is stored under the key. */
  type Slot = Option<StoredSession>

  /** How the credentials lookup went: the query ran against the table, the backend answered with an
      error, or something threw on the way. */
  datatype Transport = Answered | QueryError | Threw

  /** What `login` returns: the matched row or an error message, never both. */
  datatype LoginReply = LoginReply(data: Option<AdminUser>, error: Option<string>)

  const ADMIN_ROLE: string := "admin"

  /** The rows the lookup selects: same email, same password, role "admin". */
  function Credentials(email: string, password: string): AdminUser -> bool {
    (u: AdminUser) => u.email == email && u.password == password && u.role == ADMIN_ROLE
  }

  function MatchingRows(table: seq<AdminUser>, email: string, password: string): (r: seq<AdminUser>)
    ensures forall i :: 0 <= i < |r| ==> r[i] in table && Credentials(email, password)(r[i])
    ensures forall i :: 0 <= i < |table| && Credentials(email, password)(table[i]) ==> table[i] in r
  {
    Filter(Credentials(email, password), table)
  }

  /** The row `.single()` yields: the one match when there is exactly one, and nothing otherwise. */
  function Lookup(table: seq<AdminUser>, email: string, password: string, transport: Transport): (r: Option<AdminUser>)
    ensures r.Some? <==> transport == Answered && |MatchingRows(table, email, password)| == 1
    ensures r.Some? ==> r.value in table && r.value.email == email && r.value.password == password && r.value.role == ADMIN_ROLE
  {
    if transport == Answered && |MatchingRows(table, email, password)| == 1 then
      Some(MatchingRows(table, email, password)[0])
    else None
  }

  /** `login`: the reply, and the new slot. Only a unique match signs in and overwrites the slot; a
      failed or empty lookup says "Invalid credentials" and a thrown error "Login failed", and both
      leave the slot as it was. */
  function LoginStep(slot: Slot, table: seq<AdminUser>, email: string, password: string, transport: Transport): (r: (Slot, LoginReply))
    ensures var (after, reply) := r;
      && (reply.data.Some? <==> reply.error.None?)
      && (reply.data.Some? ==> after == Some(Parsed(reply.data.value)) && reply.data == Lookup(table, email, password, transport))
      && (reply.data.None? ==> after == slot)
      && (transport == Threw ==> reply.error == Some("Login failed"))
      && (transport != Threw && Lookup(table, email, password, transport).None? ==> reply.error == Some("Invalid credentials"))
  {
    if transport == Threw then (slot, LoginReply(None, Some("Login failed")))
    else match Lookup(table, email, password, transport)
      case None => (slot, LoginReply(None, Some("Invalid credentials")))
      case Some(user) => (Some(Parsed(user)), LoginReply(Some(user), None))
  }

  /** `getUser`: the stored record, or nothing for an empty slot or text that does not parse. */
  function UserOf(slot: Slot): (r: Option<AdminUser>)
    ensures r.Some? <==> slot.Some? && slot.value.Parsed?
    ensures r.Some? ==> slot == Some(Parsed(r.value))
  {
    match slot
    case Some(Parsed(user)) => Some(user)
    case _ => None
  }

  /** `isAdmin`: a user is stored and their role is "admin". */
  predicate IsAdminIn(slot: Slot) {
    UserOf(slot).Some? && UserOf(slot).value.role == ADMIN_ROLE
  }

  /** A successful login leaves an admin signed in, as the very row that matched. */
  lemma LoginMakesAdmin(slot: Slot, table: seq<AdminUser>, email: string, password: string, transport: Transport)
    requires LoginStep(slot, table, email, password, transport).1.error.None?
    ensures var (after, reply) := LoginStep(slot, table, email, password, transport);
      IsAdminIn(after) && UserOf(after) == reply.data && reply.data.value.email == email
  {
  }

  /** A table holding exactly one admin row with these credentials always lets that admin in when the
      lookup is answered, and the slot then holds that row. */
  lemma UniqueAdminLogsIn(slot: Slot, table: seq<AdminUser>, user: AdminUser)
    requires user.role == ADMIN_ROLE && user in table
    requires forall i :: 0 <= i < |table| && Credentials(user.email, user.password)(table[i]) ==> table[i] == user
    requires multiset(table)[user] == 1
    ensures LoginStep(slot, table, user.email, user.password, Answered) == (Some(Parsed(user)), LoginReply(Some(user), None))
  {
    var rows := MatchingRows(table, user.email, user.password);
    FilterCount(Credentials(user.email, user.password), table, user);
    assert Credentials(user.email, user.password)(user);
    assert multiset(rows)[user] == 1;
    forall i | 0 <= i < |rows| ensures rows[i] == user {
    }
    AllSameCount(rows, user);
  }

  /** In a sequence made of one value only, that value occurs as often as the sequence is long. */
  lemma {:induction false} AllSameCount<T>(s: seq<T>, x: T)
    requires forall i :: 0 <= i < |s| ==> s[i] == x
    ensures multiset(s)[x] == |s|
  {
    if s != [] {
      assert s == [s[0]] + s[1..];
      AllSameCount(s[1..], x);
    }
  }

  /** Two rows with the same credentials make `.single()` fail: neither can log in. */
  lemma DuplicateCredentialsRefused(slot: Slot, table: seq<AdminUser>, email: string, password: string, i: nat, j: nat)
    requires i < j < |table|
    requires Credentials(email, password)(table[i]) && Credentials(email, password)(table[j])
    ensures LoginStep(slot, table, email, password, Answered) == (slot, LoginReply(None, Some("Invalid credentials")))
  {
    MatchingRowsSplit(table, email, password, i, j);
  }

  lemma MatchingRowsSplit(table: seq<AdminUser>, email: string, password: string, i: nat, j: nat)
    requires i < j < |table|
    requires Credentials(email, password)(table[i]) && Credentials(email, password)(table[j])
    ensures |MatchingRows(table, email, password)| >= 2
  {
    var p := Credentials(email, password);
    assert table == table[..j] + table[j..];
    FilterConcat(p, table[..j], table[j..]);
    assert table[..j][i] == table[i];
    assert table[j..][0] == table[j];
    assert |Filter(p, table[..j])| >= 1;
    assert |Filter(p, table[j..])| >= 1;
  }

  /** The browser's storage as far as the admin session is concerned. */
  class AdminAuth {
    var slot: Slot

    constructor (stored: Slot)
      ensures slot == stored
    {
      slot := stored;
    }

    method Login(table: seq<AdminUser>, email: string, password: string, transport: Transport) returns (reply: LoginReply)
      modifies this
      ensures (slot, reply) == LoginStep(old(slot), table, email, password, transport)
      ensures reply.error.None? ==> IsAdminIn(slot) && UserOf(slot) == reply.data
    {
      var r := LoginStep(slot, table, email, password, transport);
      slot := r.0;
      reply := r.1;
      if reply.error.None? {
        LoginMakesAdmin(old(slot), table, email, password, transport);
      }
    }

    /** `logout` clears the slot and never reports an error. */
    method Logout() returns (error: Option<string>)
      modifies this
      ensures slot == None && error == None
      ensures !IsAdminIn(slot)
    {
      slot := None;
      error := None;
    }

    method GetUser() returns (user: Option<AdminUser>)
      ensures user == UserOf(slot)
    {
      user := UserOf(slot);
    }

    method IsAdmin() returns (b: bool)
      ensures b <==> IsAdminIn(slot)
    {
      var user := GetUser();
      b := user.Some? && user.value.role == ADMIN_ROLE;
    }
  }
}
