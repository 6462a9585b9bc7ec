/**
 * The user row and the repository that holds it. Each request reads one
 * row and issues at most a few writes; writes are recorded in order so that
 * contracts can say which writes a request makes, and `Apply` gives the
 * row they leave behind.
 */
module Users {
  import opened Base

  /**
   * The fields of a user row the authentication core reads or writes.
   * Absent optional columns are `None`; times are milliseconds.
   */
  datatype User = User(
    id: nat,
    email: string,
    passwordHash: Option<string>,
    passwordSalt: Option<string>,
    emailCode: Option<string>,
    emailCodeExpiresAt: Option<int>,
    failedLoginAttempts: int,
    isBlocked: bool
  )

  /** A repository holding at most one user row. */
  datatype Repo = Repo(row: Option<User>)

  /** The repository writes the core can issue. */
  datatype Write =
    | IncrementFailedAttempts(userId: nat)
    | ResetFailedAttempts(userId: nat)
    | UpdateEmailCode(email: string, code: string, expiresAt: int)

  /** `findByEmail`: the row whose email is exactly `email`, if any. */
  function FindByEmail(repo: Repo, email: string): (r: Option<User>)
    ensures r.Some? ==> repo.row == r && r.value.email == email
    ensures r.None? ==> repo.row.None? || repo.row.value.email != email
  {
    if repo.row.Some? && repo.row.value.email == email then repo.row else None
  }

  /** The effect of one write on the row. */
  function ApplyWrite(repo: Repo, w: Write): (r: Repo)
    ensures r.row.Some? <==> repo.row.Some?
    ensures r.row.Some? ==> r.row.value.id == repo.row.value.id
    ensures r.row.Some? ==> r.row.value.email == repo.row.value.email
    ensures r.row.Some? ==> r.row.value.isBlocked == repo.row.value.isBlocked
  {
    match repo.row
    case None => repo
    case Some(u) =>
      match w
      case IncrementFailedAttempts(id) =>
        if u.id == id then Repo(Some(u.(failedLoginAttempts := u.failedLoginAttempts + 1))) else repo
      case ResetFailedAttempts(id) =>
        if u.id == id then Repo(Some(u.(failedLoginAttempts := 0))) else repo
      case UpdateEmailCode(email, code, expiresAt) =>
        if u.email == email then Repo(Some(u.(emailCode := Some(code), emailCodeExpiresAt := Some(expiresAt))))
        else repo
  }

  /** The row after a sequence of writes, applied in order. */
  function Apply(repo: Repo, writes: seq<Write>): (r: Repo)
    ensures r.row.Some? <==> repo.row.Some?
    ensures r.row.Some? ==> r.row.value.id == repo.row.value.id && r.row.value.email == repo.row.value.email
    decreases |writes|
  {
    if writes == [] then repo else Apply(ApplyWrite(repo, writes[0]), writes[1..])
  }

  /** A one-write log has exactly that write's effect. */
  lemma ApplySingle(repo: Repo, w: Write)
    ensures Apply(repo, [w]) == ApplyWrite(repo, w)
  {
    assert [w][1..] == [];
  }
}
