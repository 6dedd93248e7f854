/** The `User` entity (src/auth/entities/user.entity.ts): its columns, the
    e-mail normalisation its insert and update hooks apply, and lookup of a
    user by primary key. */
module Users {
  import opened Wrappers
  import opened Text
  import Seqs

  /** A row of the `users` table. */
  datatype User = User(
    id: string,
    email: string,
    password: string,
    fullName: string,
    isActive: bool,
    roles: seq<string>)

  /** The normal form of a stored e-mail address: lower-case and without
      surrounding whitespace. */
  predicate IsNormalEmail(e: string) {
    IsTrimmed(e) && NoUpper(e)
  }

  /** `email.toLowerCase().trim()`. */
  function NormalizeEmail(email: string): (r: string)
    ensures IsNormalEmail(r)
    ensures r == ToLower(Trim(email))
    ensures PadsAt(ToLower(email), r, LeadingSpace(ToLower(email)))
  {
    TrimLowerCommute(email);
    Trim(ToLower(email))
  }

  /** Normalising a normalised address changes nothing. */
  lemma NormalizeEmailIdempotent(email: string)
    ensures NormalizeEmail(NormalizeEmail(email)) == NormalizeEmail(email)
  {
    var r := NormalizeEmail(email);
    LowerFixesLower(r);
    TrimFixesTrimmed(r);
  }

  /** The `@BeforeInsert` hook: normalises the e-mail, nothing else. */
  function CheckFieldsBeforeInsert(u: User): (r: User)
    ensures IsNormalEmail(r.email)
    ensures r.email == ToLower(Trim(u.email))
    ensures r.(email := u.email) == u
  {
    u.(email := NormalizeEmail(u.email))
  }

  /** The `@BeforeUpdate` hook: normalises the e-mail, nothing else. */
  function CheckFieldsBeforeUpdate(u: User): (r: User)
    ensures IsNormalEmail(r.email)
    ensures r.email == ToLower(Trim(u.email))
    ensures r.(email := u.email) == u
  {
    u.(email := NormalizeEmail(u.email))
  }

  /** The two hooks compute the same function, and a user that went through
      either hook is left unchanged by the other on a later save. */
  lemma HooksAgree(u: User)
    ensures CheckFieldsBeforeInsert(u) == CheckFieldsBeforeUpdate(u)
    ensures CheckFieldsBeforeUpdate(CheckFieldsBeforeInsert(u)) == CheckFieldsBeforeInsert(u)
  {
    NormalizeEmailIdempotent(u.email);
  }

  /** `findOneBy({ id })` over the `users` table, rows in store order. */
  function FindUserById(users: seq<User>, id: string): (r: Option<User>)
    ensures r.None? <==> forall i | 0 <= i < |users| :: users[i].id != id
    ensures r.Some? ==> r.value in users && r.value.id == id
  {
    match Seqs.FirstIndex(users, (u: User) => u.id == id)
    case None => None
    case Some(i) => Some(users[i])
  }
}
