/** The users table (User.kt, UserRepository.kt, UserJpaEntity.kt): accounts
    with a unique e-mail address, a password hash, a display name and a
    role. */
module Users {
  import opened Common

  datatype Role = Member | Admin {
    /** The enum constant's `name`, as written into tokens. */
    function Name(): (s: string)
      ensures s == "MEMBER" <==> this == Member
      ensures s == "ADMIN" <==> this == Admin
    {
      match this
      case Member => "MEMBER"
      case Admin => "ADMIN"
    }
  }

  datatype User = User(id: Id, email: string, password: string, name: string, createdAt: Time, role: Role)

  /** The `unique = true` constraint on the email column. */
  predicate UniqueEmails(rows: seq<User>) {
    forall i, j :: 0 <= i < j < |rows| ==> rows[i].email != rows[j].email
  }

  predicate DistinctUserIds(rows: seq<User>) {
    forall i, j :: 0 <= i < j < |rows| ==> rows[i].id != rows[j].id
  }

  /** `findByEmail`. */
  function FindUserByEmail(rows: seq<User>, email: string): (r: Option<User>)
    ensures r.None? <==> forall i :: 0 <= i < |rows| ==> rows[i].email != email
    ensures r.Some? ==> r.value in rows && r.value.email == email
  {
    if rows == [] then None
    else if rows[0].email == email then Some(rows[0])
    else FindUserByEmail(rows[1..], email)
  }

  /** `findById`, used by the report. */
  function FindUserById(rows: seq<User>, id: Id): (r: Option<User>)
    ensures r.None? <==> forall i :: 0 <= i < |rows| ==> rows[i].id != id
    ensures r.Some? ==> r.value in rows && r.value.id == id
  {
    if rows == [] then None
    else if rows[0].id == id then Some(rows[0])
    else FindUserById(rows[1..], id)
  }

  /** Appending a user whose e-mail is new makes that e-mail find the new
      user and leaves every other e-mail's lookup as it was. */
  lemma {:induction false} FindUserByEmailAppend(rows: seq<User>, u: User, email: string)
    requires FindUserByEmail(rows, u.email).None?
    ensures FindUserByEmail(rows + [u], email) ==
            if email == u.email then Some(u) else FindUserByEmail(rows, email)
  {
    if rows != [] {
      assert (rows + [u])[1..] == rows[1..] + [u];
      FindUserByEmailAppend(rows[1..], u, email);
    }
  }

  /** The users table: rows plus the identity counter. */
  class UserStore {
    var rows: seq<User>
    var nextId: Id

    ghost predicate Valid()
      reads this
    {
      && 0 < nextId
      && (forall i :: 0 <= i < |rows| ==> 0 < rows[i].id < nextId)
      && DistinctUserIds(rows)
      && UniqueEmails(rows)
    }

    constructor ()
      ensures Valid() && rows == [] && nextId == 1
    {
      rows := [];
      nextId := 1;
    }

    /** `existsByEmail`. */
    function ExistsByEmail(email: string): (b: bool)
      reads this
      ensures b <==> exists i :: 0 <= i < |rows| && rows[i].email == email
    {
      FindUserByEmail(rows, email).Some?
    }

    /** `save` of a new user: it gets the next identity value. The table's
        unique constraint rejects a second row with a stored e-mail, so the
        caller must have checked it. */
    method Save(email: string, password: string, name: string, createdAt: Time, role: Role) returns (u: User)
      requires Valid() && !ExistsByEmail(email)
      modifies this
      ensures Valid()
      ensures u == User(old(nextId), email, password, name, createdAt, role)
      ensures rows == old(rows) + [u]
      ensures nextId == old(nextId) + 1
    {
      u := User(nextId, email, password, name, createdAt, role);
      rows := rows + [u];
      nextId := nextId + 1;
    }
  }
}
