/**
 * The user store (src/app/user/user.repository.ts) over the `users` table,
 * whose `email` is UNIQUE, whose `role` is CHECKed against the three roles
 * and whose columns are all NOT NULL.
 */
module Users {
  import opened Common
  import Text
  import Tables

  /** A row of `users`. */
  datatype User = User(id: int, name: string, email: string, password: string, role: string)

  /** What a caller hands to `createUser`. */
  datatype UserInput = UserInput(name: string, email: string, password: string, role: string)

  /** The filters `searchUsers` reads; each is used only when present and non-empty. */
  datatype SearchFilters = SearchFilters(role: Option<string>, name: Option<string>, email: Option<string>)

  /**
   * The errors the sqlite driver reports for the constraints of the `users`
   * table (the text is the driver's, not the application's).
   */
  const RoleCheckFailed := "SQLITE_CONSTRAINT: CHECK constraint failed: role IN ('Patient', 'Doctor', 'Admin')"
  const EmailTaken := "SQLITE_CONSTRAINT: UNIQUE constraint failed: users.email"
  const NameMissing := "SQLITE_CONSTRAINT: NOT NULL constraint failed: users.name"
  const EmailMissing := "SQLITE_CONSTRAINT: NOT NULL constraint failed: users.email"
  const PasswordMissing := "SQLITE_CONSTRAINT: NOT NULL constraint failed: users.password"

  predicate ValidRole(role: string) {
    role == PatientRole || role == DoctorRole || role == AdminRole
  }

  function UserId(u: User): int { u.id }

  /** The table invariant: ids handed out in order, rows under their own id, the CHECK and UNIQUE constraints hold. */
  ghost predicate WellFormed(rows: map<int, User>, nextId: int) {
    && 1 <= nextId
    && Tables.KeysWithin(rows, nextId)
    && (forall k :: k in rows ==> rows[k].id == k && ValidRole(rows[k].role))
    && forall a, b :: a in rows && b in rows && rows[a].email == rows[b].email ==> a == b
  }

  /** Whether some row holds `email`. */
  predicate EmailStored(rows: map<int, User>, email: string) {
    exists k :: k in rows && rows[k].email == email
  }

  /** Whether a row other than `userId` holds `email`. */
  predicate EmailHeldByOther(rows: map<int, User>, email: string, userId: int) {
    exists k :: k in rows && k != userId && rows[k].email == email
  }

  /** The first user in `users` with the given email. */
  function FirstWithEmail(users: seq<User>, email: string): (r: Option<User>)
    ensures r.None? <==> forall u :: u in users ==> u.email != email
    ensures r.Some? ==> r.value in users && r.value.email == email
  {
    if users == [] then None
    else if users[0].email == email then Some(users[0])
    else FirstWithEmail(users[1..], email)
  }

  /** JavaScript truthiness of an optional text value. */
  predicate Truthy(s: Option<string>) {
    s.Some? && s.value != ""
  }

  /** One condition of the search's WHERE clause. */
  datatype Criterion = RoleIs(role: string) | NameLike(name: string) | EmailLike(email: string) {
    /** The condition's SQL text. */
    function Condition(): string {
      match this
      case RoleIs(_) => "role = ?"
      case NameLike(_) => "name LIKE ?"
      case EmailLike(_) => "email LIKE ?"
    }

    /** The value bound to the condition's `?`: the role verbatim, name and email wrapped in `%`. */
    function Param(): string {
      match this
      case RoleIs(r) => r
      case NameLike(n) => "%" + n + "%"
      case EmailLike(e) => "%" + e + "%"
    }
  }

  /** The criteria a search uses, in the order role, name, email. */
  function Criteria(f: SearchFilters): seq<Criterion> {
    (if Truthy(f.role) then [RoleIs(f.role.value)] else [])
    + (if Truthy(f.name) then [NameLike(f.name.value)] else [])
    + (if Truthy(f.email) then [EmailLike(f.email.value)] else [])
  }

  function Conditions(cs: seq<Criterion>): (r: seq<string>)
    ensures |r| == |cs| && forall i :: 0 <= i < |cs| ==> r[i] == cs[i].Condition()
  {
    seq(|cs|, i requires 0 <= i < |cs| => cs[i].Condition())
  }

  function Params(cs: seq<Criterion>): (r: seq<string>)
    ensures |r| == |cs| && forall i :: 0 <= i < |cs| ==> r[i] == cs[i].Param()
  {
    seq(|cs|, i requires 0 <= i < |cs| => cs[i].Param())
  }

  /** `WHERE c1 AND c2 ...`, or nothing at all when there is no condition. */
  function WhereClause(cs: seq<Criterion>): string {
    if cs == [] then "" else "WHERE " + Text.Join(Conditions(cs), " AND ")
  }

  /** Every non-empty filter gives exactly one criterion, and an empty or absent one none. */
  lemma CriteriaFromFilters(f: SearchFilters)
    ensures forall r :: RoleIs(r) in Criteria(f) <==> Truthy(f.role) && r == f.role.value
    ensures forall n :: NameLike(n) in Criteria(f) <==> Truthy(f.name) && n == f.name.value
    ensures forall e :: EmailLike(e) in Criteria(f) <==> Truthy(f.email) && e == f.email.value
    ensures OneOfEachKind(Criteria(f))
  {
  }

  /** No two criteria are of the same kind. */
  predicate OneOfEachKind(cs: seq<Criterion>) {
    forall i, j :: 0 <= i < j < |cs| ==> cs[i].Condition() != cs[j].Condition()
  }

  /**
   * The three conditions come in the fixed order role, name, email: a role
   * condition is never preceded by another, an email condition never
   * followed by one.
   */
  lemma CriteriaOrdered(f: SearchFilters)
    ensures forall i :: 0 < i < |Criteria(f)| ==> !Criteria(f)[i].RoleIs?
    ensures forall i :: 0 <= i < |Criteria(f)| - 1 ==> !Criteria(f)[i].EmailLike?
  {
  }

  /** With no non-empty filter there is no WHERE clause and nothing to bind; with one, the clause starts "WHERE ". */
  lemma NoFiltersNoWhere(f: SearchFilters)
    ensures (WhereClause(Criteria(f)) == "") <==> !Truthy(f.role) && !Truthy(f.name) && !Truthy(f.email)
    ensures (Params(Criteria(f)) == []) <==> !Truthy(f.role) && !Truthy(f.name) && !Truthy(f.email)
    ensures Criteria(f) != [] ==> WhereClause(Criteria(f))[..6] == "WHERE "
  {
  }

  /**
   * `updateUser`'s patch, a `Partial<User>`: an object whose fields the
   * service may rewrite before the store reads it.
   */
  class UserPatch {
    var name: Option<string>
    var email: Option<string>
    var password: Option<string>
    var role: Option<string>

    constructor (name: Option<string>, email: Option<string>, password: Option<string>, role: Option<string>)
      ensures this.name == name && this.email == email && this.password == password && this.role == role
    {
      this.name := name;
      this.email := email;
      this.password := password;
      this.role := role;
    }
  }

  class UserRepository {
    var rows: map<int, User>
    var nextId: int

    ghost predicate Valid()
      reads this
    {
      WellFormed(rows, nextId)
    }

    constructor ()
      ensures Valid() && rows == map[] && nextId == 1
    {
      rows := map[];
      nextId := 1;
    }

    /**
     * `createUser`: a role other than the three fails the CHECK, an email
     * already stored fails the UNIQUE constraint, in both cases with nothing
     * stored; otherwise one row is stored under a fresh id, which is returned.
     */
    method CreateUser(u: UserInput) returns (r: Result<int>)
      requires Valid()
      modifies this
      ensures Valid()
      ensures !ValidRole(u.role) ==> r == Err(RoleCheckFailed)
      ensures ValidRole(u.role) && EmailStored(old(rows), u.email) ==> r == Err(EmailTaken)
      ensures r.Err? ==> rows == old(rows) && nextId == old(nextId)
      ensures r.Ok? <==> ValidRole(u.role) && !EmailStored(old(rows), u.email)
      ensures r.Ok? ==>
                && r.value == old(nextId) && r.value !in old(rows)
                && rows == old(rows)[r.value := User(r.value, u.name, u.email, u.password, u.role)]
                && nextId == old(nextId) + 1
    {
      if !ValidRole(u.role) {
        return Err(RoleCheckFailed);
      }
      if exists k :: k in rows && rows[k].email == u.email {
        return Err(EmailTaken);
      }
      r := Ok(nextId);
      rows := rows[nextId := User(nextId, u.name, u.email, u.password, u.role)];
      nextId := nextId + 1;
    }

    /** `getUserById`: null exactly when no row has that id. */
    function GetUserById(id: int): (r: Option<User>)
      requires Valid()
      reads this
      ensures r.None? <==> id !in rows
      ensures r.Some? ==> r.value == rows[id] && r.value.id == id
    {
      if id in rows then Some(rows[id]) else None
    }

    /** `getUserByEmail`: null exactly when no row has that email; otherwise the one row that has it. */
    function GetUserByEmail(email: string): (r: Option<User>)
      requires Valid()
      reads this
      ensures r.None? <==> forall k :: k in rows ==> rows[k].email != email
      ensures r.Some? ==> r.value.id in rows && rows[r.value.id] == r.value && r.value.email == email
    {
      Tables.ScanContents(rows, nextId, UserId);
      var r := FirstWithEmail(Tables.Scan(rows, nextId), email);
      assert r.None? ==> forall k :: k in rows ==> rows[k].email != email by {
        if r.None? {
          forall k | k in rows ensures rows[k].email != email {
            assert rows[k] in Tables.Scan(rows, nextId);
          }
        }
      }
      r
    }

    /**
     * `updateUser`: overwrites name, email and password of row `userId` and
     * never its role; no row with that id means nothing happens. A field the
     * patch lacks is bound as NULL and fails its NOT NULL constraint (name,
     * then email, then password), an email held by another row fails the
     * UNIQUE constraint; on failure nothing changes.
     */
    method UpdateUser(userId: int, patch: UserPatch) returns (o: Outcome)
      requires Valid()
      modifies this
      ensures Valid()
      ensures nextId == old(nextId)
      ensures userId !in old(rows) ==> o == Pass && rows == old(rows)
      ensures userId in old(rows) ==>
        o == (if patch.name.None? then Fail(NameMissing)
              else if patch.email.None? then Fail(EmailMissing)
              else if patch.password.None? then Fail(PasswordMissing)
              else if EmailHeldByOther(old(rows), patch.email.value, userId) then Fail(EmailTaken)
              else Pass)
      ensures o.Fail? ==> rows == old(rows)
      ensures o.Pass? && userId in old(rows) ==>
        rows == old(rows)[userId := old(rows)[userId].(name := patch.name.value, email := patch.email.value,
                                                       password := patch.password.value)]
    {
      if userId !in rows {
        return Pass;
      }
      if patch.name.None? {
        return Fail(NameMissing);
      }
      if patch.email.None? {
        return Fail(EmailMissing);
      }
      if patch.password.None? {
        return Fail(PasswordMissing);
      }
      if exists k :: k in rows && k != userId && rows[k].email == patch.email.value {
        return Fail(EmailTaken);
      }
      rows := rows[userId := rows[userId].(name := patch.name.value, email := patch.email.value,
                                           password := patch.password.value)];
      o := Pass;
    }

    /**
     * `searchUsers`' query builder: pushes one condition and one parameter
     * per non-empty filter, role first, then name, then email, and joins the
     * conditions with " AND " after "WHERE ".
     */
    method SearchUsers(filters: SearchFilters) returns (whereClause: string, params: seq<string>)
      ensures whereClause == WhereClause(Criteria(filters))
      ensures params == Params(Criteria(filters))
    {
      var conditions: seq<string> := [];
      params := [];
      ghost var used: seq<Criterion> := [];
      if filters.role.Some? && filters.role.value != "" {
        conditions := conditions + ["role = ?"];
        params := params + [filters.role.value];
        used := used + [RoleIs(filters.role.value)];
      }
      if filters.name.Some? && filters.name.value != "" {
        conditions := conditions + ["name LIKE ?"];
        params := params + ["%" + filters.name.value + "%"];
        used := used + [NameLike(filters.name.value)];
      }
      if filters.email.Some? && filters.email.value != "" {
        conditions := conditions + ["email LIKE ?"];
        params := params + ["%" + filters.email.value + "%"];
        used := used + [EmailLike(filters.email.value)];
      }
      assert used == Criteria(filters);
      assert conditions == Conditions(used);
      whereClause := if |conditions| > 0 then "WHERE " + Text.Join(conditions, " AND ") else "";
    }
  }
}
