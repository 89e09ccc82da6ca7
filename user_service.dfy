/**
 * User accounts (src/app/user/user.service.ts): password hashing on the way
 * in, login by email and password, paging of searches and deletion. bcrypt
 * and jsonwebtoken are supplied by the caller as functions whose workings
 * the model does not look into.
 */
module UserAccounts {
  import opened Common
  import opened Users
  import AuthMiddleware

  /** `bcrypt.hash(password, saltRounds)`. */
  type Hasher = (string, int) -> string
  /** `bcrypt.compare(password, hash)`. */
  type Comparer = (string, string) -> bool
  /** `jwt.sign(payload, secret, {expiresIn})`. */
  type Signer = (AuthMiddleware.Claims, string, string) -> string

  const SaltRounds := 10
  const TokenLifetime := "1h"
  const UserNotFound := "User not found"

  /** What the service hands to the paged search: the filters, the page size, the offset and the sort key. */
  datatype PageRequest = PageRequest(filters: SearchFilters, limit: int, offset: int, sort: string)

  /** The request for page `page` of size `limit`: the page is 1-based, so it skips `(page - 1) * limit` rows. */
  function Paginate(filters: SearchFilters, page: int, limit: int, sort: string): (p: PageRequest)
    ensures p.filters == filters && p.limit == limit && p.sort == sort
  {
    PageRequest(filters, limit, (page - 1) * limit, sort)
  }

  /** The first page starts at the first row, and each page starts where the previous one ends. */
  lemma PagesAreConsecutive(filters: SearchFilters, page: int, limit: int, sort: string)
    ensures Paginate(filters, 1, limit, sort).offset == 0
    ensures Paginate(filters, page + 1, limit, sort).offset == Paginate(filters, page, limit, sort).offset + limit
  {
  }

  /**
   * With a positive page size, two different pages cover disjoint ranges of
   * rows: no row is shown on two pages.
   */
  lemma PagesDoNotOverlap(filters: SearchFilters, p1: int, p2: int, limit: int, sort: string, row: int)
    requires limit > 0 && p1 != p2
    ensures var a, b := Paginate(filters, p1, limit, sort), Paginate(filters, p2, limit, sort);
            !(a.offset <= row < a.offset + limit && b.offset <= row < b.offset + limit)
  {
    var a, b := Paginate(filters, p1, limit, sort), Paginate(filters, p2, limit, sort);
    if p1 < p2 {
      Gap(p1 - 1, p2 - 1, limit);
    } else {
      Gap(p2 - 1, p1 - 1, limit);
    }
  }

  /** Page starts `i * limit` and `j * limit` with `i < j` are at least a page apart. */
  lemma {:induction false} Gap(i: int, j: int, limit: int)
    requires i < j && limit > 0
    ensures i * limit + limit <= j * limit
    decreases j - i
  {
    if j == i + 1 {
      assert j * limit == i * limit + limit;
    } else {
      Gap(i, j - 1, limit);
      assert j * limit == (j - 1) * limit + limit;
    }
  }

  /**
   * The token `authenticateUser` hands out, sent back as `Bearer <token>`,
   * passes `authenticateToken` as the user it was issued for — provided the
   * verifier accepts what the signer produced with the shared secret and a
   * signed token is a single non-empty word.
   */
  lemma IssuedTokenAuthenticates(user: User, sign: Signer, verify: AuthMiddleware.Verifier)
    requires var token := sign(AuthMiddleware.Claims(user.id, user.role), AuthMiddleware.Secret, TokenLifetime);
             && token != "" && ' ' !in token
             && verify(token, AuthMiddleware.Secret) == Some(AuthMiddleware.Claims(user.id, user.role))
    ensures AuthMiddleware.Authenticate(
              Some("Bearer " + sign(AuthMiddleware.Claims(user.id, user.role), AuthMiddleware.Secret, TokenLifetime)),
              verify)
            == AuthMiddleware.Authenticated(AuthMiddleware.Claims(user.id, user.role))
  {
    var token := sign(AuthMiddleware.Claims(user.id, user.role), AuthMiddleware.Secret, TokenLifetime);
    AuthMiddleware.TokenIsSecondWord("Bearer", token, "");
    assert "Bearer" + " " + token + "" == "Bearer " + token;
  }

  class UserService {
    const repo: UserRepository

    constructor (repo: UserRepository)
      ensures this.repo == repo
    {
      this.repo := repo;
    }

    /**
     * `createUser`: stores the user with `hash(password, 10)` in place of the
     * password, so the plain password is never stored; the store's
     * constraint errors pass through.
     */
    method CreateUser(u: UserInput, hash: Hasher) returns (r: Result<int>)
      requires repo.Valid()
      modifies repo
      ensures repo.Valid()
      ensures !ValidRole(u.role) ==> r == Err(RoleCheckFailed)
      ensures ValidRole(u.role) && EmailStored(old(repo.rows), u.email) ==> r == Err(EmailTaken)
      ensures r.Err? ==> repo.rows == old(repo.rows) && repo.nextId == old(repo.nextId)
      ensures r.Ok? <==> ValidRole(u.role) && !EmailStored(old(repo.rows), u.email)
      ensures r.Ok? ==>
                && r.value == old(repo.nextId) && r.value !in old(repo.rows)
                && repo.rows == old(repo.rows)[r.value := User(r.value, u.name, u.email, hash(u.password, SaltRounds), u.role)]
                && repo.nextId == old(repo.nextId) + 1
    {
      r := repo.CreateUser(u.(password := hash(u.password, SaltRounds)));
    }

    /**
     * `authenticateUser`: null when no user has the email or the password
     * does not match the stored hash; otherwise a token signed with the
     * shared secret, valid for one hour, whose payload is the user's id and
     * role.
     */
    function AuthenticateUser(email: string, password: string, compare: Comparer, sign: Signer): (token: Option<string>)
      requires repo.Valid()
      reads repo
      ensures token.Some? <==>
                exists k :: k in repo.rows && repo.rows[k].email == email && compare(password, repo.rows[k].password)
      ensures forall k :: k in repo.rows && repo.rows[k].email == email && compare(password, repo.rows[k].password)
                ==> token == Some(sign(AuthMiddleware.Claims(k, repo.rows[k].role), AuthMiddleware.Secret, TokenLifetime))
    {
      var user := repo.GetUserByEmail(email);
      if user.Some? && compare(password, user.value.password) then
        Some(sign(AuthMiddleware.Claims(user.value.id, user.value.role), AuthMiddleware.Secret, TokenLifetime))
      else
        None
    }

    /**
     * `updateUser`: replaces the patch's password by its hash in place when it
     * is present and non-empty, leaves the other fields as given, and hands
     * the patch to the store.
     */
    method UpdateUser(userId: int, patch: UserPatch, hash: Hasher) returns (o: Outcome)
      requires repo.Valid()
      modifies repo, patch
      ensures repo.Valid()
      ensures patch.password == (if Truthy(old(patch.password)) then Some(hash(old(patch.password).value, SaltRounds))
                                 else old(patch.password))
      ensures patch.name == old(patch.name) && patch.email == old(patch.email) && patch.role == old(patch.role)
      ensures repo.nextId == old(repo.nextId)
      ensures userId !in old(repo.rows) ==> o == Pass
      ensures o.Fail? || userId !in old(repo.rows) ==> repo.rows == old(repo.rows)
      ensures userId in old(repo.rows) ==>
        o == (if patch.name.None? then Fail(NameMissing)
              else if patch.email.None? then Fail(EmailMissing)
              else if patch.password.None? then Fail(PasswordMissing)
              else if EmailHeldByOther(old(repo.rows), patch.email.value, userId) then Fail(EmailTaken)
              else Pass)
      ensures o.Pass? && userId in old(repo.rows) ==>
                repo.rows == old(repo.rows)[userId := old(repo.rows)[userId].(
                  name := patch.name.value, email := patch.email.value, password := patch.password.value)]
    {
      if patch.password.Some? && patch.password.value != "" {
        patch.password := Some(hash(patch.password.value, SaltRounds));
      }
      o := repo.UpdateUser(userId, patch);
    }

    /** `getUserById`: forwards to the store. */
    function GetUserById(userId: int): (r: Option<User>)
      requires repo.Valid()
      reads repo
      ensures r.None? <==> userId !in repo.rows
      ensures r.Some? ==> r.value == repo.rows[userId]
    {
      repo.GetUserById(userId)
    }

    /** `getUserByEmail`: forwards to the store. */
    function GetUserByEmail(email: string): (r: Option<User>)
      requires repo.Valid()
      reads repo
      ensures r.None? <==> forall k :: k in repo.rows ==> repo.rows[k].email != email
      ensures r.Some? ==> r.value.email == email && r.value.id in repo.rows && repo.rows[r.value.id] == r.value
    {
      repo.GetUserByEmail(email)
    }

    /** `searchUsers`: the request handed to the paged search for page `page` of size `limit`. */
    function SearchUsers(filters: SearchFilters, page: int, limit: int, sort: string): (p: PageRequest)
      ensures p == Paginate(filters, page, limit, sort)
    {
      Paginate(filters, page, limit, sort)
    }

    /**
     * `deleteUser`: an unknown id fails with "User not found" and deletes
     * nothing; otherwise the row is removed (the store operation the source
     * calls is taken to delete the row by id) and every other row stays.
     */
    method DeleteUser(userId: int) returns (o: Outcome)
      requires repo.Valid()
      modifies repo
      ensures repo.Valid()
      ensures o == (if userId in old(repo.rows) then Pass else Fail(UserNotFound))
      ensures repo.rows == old(repo.rows) - {userId} && repo.nextId == old(repo.nextId)
    {
      var user := repo.GetUserById(userId);
      if user.None? {
        return Fail(UserNotFound);
      }
      repo.rows := repo.rows - {userId};
      o := Pass;
    }
  }
}
