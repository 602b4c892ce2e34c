/**
 * src/users/users.service.ts: the user search (`findMatchingUserWithoutCurrentUser`),
 * which ranks users by username with the cursor scheme of the chat queries,
 * the profile lookup, and the profile update with its error mapping.
 */
module UsersService {
  import opened Wrappers
  import opened Ids
  import opened Responses
  import opened Paging
  import opened Tables
  import opened ChatDomain

  // ---------------------------------------------------------------------------
  // The `users` table

  /** Rows are keyed by their id and the `username` column is unique. */
  ghost predicate UsersValid(users: map<UserId, User>)
  {
    && (forall id :: id in users ==> users[id].id == id)
    && UniqueUsernames(users)
  }

  ghost predicate UniqueUsernames(users: map<UserId, User>)
  {
    forall a, b :: a in users && b in users && users[a].username == users[b].username ==> a == b
  }

  // ---------------------------------------------------------------------------
  // User search

  /**
   * users_sorted: every user but the caller whose username contains the query,
   * ignoring case (no query: no filter), ranked by `username ASC`.
   */
  function SearchEntry(currentUserId: UserId, usernameQuery: Option<string>): (UserId, User) -> Option<(SortKey, User)>
  {
    (k: UserId, u: User) =>
      if k != currentUserId && (usernameQuery.None? || ContainsIgnoringCase(u.username, usernameQuery.value))
      then Some((SortKey(0, u.username), u))
      else None
  }

  function SearchFrom(users: map<UserId, User>, keys: seq<UserId>, currentUserId: UserId, usernameQuery: Option<string>): seq<Row<User>>
    requires forall i :: 0 <= i < |keys| ==> keys[i] in users
  {
    Ordered(users, keys, SearchEntry(currentUserId, usernameQuery))
  }

  /** The ranked search result, independent of any particular scan. */
  ghost function Search(users: map<UserId, User>, currentUserId: UserId, usernameQuery: Option<string>): seq<Row<User>>
  {
    SearchFrom(users, Listing(users), currentUserId, usernameQuery)
  }

  /** The username is the whole sort key, so a unique username gives a unique rank. */
  lemma UniqueUsernamesRankDistinct(users: map<UserId, User>, currentUserId: UserId, usernameQuery: Option<string>)
    requires UniqueUsernames(users)
    ensures KeysDistinct(users, SearchEntry(currentUserId, usernameQuery))
  {
    var f := SearchEntry(currentUserId, usernameQuery);
    forall a, b | a in users && b in users && a != b && f(a, users[a]).Some? && f(b, users[b]).Some?
      ensures f(a, users[a]).value.0 != f(b, users[b]).value.0
    {
      assert f(a, users[a]).value.0.tie == users[a].username;
      assert f(b, users[b]).value.0.tie == users[b].username;
    }
  }

  /** A row of the search: a user other than the caller, matching the query, ranked by username. */
  ghost predicate SearchRow(users: map<UserId, User>, currentUserId: UserId, usernameQuery: Option<string>, r: Row<User>)
  {
    && r.id in users
    && r.id != currentUserId
    && (usernameQuery.None? || ContainsIgnoringCase(users[r.id].username, usernameQuery.value))
    && r.item == users[r.id]
    && r.key == SortKey(0, users[r.id].username)
  }

  /**
   * Whatever order the table is scanned in, the search holds exactly the
   * users other than the caller that match the query, each once, in rank order.
   */
  lemma SearchIsTheMatches(users: map<UserId, User>, keys: seq<UserId>, currentUserId: UserId, usernameQuery: Option<string>)
    requires Lists(keys, users) && UniqueUsernames(users)
    ensures SearchFrom(users, keys, currentUserId, usernameQuery) == Search(users, currentUserId, usernameQuery)
    ensures Sorted(Search(users, currentUserId, usernameQuery)) && DistinctIds(Search(users, currentUserId, usernameQuery))
    ensures forall r :: r in Search(users, currentUserId, usernameQuery) <==> SearchRow(users, currentUserId, usernameQuery, r)
  {
    UniqueUsernamesRankDistinct(users, currentUserId, usernameQuery);
    OrderedIgnoresStorageOrder(users, keys, Listing(users), SearchEntry(currentUserId, usernameQuery));
  }

  /** Position by position: each result is a stored user other than the caller that matches, in strictly ascending username order. */
  lemma SearchAscending(users: map<UserId, User>, currentUserId: UserId, usernameQuery: Option<string>)
    requires UsersValid(users)
    ensures var s := Search(users, currentUserId, usernameQuery);
      && (forall i :: 0 <= i < |s| ==>
            && s[i].id == s[i].item.id
            && s[i].id in users && users[s[i].id] == s[i].item
            && s[i].id != currentUserId
            && (usernameQuery.None? || ContainsIgnoringCase(s[i].item.username, usernameQuery.value)))
      && (forall i, j :: 0 <= i < j < |s| ==> LexLess(s[i].item.username, s[j].item.username))
  {
    var s := Search(users, currentUserId, usernameQuery);
    SearchIsTheMatches(users, Listing(users), currentUserId, usernameQuery);
    forall i | 0 <= i < |s| ensures SearchRow(users, currentUserId, usernameQuery, s[i]) {
      assert s[i] in s;
    }
    forall i, j | 0 <= i < j < |s| ensures LexLess(s[i].item.username, s[j].item.username) {
      assert SearchRow(users, currentUserId, usernameQuery, s[i]) && SearchRow(users, currentUserId, usernameQuery, s[j]);
      assert KeyBefore(s[i].key, s[j].key);
    }
  }

  /** The page and meta the service returns for a request. */
  ghost function SearchPage(users: map<UserId, User>, currentUserId: UserId, usernameQuery: Option<string>, q: CursorQuery): (seq<User>, CursorMeta)
  {
    var p := PageOf(Search(users, currentUserId, usernameQuery), q.cursor, q.limit);
    (Items(p.rows), CursorMeta(q.cursor, q.limit, p.nextCursor))
  }

  /**
   * A page never holds the caller and holds only stored users matching the
   * query, at most `limit` of them; the meta echoes the request's cursor and
   * limit, and a `nextCursor` names another such user.
   */
  lemma SearchPageMembers(users: map<UserId, User>, currentUserId: UserId, usernameQuery: Option<string>, q: CursorQuery)
    requires UsersValid(users)
    ensures var (found, meta) := SearchPage(users, currentUserId, usernameQuery, q);
      && |found| <= q.limit
      && meta.cursor == q.cursor && meta.limit == q.limit
      && (forall i :: 0 <= i < |found| ==>
            && found[i].id != currentUserId
            && found[i].id in users && users[found[i].id] == found[i]
            && (usernameQuery.None? || ContainsIgnoringCase(found[i].username, usernameQuery.value)))
      && (meta.nextCursor.Some? ==>
            && meta.nextCursor.value in users
            && meta.nextCursor.value != currentUserId
            && (usernameQuery.None? || ContainsIgnoringCase(users[meta.nextCursor.value].username, usernameQuery.value)))
  {
    var s := Search(users, currentUserId, usernameQuery);
    SearchAscending(users, currentUserId, usernameQuery);
    PageRows(s, q.cursor, q.limit);
  }

  /** A page is in ascending username order, and every user on it sorts before the one `nextCursor` names. */
  lemma SearchPageOrder(users: map<UserId, User>, currentUserId: UserId, usernameQuery: Option<string>, q: CursorQuery)
    requires UsersValid(users)
    ensures var (found, meta) := SearchPage(users, currentUserId, usernameQuery, q);
      && (forall i, j :: 0 <= i < j < |found| ==> LexLess(found[i].username, found[j].username))
      && (meta.nextCursor.Some? ==>
            && meta.nextCursor.value in users
            && forall i :: 0 <= i < |found| ==> LexLess(found[i].username, users[meta.nextCursor.value].username))
  {
    var s := Search(users, currentUserId, usernameQuery);
    SearchAscending(users, currentUserId, usernameQuery);
    PageRows(s, q.cursor, q.limit);
  }

  // ---------------------------------------------------------------------------
  // Profile update

  /** `avatarUrl` is optional: left out of the body, sent as null, or a string. */
  datatype AvatarField = Undefined | Null | Url(url: string)

  /** UpdateProfileDataRequestDto, once the validation pipe has accepted it. */
  datatype ProfileUpdate = ProfileUpdate(username: string, name: string, about: string, avatarUrl: AvatarField)

  /** The object handed to `save`, which `save` returns as the updated user. */
  datatype SavedProfile = SavedProfile(id: UserId, username: string, name: string, about: string, avatarUrl: AvatarField)

  /** SQLSTATE codes the save can fail with. */
  const UniqueViolation := "23505"
  const NotNullViolation := "23502"
  const StringDataRightTruncation := "22001"

  /** `avatar_url` is `varchar(255)`. */
  const AvatarUrlMaxLength := 255

  predicate AvatarTooLong(avatarUrl: AvatarField)
  {
    avatarUrl.Url? && |avatarUrl.url| > AvatarUrlMaxLength
  }

  /** Another row already holds the username. */
  predicate UsernameTaken(users: map<UserId, User>, userId: UserId, username: string)
  {
    exists k :: k in users && k != userId && users[k].username == username
  }

  /** The row after the save: the given columns overwritten, an undefined `avatarUrl` left as it was. */
  function Merged(u: User, data: ProfileUpdate): User
  {
    u.(username := data.username, name := data.name, about := Some(data.about),
       avatarUrl := match data.avatarUrl
         case Undefined => u.avatarUrl
         case Null => None
         case Url(url) => Some(url))
  }

  /**
   * `save({ id, username, name, about, avatarUrl })`: an update of the row
   * with that id, or, when there is none, an insert that lacks the required
   * `password` column. The value too long for its column is rejected first,
   * then the missing password, then the duplicate username.
   */
  function Save(users: map<UserId, User>, userId: UserId, data: ProfileUpdate): Result<map<UserId, User>, string>
  {
    if AvatarTooLong(data.avatarUrl) then Failure(StringDataRightTruncation)
    else if userId !in users then Failure(NotNullViolation)
    else if UsernameTaken(users, userId, data.username) then Failure(UniqueViolation)
    else Success(users[userId := Merged(users[userId], data)])
  }

  /**
   * The save succeeds exactly when the user exists, the avatar URL fits and no
   * other user has the username; it then changes that user's row alone, keeps
   * the table valid, and fails with a unique violation exactly on a username
   * held by someone else.
   */
  lemma SaveOutcome(users: map<UserId, User>, userId: UserId, data: ProfileUpdate)
    requires UsersValid(users)
    ensures Save(users, userId, data).Success? <==>
      userId in users && !AvatarTooLong(data.avatarUrl) && !UsernameTaken(users, userId, data.username)
    ensures Save(users, userId, data) == Failure(UniqueViolation) <==>
      userId in users && !AvatarTooLong(data.avatarUrl) && UsernameTaken(users, userId, data.username)
    ensures Save(users, userId, data).Success? ==>
      var after := Save(users, userId, data).value;
      && UsersValid(after)
      && after.Keys == users.Keys
      && (forall k :: k in users && k != userId ==> after[k] == users[k])
      && after[userId].id == userId
      && after[userId].username == data.username
      && after[userId].name == data.name
      && after[userId].about == Some(data.about)
      && (data.avatarUrl.Undefined? ==> after[userId].avatarUrl == users[userId].avatarUrl)
      && (data.avatarUrl.Null? ==> after[userId].avatarUrl.None?)
      && (data.avatarUrl.Url? ==> after[userId].avatarUrl == Some(data.avatarUrl.url))
  {
    if Save(users, userId, data).Success? {
      var after := Save(users, userId, data).value;
      forall a, b | a in after && b in after && after[a].username == after[b].username
        ensures a == b
      {
        if a != b && (a == userId || b == userId) {
          assert false;
        }
      }
    }
  }

  /** The catch block: a unique violation becomes a field error on `username`, anything else a server error. */
  function UpdateError(code: string): (e: Exception)
    ensures e.BadRequest? <==> code == UniqueViolation
    ensures e.BadRequest? ==>
      e.response.message == "Username already exists" && e.response.errorFields == Some([ErrorField("username", "Username already exists")])
    ensures !e.BadRequest? ==> e == InternalServerError(CreateErrorResponse("Failed to update profile data"))
  {
    if code == UniqueViolation then
      BadRequest(CreateErrorResponse("Username already exists", Some([ErrorField("username", "Username already exists")])))
    else
      InternalServerError(CreateErrorResponse("Failed to update profile data"))
  }

  /** The service over the `users` table. */
  class UsersService {
    var users: map<UserId, User>

    ghost predicate Valid()
      reads this
    {
      UsersValid(users)
    }

    constructor(users: map<UserId, User>)
      requires UsersValid(users)
      ensures this.users == users && Valid()
    {
      this.users := users;
    }

    /** findMatchingUserWithoutCurrentUser: one page of the search and its meta. */
    method FindMatchingUserWithoutCurrentUser(usernameQuery: Option<string>, currentUserId: UserId, pagination: CursorQuery)
      returns (found: seq<User>, meta: CursorMeta)
      requires Valid()
      ensures (found, meta) == SearchPage(users, currentUserId, usernameQuery, pagination)
    {
      var keys := Scan(users);
      var sorted := SearchFrom(users, keys, currentUserId, usernameQuery);
      SearchIsTheMatches(users, keys, currentUserId, usernameQuery);
      var page, nextCursor := Paginate(sorted, pagination.cursor, pagination.limit);
      found := Items(page);
      meta := CursorMeta(pagination.cursor, pagination.limit, nextCursor);
    }

    /** getProfileData: the user with that id, or BadRequest "User not found". */
    method GetProfileData(userId: UserId) returns (r: Result<User, Exception>)
      ensures r.Success? <==> userId in users
      ensures r.Success? ==> r.value == users[userId]
      ensures r.Failure? ==> r.error == BadRequest(CreateErrorResponse("User not found"))
    {
      if userId !in users {
        return Failure(BadRequest(CreateErrorResponse("User not found")));
      }
      return Success(users[userId]);
    }

    /** updateProfileData: the save, returning the saved object, or the mapped error with the table unchanged. */
    method UpdateProfileData(userId: UserId, data: ProfileUpdate) returns (r: Result<SavedProfile, Exception>)
      requires Valid()
      modifies this
      ensures Valid()
      ensures Save(old(users), userId, data).Success? ==>
        users == Save(old(users), userId, data).value
        && r == Success(SavedProfile(userId, data.username, data.name, data.about, data.avatarUrl))
      ensures Save(old(users), userId, data).Failure? ==>
        users == old(users) && r == Failure(UpdateError(Save(old(users), userId, data).error))
    {
      SaveOutcome(users, userId, data);
      var saved := Save(users, userId, data);
      match saved
      case Success(after) =>
        users := after;
        r := Success(SavedProfile(userId, data.username, data.name, data.about, data.avatarUrl));
      case Failure(code) =>
        r := Failure(UpdateError(code));
    }
  }
}
