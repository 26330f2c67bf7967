/**
 * `oauth` (server/src/handlers/auth/oauth.ts): resolve an authorization code
 * to a provider profile, then upsert the local user keyed by the profile's
 * provider id.
 */
module OAuthHandler {
  import opened Wrappers
  import opened Errors
  import opened Schema
  import opened Tables

  /** What a provider reports about the person who signed in. */
  datatype Profile = Profile(user_id: string, email: string, name: string, avatar_url: string)

  const GoogleProfile := Profile("google_123456789", "user@gmail.com", "Google User",
                                 "https://lh3.googleusercontent.com/a/default-user")

  const GitHubProfile := Profile("github_987654321", "user@github.com", "GitHub User",
                                 "https://avatars.githubusercontent.com/u/123456?v=4")

  /** `mockOAuthData`: the fixed profile each supported provider reports. */
  const MockOAuthData: map<string, Profile> := map["google" := GoogleProfile, "github" := GitHubProfile]

  /**
   * The code "invalid_code" is refused before the provider is looked at;
   * a provider missing from the table is unsupported; any other code gives
   * that provider's fixed profile.
   */
  function FetchOAuthUserData(provider: string, code: string): (r: Result<Profile, Error>)
    ensures code == "invalid_code" ==> r == Err(InvalidAuthorizationCode)
    ensures code != "invalid_code" && provider != "google" && provider != "github" ==>
      r == Err(UnsupportedProvider(provider))
    ensures r.Ok? <==> code != "invalid_code" && (provider == "google" || provider == "github")
    ensures r.Ok? && provider == "google" ==> r.value == GoogleProfile
    ensures r.Ok? && provider == "github" ==> r.value == GitHubProfile
  {
    if code == "invalid_code" then Err(InvalidAuthorizationCode)
    else if provider !in MockOAuthData then Err(UnsupportedProvider(provider))
    else Ok(MockOAuthData[provider])
  }

  /** Is some user linked to the provider id `pid`? */
  predicate LinkedTo(users: map<UserId, User>, pid: string)
  {
    exists k | k in users :: users[k].provider_id == Some(pid)
  }

  /** The update of a returning user: fresh name and avatar, `updated_at` is now, the rest kept. */
  function Refreshed(u: User, p: Profile, now: Time): (v: User)
    ensures v.id == u.id && v.email == u.email && v.created_at == u.created_at
    ensures v.password_hash == u.password_hash && v.provider == u.provider && v.provider_id == u.provider_id
    ensures v.name == Some(p.name) && v.avatar_url == Some(p.avatar_url) && v.updated_at == now
  {
    u.(name := Some(p.name), avatar_url := Some(p.avatar_url), updated_at := now)
  }

  /** The row a first sign-in inserts: the profile's data, no password hash. */
  function LinkedUser(id: UserId, provider: OAuthProvider, p: Profile, now: Time): (u: User)
    ensures u.id == id && u.email == p.email && u.name == Some(p.name) && u.avatar_url == Some(p.avatar_url)
    ensures u.provider == Some(ProviderName(provider)) && u.provider_id == Some(p.user_id)
    ensures u.password_hash == None && u.created_at == now && u.updated_at == now
  {
    InsertedUser(id, NewUser(p.email, Some(p.name), Some(p.avatar_url), None, Some(ProviderName(provider)), Some(p.user_id)), now)
  }

  /**
   * The upsert. If some user already carries the profile's provider id, that
   * user (the first the query returns, chosen here by `:|`) is refreshed and
   * nothing is added. Otherwise one user is inserted, which the unique
   * constraint refuses when another user already has the profile's email.
   */
  method OAuth(db: Store, input: OAuthInput, newId: UserId, now: Time) returns (r: Result<UserEnvelope, Error>)
    requires db.Valid() && newId !in db.users
    modifies db
    ensures db.Valid()
    ensures db.tasks == old(db.tasks)
    ensures input.code == "invalid_code" ==>
      r == Err(InvalidAuthorizationCode) && db.users == old(db.users)
    ensures input.code != "invalid_code" ==>
      var p := FetchOAuthUserData(ProviderName(input.provider), input.code).value;
      && (LinkedTo(old(db.users), p.user_id) ==>
            && r.Ok?
            && var id := r.value.user.id;
            && id in old(db.users)
            && old(db.users)[id].provider_id == Some(p.user_id)
            && db.users == old(db.users)[id := Refreshed(old(db.users)[id], p, now)]
            && r.value.user == ToAuthUser(db.users[id]))
      && (!LinkedTo(old(db.users), p.user_id) && EmailTaken(old(db.users), p.email) ==>
            r == Err(UniqueViolation) && db.users == old(db.users))
      && (!LinkedTo(old(db.users), p.user_id) && !EmailTaken(old(db.users), p.email) ==>
            && db.users == old(db.users)[newId := LinkedUser(newId, input.provider, p, now)]
            && r == Ok(UserEnvelope(ToAuthUser(db.users[newId]))))
    ensures ProviderIdsUnique(old(db.users)) ==> ProviderIdsUnique(db.users)
  {
    var fetched := FetchOAuthUserData(ProviderName(input.provider), input.code);
    if fetched.Err? {
      return Err(fetched.error);
    }
    var p := fetched.value;
    if LinkedTo(db.users, p.user_id) {
      var k :| k in db.users && db.users[k].provider_id == Some(p.user_id);
      var user := db.users[k];
      var updated := Refreshed(user, p, now);
      UpdateUserValid(db.users, user.id, updated);
      db.users := db.users[user.id := updated];
      r := Ok(UserEnvelope(ToAuthUser(updated)));
    } else {
      var row := LinkedUser(newId, input.provider, p, now);
      InsertUserValid(db.users, row);
      if EmailTaken(db.users, p.email) {
        return Err(UniqueViolation);
      }
      db.users := db.users[newId := row];
      r := Ok(UserEnvelope(ToAuthUser(row)));
    }
  }
}
