/**
 * The NextAuth callbacks of src/lib/auth.ts that decide something: where a
 * sign-in is sent, the onboarding link for an unknown email, the fields
 * written back for a known user, and how the JWT and the session pick up the
 * stored role and organization. Database lookups are parameters and
 * `encodeURIComponent` is the abstract function `enc`.
 */
module Auth {
  import opened Wrappers
  import opened JsString

  // ---------------------------------------------------------------------
  // redirect

  /** `redirect({ url, baseUrl })`. */
  function Redirect(url: string, baseUrl: string): string {
    if StartsWith(url, "/onboarding") then url
    else if url == baseUrl then baseUrl + "/dashboard"
    else if StartsWith(url, baseUrl) then url
    else baseUrl
  }

  /** The three exits of the callback, and that everything else collapses to `baseUrl`. */
  lemma RedirectCases(url: string, baseUrl: string)
    ensures StartsWith(url, "/onboarding") ==> Redirect(url, baseUrl) == url
    ensures !StartsWith(url, "/onboarding") && url == baseUrl ==> Redirect(url, baseUrl) == baseUrl + "/dashboard"
    ensures !StartsWith(url, "/onboarding") && url != baseUrl && StartsWith(url, baseUrl) ==> Redirect(url, baseUrl) == url
    ensures !StartsWith(url, "/onboarding") && !StartsWith(url, baseUrl) ==> Redirect(url, baseUrl) == baseUrl
  {
  }

  /** Unless the target is an onboarding path, the result starts with
      `baseUrl`. The test is on text, not on the origin: see
      `RedirectPrefixBypass`. */
  lemma RedirectStaysOnSite(url: string, baseUrl: string)
    ensures !StartsWith(url, "/onboarding") ==> StartsWith(Redirect(url, baseUrl), baseUrl)
  {
    var r := Redirect(url, baseUrl);
    if !StartsWith(url, "/onboarding") {
      if url == baseUrl {
        assert r[..|baseUrl|] == baseUrl;
      } else if !StartsWith(url, baseUrl) {
        assert r == baseUrl;
      }
    }
  }

  /** Any text that extends `baseUrl` passes, even when it names another
      host: `https://a.com.evil.org/` and `https://a.com@evil.org/` both
      extend `https://a.com`. */
  lemma RedirectPrefixBypass(baseUrl: string, rest: string)
    requires !StartsWith(baseUrl + rest, "/onboarding")
    ensures Redirect(baseUrl + rest, baseUrl) ==
            if rest == [] then baseUrl + "/dashboard" else baseUrl + rest
  {
    assert (baseUrl + rest)[..|baseUrl|] == baseUrl;
    if rest != [] {
      assert |baseUrl + rest| != |baseUrl|;
    }
  }

  /** The two sample hosts above pass the redirect unchanged. */
  lemma RedirectToLookalikeHost(baseUrl: string, dotHost: string, atHost: string)
    requires baseUrl == "https://a.com"
    requires dotHost == "https://a.com.evil.org/" && atHost == "https://a.com@evil.org/"
    ensures Redirect(dotHost, baseUrl) == dotHost && Redirect(atHost, baseUrl) == atHost
  {
    assert dotHost == baseUrl + ".evil.org/";
    assert atHost == baseUrl + "@evil.org/";
    assert dotHost[0] != '/' && atHost[0] != '/';
    RedirectPrefixBypass(baseUrl, ".evil.org/");
    RedirectPrefixBypass(baseUrl, "@evil.org/");
  }

  // ---------------------------------------------------------------------
  // signIn

  /** The user as the identity provider reports it. */
  datatype ProviderUser = ProviderUser(email: string, name: Option<string>, image: Option<string>)

  /** The provider account of the sign-in, when there is one. */
  datatype Account = Account(provider: string, providerAccountId: string)

  /** The stored user found by email. */
  datatype StoredUser = StoredUser(id: string, name: Option<string>)

  /** The fields `signIn` writes back to a known user. */
  datatype UserUpdate = UserUpdate(
    provider: Option<string>, providerId: Option<string>, image: Option<string>, name: Option<string>)

  /** `signIn` either sends an unknown user to onboarding or lets a known one in
      after writing `update` to the row with id `userId`. */
  datatype SignInOutcome = SendTo(url: string) | Allow(userId: string, update: UserUpdate)

  /** JavaScript truthiness of an optional string: present and non-empty. */
  predicate Truthy(s: Option<string>) {
    s.Some? && s.value != []
  }

  /** `user.name || existingUser.name`. */
  function MergedName(providerName: Option<string>, storedName: Option<string>): Option<string> {
    if Truthy(providerName) then providerName else storedName
  }

  /** The provider name wins unless it is missing or empty; then the stored name stays. */
  lemma MergedNameRule(providerName: Option<string>, storedName: Option<string>)
    ensures providerName.None? || providerName == Some([]) ==> MergedName(providerName, storedName) == storedName
    ensures providerName.Some? && providerName.value != [] ==> MergedName(providerName, storedName) == providerName
  {
  }

  /** The link an unknown email is sent to. */
  function OnboardingUrl(email: string, name: Option<string>, enc: string -> string): string {
    "/onboarding?email=" + enc(email) + "&name=" + enc(if Truthy(name) then name.value else "")
  }

  /** `signIn({ user, account })`; `existing` is the stored user with that email. */
  function SignIn(user: ProviderUser, account: Option<Account>, existing: Option<StoredUser>,
                  enc: string -> string): SignInOutcome
  {
    if existing.None? then SendTo(OnboardingUrl(user.email, user.name, enc))
    else
      Allow(existing.value.id, UserUpdate(
        if account.Some? then Some(account.value.provider) else None,
        if account.Some? then Some(account.value.providerAccountId) else None,
        user.image,
        MergedName(user.name, existing.value.name)))
  }

  /** An unknown user is sent to the onboarding link, and `redirect` lets that
      link through unchanged whatever the base URL. */
  lemma NewUserReachesOnboarding(user: ProviderUser, account: Option<Account>, enc: string -> string, baseUrl: string)
    ensures SignIn(user, account, None, enc) == SendTo(OnboardingUrl(user.email, user.name, enc))
    ensures StartsWith(OnboardingUrl(user.email, user.name, enc), "/onboarding")
    ensures Redirect(OnboardingUrl(user.email, user.name, enc), baseUrl) == OnboardingUrl(user.email, user.name, enc)
  {
    var url := OnboardingUrl(user.email, user.name, enc);
    assert url[..|"/onboarding"|] == "/onboarding";
  }

  /** A known user is let in, and the name written back follows the merge rule. */
  lemma KnownUserUpdate(user: ProviderUser, account: Option<Account>, stored: StoredUser, enc: string -> string)
    ensures SignIn(user, account, Some(stored), enc).Allow?
    ensures SignIn(user, account, Some(stored), enc).userId == stored.id
    ensures SignIn(user, account, Some(stored), enc).update.image == user.image
    ensures !Truthy(user.name) ==> SignIn(user, account, Some(stored), enc).update.name == stored.name
    ensures Truthy(user.name) ==> SignIn(user, account, Some(stored), enc).update.name == user.name
  {
  }

  // ---------------------------------------------------------------------
  // jwt and session

  /** The organization fields the JWT query selects. */
  datatype OrgSummary = OrgSummary(id: string, name: string, slug: string, plan: string, status: string)

  /** The stored user the JWT callback looks up by email. */
  datatype DbUser = DbUser(role: string, organizationId: Option<string>, organization: Option<OrgSummary>)

  /** A token: the claims NextAuth manages (`claims`) and the three this
      application adds. An unset claim and a `null` one are both `None`. */
  datatype Token = Token(
    claims: map<string, string>,
    role: Option<string>, organizationId: Option<string>, organization: Option<OrgSummary>)

  /** `jwt({ token, user })`; `findUser` is the lookup by email. */
  function Jwt(token: Token, user: Option<ProviderUser>, findUser: string -> Option<DbUser>): (t: Token)
    ensures t.claims == token.claims
  {
    if user.None? then token
    else
      var dbUser := findUser(user.value.email);
      if dbUser.None? then token
      else token.(role := Some(dbUser.value.role),
                  organizationId := dbUser.value.organizationId,
                  organization := dbUser.value.organization)
  }

  /** The token changes only on a sign-in whose email has a stored user, and
      then takes that user's role and organization. */
  lemma JwtMerge(token: Token, user: Option<ProviderUser>, findUser: string -> Option<DbUser>)
    ensures user.None? ==> Jwt(token, user, findUser) == token
    ensures user.Some? && findUser(user.value.email).None? ==> Jwt(token, user, findUser) == token
    ensures user.Some? && findUser(user.value.email).Some? ==>
      var d := findUser(user.value.email).value;
      Jwt(token, user, findUser) ==
        Token(token.claims, Some(d.role), d.organizationId, d.organization)
  {
  }

  /** Running the callback again on the token it produced yields the same token. */
  lemma JwtIdempotent(token: Token, user: Option<ProviderUser>, findUser: string -> Option<DbUser>)
    ensures Jwt(Jwt(token, user, findUser), user, findUser) == Jwt(token, user, findUser)
  {
  }

  datatype SessionUser = SessionUser(
    name: Option<string>, email: Option<string>, image: Option<string>,
    role: Option<string>, organizationId: Option<string>, organization: Option<OrgSummary>)

  datatype Session = Session(expires: string, user: SessionUser)

  /** `session({ session, token })`: the session with its user's three
      application fields copied from the token. */
  function SessionOf(session: Session, token: Token): (s: Session)
    ensures s.expires == session.expires
    ensures s.user.name == session.user.name && s.user.email == session.user.email
    ensures s.user.image == session.user.image
    ensures s.user.role == token.role && s.user.organizationId == token.organizationId
    ensures s.user.organization == token.organization
  {
    session.(user := session.user.(role := token.role,
                                   organizationId := token.organizationId,
                                   organization := token.organization))
  }

  /** After a sign-in whose email has a stored user, the session carries that
      user's role and organization. */
  lemma SessionAfterSignIn(session: Session, token: Token, user: ProviderUser, findUser: string -> Option<DbUser>)
    requires findUser(user.email).Some?
    ensures var s := SessionOf(session, Jwt(token, Some(user), findUser));
            var d := findUser(user.email).value;
            s.user.role == Some(d.role) && s.user.organizationId == d.organizationId &&
            s.user.organization == d.organization
  {
  }
}
