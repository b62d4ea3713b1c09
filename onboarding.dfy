/**
 * The onboarding form (src/app/onboarding/page.tsx): its form state, the slug
 * it derives from the organization name, the two submit buttons' disabled
 * rules and the two submit handlers. The page's slug chain is the same as the
 * tenant base slug, so it is `Tenant.BaseSlug` here. The network request is
 * split into the part before the `await` (which builds the request and sets
 * `loading`) and the part after it (which receives the fetch outcome as a
 * parameter).
 */
module Onboarding {
  import opened Wrappers
  import opened JsString
  import opened Tenant

  /** Which of the two panels is shown. */
  datatype Step = StepOrganization | StepInvite

  datatype FormData = FormData(
    organizationName: string,
    slug: string,
    inviteCode: string,
    userEmail: string,
    userName: string)

  /** `searchParams.email || ''`: a missing or empty parameter gives `''`. */
  function ParamOrEmpty(p: Option<string>): (s: string)
    ensures p.Some? ==> s == p.value
    ensures s == "" <==> p.None? || p.value == ""
  {
    if p.Some? && p.value != "" then p.value else ""
  }

  /** The form as the page first renders it. */
  function InitialFormData(email: Option<string>, name: Option<string>): (f: FormData)
    ensures f.organizationName == "" && f.slug == "" && f.inviteCode == ""
    ensures f.userEmail == ParamOrEmpty(email) && f.userName == ParamOrEmpty(name)
  {
    FormData("", "", "", ParamOrEmpty(email), ParamOrEmpty(name))
  }

  /** `generateSlug(name)`: the form with the normalised slug of `name`. */
  function WithGeneratedSlug(f: FormData, name: string): (g: FormData)
    ensures g.slug == BaseSlug(name)
    ensures g.organizationName == f.organizationName && g.inviteCode == f.inviteCode
    ensures g.userEmail == f.userEmail && g.userName == f.userName
  {
    f.(slug := BaseSlug(name))
  }

  /** The organization-name field's change handler: store the value, then
      derive the slug from it. */
  function AfterNameEdit(f: FormData, value: string): (g: FormData)
    ensures g.organizationName == value && g.slug == BaseSlug(value)
    ensures g.inviteCode == f.inviteCode && g.userEmail == f.userEmail && g.userName == f.userName
  {
    WithGeneratedSlug(f.(organizationName := value), value)
  }

  /** The slug `generateSlug` stores is over `[a-z0-9-]`, holds no whitespace
      and no `--`, whatever the name typed. */
  lemma GeneratedSlugShape(f: FormData, name: string)
    ensures IsNormalSlug(WithGeneratedSlug(f, name).slug)
    ensures NoWhite(WithGeneratedSlug(f, name).slug)
    ensures IsNormalSlug(AfterNameEdit(f, name).slug)
  {
    BaseSlugShape(name);
  }

  /** The slug field's change handler: the raw input, not normalised. */
  function AfterSlugEdit(f: FormData, value: string): (g: FormData)
    ensures g.slug == value
    ensures g.(slug := f.slug) == f
  {
    f.(slug := value)
  }

  /** The invite-code field's change handler. */
  function AfterInviteEdit(f: FormData, value: string): (g: FormData)
    ensures g.inviteCode == value
    ensures g.(inviteCode := f.inviteCode) == f
  {
    f.(inviteCode := value)
  }

  /** `!formData.organizationName || !formData.slug || loading`. */
  predicate CreateDisabled(f: FormData, loading: bool) {
    f.organizationName == "" || f.slug == "" || loading
  }

  /** `!formData.inviteCode || loading`. */
  predicate JoinDisabled(f: FormData, loading: bool) {
    f.inviteCode == "" || loading
  }

  /** Each button is enabled exactly when its fields are filled in and no
      request is running. */
  lemma ButtonsEnabledIff(f: FormData, loading: bool)
    ensures !CreateDisabled(f, loading) <==> |f.organizationName| > 0 && |f.slug| > 0 && !loading
    ensures !JoinDisabled(f, loading) <==> |f.inviteCode| > 0 && !loading
  {
  }

  /** After typing an organization name, "Create Organization" is disabled
      exactly when a request is running or no character of the name, lower-cased,
      is a letter, digit, whitespace or `-` (so the derived slug is empty). */
  lemma {:induction false} CreateDisabledAfterNameEdit(f: FormData, value: string, loading: bool)
    ensures CreateDisabled(AfterNameEdit(f, value), loading) <==>
            loading || forall i :: 0 <= i < |value| ==> !KeptBySlugFilter(LowerChar(value[i]))
  {
    BaseSlugEmptyIff(value);
  }

  /** A typed name holding a letter or digit always yields a non-empty slug,
      so it never leaves "Create Organization" disabled when idle. */
  lemma NameWithAlnumEnablesCreate(f: FormData, value: string, i: nat)
    requires i < |value| && IsSlugAlnum(LowerChar(value[i]))
    ensures !CreateDisabled(AfterNameEdit(f, value), false)
  {
    CreateDisabledAfterNameEdit(f, value, false);
  }

  /** Editing the name again overwrites any slug typed by hand. */
  lemma NameEditOverridesSlug(f: FormData, slug: string, value: string)
    ensures AfterNameEdit(AfterSlugEdit(f, slug), value) == AfterNameEdit(f, value)
  {
  }

  /** A slug typed by hand is stored as typed, so it may break the slug rules
      that a derived slug always keeps. */
  lemma ManualSlugUnchecked(f: FormData)
    ensures AfterSlugEdit(f, "Acme Corp").slug == "Acme Corp"
    ensures !IsNormalSlug(AfterSlugEdit(f, "Acme Corp").slug)
  {
    assert !IsSlugChar("Acme Corp"[0]);
  }

  /** Deriving the slug twice from the same name is the same as once, and
      deriving it from the stored slug keeps it. */
  lemma GeneratedSlugStable(f: FormData, name: string)
    ensures WithGeneratedSlug(WithGeneratedSlug(f, name), name) == WithGeneratedSlug(f, name)
    ensures WithGeneratedSlug(WithGeneratedSlug(f, name), WithGeneratedSlug(f, name).slug) == WithGeneratedSlug(f, name)
  {
    BaseSlugIdempotent(name);
  }

  /** When the derived slug is free, the server's `generateSlug` for the same
      name returns it: the two chains agree. */
  lemma DerivedSlugMatchesServer(f: FormData, value: string, existing: set<string>)
    requires BaseSlug(value) !in existing
    ensures GenerateSlug(value, existing, 0) == AfterNameEdit(f, value).slug
  {
  }

  // ---------------------------------------------------------------------
  // Requests

  const CREATE_ENDPOINT: string := "/api/organizations"
  const JOIN_ENDPOINT: string := "/api/organizations/join"
  const DASHBOARD: string := "/dashboard"

  /** The JSON body of each POST. */
  datatype OrgRequest =
    | CreateOrganization(name: string, slug: string, userEmail: string, userName: string)
    | JoinOrganization(inviteCode: string, userEmail: string, userName: string)

  function Endpoint(r: OrgRequest): (path: string)
    ensures StartsWith(path, CREATE_ENDPOINT)
    ensures path == CREATE_ENDPOINT <==> r.CreateOrganization?
    ensures path == JOIN_ENDPOINT <==> r.JoinOrganization?
  {
    if r.CreateOrganization? then CREATE_ENDPOINT else JOIN_ENDPOINT
  }

  /** The body `handleCreateOrganization` sends. */
  function CreateRequest(f: FormData): (r: OrgRequest)
    ensures r.CreateOrganization?
    ensures r.name == f.organizationName && r.slug == f.slug
    ensures r.userEmail == f.userEmail && r.userName == f.userName
  {
    CreateOrganization(f.organizationName, f.slug, f.userEmail, f.userName)
  }

  /** The body `handleJoinOrganization` sends. */
  function JoinRequest(f: FormData): (r: OrgRequest)
    ensures r.JoinOrganization?
    ensures r.inviteCode == f.inviteCode
    ensures r.userEmail == f.userEmail && r.userName == f.userName
  {
    JoinOrganization(f.inviteCode, f.userEmail, f.userName)
  }

  /** A create request sent right after typing a name carries the name, its
      derived slug and the user from the query string. */
  lemma CreateAfterNameEdit(email: Option<string>, name: Option<string>, value: string)
    ensures CreateRequest(AfterNameEdit(InitialFormData(email, name), value)) ==
            CreateOrganization(value, BaseSlug(value), ParamOrEmpty(email), ParamOrEmpty(name))
  {
  }

  /** The outcome of `fetch`: a response with its `ok` flag, or a thrown error. */
  datatype FetchOutcome = Responded(ok: bool) | Threw

  /** The page navigates only on an ok response; a failed response and a
      thrown error are only logged. */
  function NextRoute(outcome: FetchOutcome, route: Option<string>): (r: Option<string>)
    ensures r == if outcome == Responded(true) then Some(DASHBOARD) else route
  {
    match outcome
    case Responded(ok) => if ok then Some(DASHBOARD) else route
    case Threw => route
  }

  /** The page's state: the shown panel, the request flag, the form and the
      route the router was last pushed to. */
  class OnboardingPage {
    var step: Step
    var loading: bool
    var formData: FormData
    var route: Option<string>

    constructor(email: Option<string>, name: Option<string>)
      ensures step == StepOrganization && !loading
      ensures formData == InitialFormData(email, name)
      ensures route == None
    {
      step := StepOrganization;
      loading := false;
      formData := InitialFormData(email, name);
      route := None;
    }

    predicate CreateButtonDisabled()
      reads this
    {
      CreateDisabled(formData, loading)
    }

    predicate JoinButtonDisabled()
      reads this
    {
      JoinDisabled(formData, loading)
    }

    /** The two step buttons. */
    method SelectStep(s: Step)
      modifies this
      ensures step == s
      ensures loading == old(loading) && formData == old(formData) && route == old(route)
    {
      step := s;
    }

    method GenerateSlug(name: string)
      modifies this
      ensures formData == WithGeneratedSlug(old(formData), name)
      ensures step == old(step) && loading == old(loading) && route == old(route)
    {
      var next := WithGeneratedSlug(formData, name);
      formData := next;
    }

    method OnOrganizationNameChange(value: string)
      modifies this
      ensures formData == AfterNameEdit(old(formData), value)
      ensures step == old(step) && loading == old(loading) && route == old(route)
    {
      formData := formData.(organizationName := value);
      GenerateSlug(value);
    }

    method OnSlugChange(value: string)
      modifies this
      ensures formData == AfterSlugEdit(old(formData), value)
      ensures step == old(step) && loading == old(loading) && route == old(route)
    {
      formData := formData.(slug := value);
    }

    method OnInviteCodeChange(value: string)
      modifies this
      ensures formData == AfterInviteEdit(old(formData), value)
      ensures step == old(step) && loading == old(loading) && route == old(route)
    {
      formData := formData.(inviteCode := value);
    }

    /** The part of a submit handler before its `await`: set `loading` and
        build the request. While it runs, both submit buttons are disabled. */
    method BeginRequest(create: bool) returns (request: OrgRequest)
      modifies this
      ensures request == if create then CreateRequest(formData) else JoinRequest(formData)
      ensures loading
      ensures CreateButtonDisabled() && JoinButtonDisabled()
      ensures step == old(step) && formData == old(formData) && route == old(route)
    {
      loading := true;
      request := if create then CreateRequest(formData) else JoinRequest(formData);
    }

    /** The part after the `await`: navigate on an ok response, and in every
        case end with `loading` false (the `finally` block). */
    method FinishRequest(outcome: FetchOutcome)
      modifies this
      ensures route == NextRoute(outcome, old(route))
      ensures !loading
      ensures step == old(step) && formData == old(formData)
    {
      if outcome == Responded(true) {
        route := Some(DASHBOARD);
      }
      loading := false;
    }

    method HandleCreateOrganization(outcome: FetchOutcome) returns (request: OrgRequest)
      modifies this
      ensures request == CreateRequest(old(formData)) && Endpoint(request) == CREATE_ENDPOINT
      ensures route == NextRoute(outcome, old(route)) && !loading
      ensures step == old(step) && formData == old(formData)
    {
      request := BeginRequest(true);
      FinishRequest(outcome);
    }

    method HandleJoinOrganization(outcome: FetchOutcome) returns (request: OrgRequest)
      modifies this
      ensures request == JoinRequest(old(formData)) && Endpoint(request) == JOIN_ENDPOINT
      ensures route == NextRoute(outcome, old(route)) && !loading
      ensures step == old(step) && formData == old(formData)
    {
      request := BeginRequest(false);
      FinishRequest(outcome);
    }
  }
}
