/**
 * Tenant rules (src/lib/tenant.ts): organization slugs, the role-based
 * permission table and the plan-limit gates. Every database lookup is a
 * parameter: the organization found (if any), the role of the user found
 * (if any), the set of slugs already taken and the month's survey count.
 */
module Tenant {
  import opened Wrappers
  import opened JsString
  import opened Plans

  // ---------------------------------------------------------------------
  // Slugs

  predicate IsSlugAlnum(c: char) { 'a' <= c <= 'z' || '0' <= c <= '9' }

  predicate IsHyphen(c: char) { c == '-' }

  /** The class `[a-z0-9\s-]` that survives the character filter. */
  predicate KeptBySlugFilter(c: char) { IsSlugAlnum(c) || IsWhite(c) || c == '-' }

  predicate IsSlugChar(c: char) { IsSlugAlnum(c) || c == '-' }

  predicate NoDoubleHyphen(s: string) {
    forall i :: 0 <= i < |s| - 1 ==> !(s[i] == '-' && s[i + 1] == '-')
  }

  /** What the normalisation chain produces: only `[a-z0-9-]` and never `--`. */
  predicate IsNormalSlug(s: string) {
    (forall i :: 0 <= i < |s| ==> IsSlugChar(s[i])) && NoDoubleHyphen(s)
  }

  /** The chain up to, but not including, the final `.trim()`. */
  function CollapsedSlug(name: string): string {
    ReplaceRuns(ReplaceRuns(Filter(KeptBySlugFilter, ToLowerCase(name)), IsWhite, '-'), IsHyphen, '-')
  }

  /** The base slug of generateSlug: lower-case, drop every character outside
      `[a-z0-9\s-]`, turn each whitespace run into `-`, squeeze each run of
      `-` to one, trim. */
  function BaseSlug(name: string): string {
    Trim(CollapsedSlug(name))
  }

  lemma CollapsedSlugShape(name: string)
    ensures IsNormalSlug(CollapsedSlug(name))
  {
    var b := Filter(KeptBySlugFilter, ToLowerCase(name));
    var c := ReplaceRuns(b, IsWhite, '-');
    ReplaceRunsFrom(b, IsWhite, '-', KeptBySlugFilter);
    assert forall i :: 0 <= i < |c| ==> IsSlugChar(c[i]);
    ReplaceRunsFrom(c, IsHyphen, '-', IsSlugChar);
    ReplaceRunsNoAdjacent(c, IsHyphen, '-');
    var d := ReplaceRuns(c, IsHyphen, '-');
    forall i | 0 <= i < |d| - 1 ensures !(d[i] == '-' && d[i + 1] == '-') {
      assert !(IsHyphen(d[i]) && IsHyphen(d[i + 1]));
    }
  }

  /** The output of the chain is over `[a-z0-9-]`, holds no whitespace and no
      `--`, and the final `.trim()` changes nothing. */
  lemma BaseSlugShape(name: string)
    ensures IsNormalSlug(BaseSlug(name))
    ensures NoWhite(BaseSlug(name))
    ensures BaseSlug(name) == CollapsedSlug(name)
  {
    CollapsedSlugShape(name);
    TrimNoWhite(CollapsedSlug(name));
  }

  lemma SlugCharsNotWhite(s: string)
    requires forall i :: 0 <= i < |s| ==> IsSlugChar(s[i])
    ensures NoWhite(s)
  {
  }

  lemma NormalSlugLowered(s: string)
    requires IsNormalSlug(s)
    ensures Filter(KeptBySlugFilter, ToLowerCase(s)) == s
  {
    assert ToLowerCase(s) == s;
    FilterKeepsAll(KeptBySlugFilter, s);
  }

  lemma NormalSlugCollapsed(s: string)
    requires IsNormalSlug(s)
    ensures ReplaceRuns(ReplaceRuns(s, IsWhite, '-'), IsHyphen, '-') == s
  {
    SlugCharsNotWhite(s);
    assert NoAdjacent(s, IsWhite);
    ReplaceRunsIdentity(s, IsWhite, '-');
    assert NoAdjacent(s, IsHyphen) by {
      forall i | 0 <= i < |s| - 1 ensures !(IsHyphen(s[i]) && IsHyphen(s[i + 1])) {
        assert !(s[i] == '-' && s[i + 1] == '-');
      }
    }
    ReplaceRunsIdentity(s, IsHyphen, '-');
  }

  /** A normal slug is a fixed point of every step of the chain. */
  lemma NormalSlugFixed(s: string)
    requires IsNormalSlug(s)
    ensures BaseSlug(s) == s
  {
    NormalSlugLowered(s);
    NormalSlugCollapsed(s);
    SlugCharsNotWhite(s);
    TrimNoWhite(s);
  }

  /** Normalising is idempotent. */
  lemma BaseSlugIdempotent(name: string)
    ensures BaseSlug(BaseSlug(name)) == BaseSlug(name)
  {
    BaseSlugShape(name);
    NormalSlugFixed(BaseSlug(name));
  }

  /** The strings the chain leaves unchanged are exactly the normal slugs. */
  lemma BaseSlugFixedIff(s: string)
    ensures BaseSlug(s) == s <==> IsNormalSlug(s)
  {
    BaseSlugShape(s);
    if IsNormalSlug(s) { NormalSlugFixed(s); }
  }

  /** Letters and digits of the lower-cased name all survive, in order. */
  lemma BaseSlugKeepsAlnum(name: string)
    ensures Filter(IsSlugAlnum, BaseSlug(name)) == Filter(IsSlugAlnum, ToLowerCase(name))
  {
    var a := ToLowerCase(name);
    var b := Filter(KeptBySlugFilter, a);
    var c := ReplaceRuns(b, IsWhite, '-');
    FilterFilter(KeptBySlugFilter, IsSlugAlnum, a);
    ReplaceRunsFilter(b, IsWhite, '-', IsSlugAlnum);
    ReplaceRunsFilter(c, IsHyphen, '-', IsSlugAlnum);
    BaseSlugShape(name);
  }

  /** The base slug is empty exactly when no character of the name, lower-cased,
      is a letter, digit, whitespace or `-`. */
  lemma BaseSlugEmptyIff(name: string)
    ensures BaseSlug(name) == [] <==>
            forall i :: 0 <= i < |name| ==> !KeptBySlugFilter(LowerChar(name[i]))
  {
    var a := ToLowerCase(name);
    var b := Filter(KeptBySlugFilter, a);
    var c := ReplaceRuns(b, IsWhite, '-');
    FilterEmpty(KeptBySlugFilter, a);
    if b != [] {
      ReplaceRunsHead(b, IsWhite, '-');
      ReplaceRunsHead(c, IsHyphen, '-');
    }
    BaseSlugShape(name);
  }

  /** The regular expression `^[a-z0-9]+(?:-[a-z0-9]+)*$` as its automaton:
      `inRun` holds when the last character read was a letter or digit. */
  predicate MatchesSlugPattern(s: string, inRun: bool) {
    if s == [] then inRun
    else if IsSlugAlnum(s[0]) then MatchesSlugPattern(s[1..], true)
    else if s[0] == '-' && inRun then MatchesSlugPattern(s[1..], false)
    else false
  }

  /** `isValidSlug`. */
  predicate IsValidSlug(slug: string) {
    MatchesSlugPattern(slug, false) && 3 <= |slug| <= 50
  }

  predicate IsAlnumRun(p: string) {
    p != [] && forall i :: 0 <= i < |p| ==> IsSlugAlnum(p[i])
  }

  /** Every part is a non-empty run of `[a-z0-9]`. */
  predicate AllAlnumRuns(parts: seq<string>) {
    parts == [] || (IsAlnumRun(parts[0]) && AllAlnumRuns(parts[1..]))
  }

  lemma {:induction false} AllAlnumRunsForall(parts: seq<string>)
    ensures AllAlnumRuns(parts) <==> forall k :: 0 <= k < |parts| ==> IsAlnumRun(parts[k])
  {
    if parts != [] {
      AllAlnumRunsForall(parts[1..]);
      assert forall k :: 1 <= k < |parts| ==> parts[k] == parts[1..][k - 1];
    }
  }

  lemma {:induction false} PatternByRuns(s: string, inRun: bool)
    ensures var parts := SplitOn(s, '-');
      MatchesSlugPattern(s, inRun) <==>
        (forall i :: 0 <= i < |parts[0]| ==> IsSlugAlnum(parts[0][i])) &&
        (inRun || parts[0] != []) &&
        AllAlnumRuns(parts[1..])
  {
    if s != [] {
      var rest := SplitOn(s[1..], '-');
      PatternByRuns(s[1..], IsSlugAlnum(s[0]));
      var parts := SplitOn(s, '-');
      if s[0] == '-' {
        assert parts == [[]] + rest;
        assert parts[1..] == rest;
        assert AllAlnumRuns(rest) <==> rest == [] || (IsAlnumRun(rest[0]) && AllAlnumRuns(rest[1..]));
      } else {
        assert parts == [[s[0]] + rest[0]] + rest[1..];
        assert parts[1..] == rest[1..];
        assert parts[0][0] == s[0];
        assert parts[0] == [s[0]] + rest[0];
        assert forall j :: 0 <= j < |rest[0]| ==> rest[0][j] == parts[0][j + 1];
      }
    }
  }

  /** The pattern matches exactly the strings that `split('-')` cuts into one or
      more non-empty runs of `[a-z0-9]`. */
  lemma SlugPatternIsRuns(s: string)
    ensures MatchesSlugPattern(s, false) <==>
            forall k :: 0 <= k < |SplitOn(s, '-')| ==> IsAlnumRun(SplitOn(s, '-')[k])
  {
    var parts := SplitOn(s, '-');
    PatternByRuns(s, false);
    AllAlnumRunsForall(parts);
    assert AllAlnumRuns(parts) <==> IsAlnumRun(parts[0]) && AllAlnumRuns(parts[1..]);
  }

  lemma {:induction false} PatternByChars(s: string, inRun: bool)
    ensures MatchesSlugPattern(s, inRun) <==>
      (s == [] && inRun) ||
      (s != [] && IsNormalSlug(s) && s[|s| - 1] != '-' && (s[0] == '-' ==> inRun))
  {
    if s != [] {
      PatternByChars(s[1..], IsSlugAlnum(s[0]));
      assert forall i :: 1 <= i < |s| ==> s[i] == s[1..][i - 1];
    }
  }

  /** `isValidSlug` holds exactly for 3 to 50 characters over `[a-z0-9-]` with
      no leading, trailing or doubled `-`. */
  lemma ValidSlugIff(s: string)
    ensures IsValidSlug(s) <==>
      3 <= |s| <= 50 && IsNormalSlug(s) && s[0] != '-' && s[|s| - 1] != '-'
  {
    PatternByChars(s, false);
  }

  /** A valid slug passes through the normalisation chain unchanged. */
  lemma ValidSlugIsNormal(s: string)
    requires IsValidSlug(s)
    ensures BaseSlug(s) == s
  {
    ValidSlugIff(s);
    NormalSlugFixed(s);
  }

  /** The slug tried on a given attempt: the base, then `base-1`, `base-2`, … */
  function Candidate(base: string, attempt: nat): string {
    if attempt > 0 then base + "-" + Decimal(attempt) else base
  }

  lemma CandidateInjective(base: string, i: nat, j: nat)
    requires Candidate(base, i) == Candidate(base, j)
    ensures i == j
  {
    if i > 0 && j > 0 {
      var n := |base| + 1;
      assert Decimal(i) == Candidate(base, i)[n..];
      assert Decimal(j) == Candidate(base, j)[n..];
      DecimalInjective(i, j);
    }
  }

  /** The candidates of the attempts before `n`. */
  ghost function Tried(base: string, n: nat): set<string> {
    set j | 0 <= j < n :: Candidate(base, j)
  }

  /** A taken candidate shrinks the set of taken slugs not yet tried. */
  lemma TriedShrinks(base: string, existing: set<string>, n: nat)
    requires Candidate(base, n) in existing
    ensures |existing - Tried(base, n + 1)| == |existing - Tried(base, n)| - 1
  {
    var c := Candidate(base, n);
    assert Tried(base, n + 1) == Tried(base, n) + {c};
    if c in Tried(base, n) {
      var j :| 0 <= j < n && Candidate(base, j) == c;
      CandidateInjective(base, j, n);
    }
    assert existing - Tried(base, n + 1) == (existing - Tried(base, n)) - {c};
  }

  /** `generateSlug(name, attempt)`: the first candidate from `attempt` on that
      no organization holds. Each taken candidate shrinks the set of taken
      slugs not yet tried, so the search ends. */
  function GenerateSlug(name: string, existing: set<string>, attempt: nat): (slug: string)
    ensures slug !in existing
    decreases |existing - Tried(BaseSlug(name), attempt)|
  {
    var slug := Candidate(BaseSlug(name), attempt);
    if slug in existing then
      TriedShrinks(BaseSlug(name), existing, attempt);
      GenerateSlug(name, existing, attempt + 1)
    else
      slug
  }

  /** The result is the candidate of the first free attempt from `attempt`
      on, reached within as many steps as there are taken slugs not yet tried. */
  lemma {:induction false} GenerateSlugSearch(name: string, existing: set<string>, attempt: nat, base: string)
    requires base == BaseSlug(name)
    ensures exists k :: attempt <= k <= attempt + |existing - Tried(base, attempt)| &&
                        GenerateSlug(name, existing, attempt) == Candidate(base, k) &&
                        forall j :: attempt <= j < k ==> Candidate(base, j) in existing
    decreases |existing - Tried(base, attempt)|
  {
    if Candidate(base, attempt) in existing {
      TriedShrinks(base, existing, attempt);
      GenerateSlugSearch(name, existing, attempt + 1, base);
      var k :| attempt + 1 <= k <= attempt + 1 + |existing - Tried(base, attempt + 1)| &&
               GenerateSlug(name, existing, attempt + 1) == Candidate(base, k) &&
               forall j :: attempt + 1 <= j < k ==> Candidate(base, j) in existing;
      GenerateSlugTaken(name, existing, attempt, base);
    } else {
      GenerateSlugFree(name, existing, attempt, base);
    }
  }

  /** From the first attempt, the result is the candidate of the least free
      attempt, which is at most the number of taken slugs. */
  lemma GenerateSlugLeastFree(name: string, existing: set<string>)
    ensures exists k :: 0 <= k <= |existing| &&
                        GenerateSlug(name, existing, 0) == Candidate(BaseSlug(name), k) &&
                        Candidate(BaseSlug(name), k) !in existing &&
                        forall j :: 0 <= j < k ==> Candidate(BaseSlug(name), j) in existing
  {
    GenerateSlugLeastFreeOf(name, existing, BaseSlug(name));
  }

  lemma GenerateSlugLeastFreeOf(name: string, existing: set<string>, base: string)
    requires base == BaseSlug(name)
    ensures exists k :: 0 <= k <= |existing| &&
                        GenerateSlug(name, existing, 0) == Candidate(base, k) &&
                        Candidate(base, k) !in existing &&
                        forall j :: 0 <= j < k ==> Candidate(base, j) in existing
  {
    assert Tried(base, 0) == {};
    GenerateSlugSearch(name, existing, 0, base);
    var r := GenerateSlug(name, existing, 0);
    var k :| 0 <= k <= |existing| &&
             r == Candidate(base, k) &&
             forall j :: 0 <= j < k ==> Candidate(base, j) in existing;
  }

  lemma AcmeLowered()
    ensures Filter(KeptBySlugFilter, ToLowerCase("Acme ")) == "acme "
  {
    var lowered := ToLowerCase("Acme ");
    assert lowered == "acme " by {
      assert |lowered| == 5 && lowered[0] == LowerChar('A');
    }
    assert forall i :: 0 <= i < |lowered| ==> KeptBySlugFilter(lowered[i]);
    FilterKeepsAll(KeptBySlugFilter, lowered);
  }

  lemma AcmeWhitespace()
    ensures ReplaceRuns("acme ", IsWhite, '-') == "acme-"
  {
    WhitespaceTail("acme");
    assert "acme" + " " == "acme " && "acme" + "-" == "acme-";
  }

  /** One trailing space after a word without whitespace becomes a hyphen. */
  lemma WhitespaceTail(s: string)
    requires NoWhite(s)
    ensures ReplaceRuns(s + " ", IsWhite, '-') == s + "-"
  {
    ReplaceRunsOutsidePrefix(s, " ", IsWhite, '-');
    assert ReplaceRuns(" ", IsWhite, '-') == "-";
  }

  lemma AcmeHyphens()
    ensures ReplaceRuns("acme-", IsHyphen, '-') == "acme-"
  {
    assert NoAdjacent("acme-", IsHyphen) by {
      assert forall i :: 0 <= i < 4 ==> !IsHyphen("acme-"[i]);
    }
    ReplaceRunsIdentity("acme-", IsHyphen, '-');
  }

  lemma AcmeCollapsed()
    ensures ReplaceRuns(ReplaceRuns("acme ", IsWhite, '-'), IsHyphen, '-') == "acme-"
  {
    AcmeWhitespace();
    AcmeHyphens();
  }

  lemma AcmeBaseSlug()
    ensures BaseSlug("Acme ") == "acme-"
  {
    AcmeLowered();
    AcmeCollapsed();
    BaseSlugShape("Acme ");
  }

  /** A taken candidate moves the search on to the next attempt. */
  lemma GenerateSlugTaken(name: string, existing: set<string>, attempt: nat, base: string)
    requires base == BaseSlug(name) && Candidate(base, attempt) in existing
    ensures GenerateSlug(name, existing, attempt) == GenerateSlug(name, existing, attempt + 1)
  {
  }

  /** A free candidate is the result. */
  lemma GenerateSlugFree(name: string, existing: set<string>, attempt: nat, base: string)
    requires base == BaseSlug(name) && Candidate(base, attempt) !in existing
    ensures GenerateSlug(name, existing, attempt) == Candidate(base, attempt)
  {
  }

  /** The result need not be a valid slug: when the base slug ends in `-` (as
      the base "acme-" of "Acme " does) and is taken, the next candidate holds
      `--`, and neither is accepted by `isValidSlug`. */
  lemma GeneratedSlugMayBeInvalid(name: string, existing: set<string>)
    requires BaseSlug(name) != [] && BaseSlug(name)[|BaseSlug(name)| - 1] == '-'
    requires BaseSlug(name) in existing && BaseSlug(name) + "-1" !in existing
    ensures GenerateSlug(name, existing, 0) == BaseSlug(name) + "-1"
    ensures !IsValidSlug(BaseSlug(name)) && !IsValidSlug(GenerateSlug(name, existing, 0))
  {
    GenerateSlugSecond(name, existing, BaseSlug(name));
    HyphenEndInvalid(BaseSlug(name));
  }

  /** A taken base slug with a free `-1` candidate yields that candidate. */
  lemma GenerateSlugSecond(name: string, existing: set<string>, base: string)
    requires base == BaseSlug(name) && base in existing && base + "-1" !in existing
    ensures GenerateSlug(name, existing, 0) == base + "-1"
  {
    assert Candidate(base, 0) in existing;
    GenerateSlugTaken(name, existing, 0, base);
    CandidateOne(base);
    GenerateSlugFree(name, existing, 1, base);
  }

  lemma CandidateOne(base: string)
    ensures Candidate(base, 1) == base + "-1"
  {
    assert Decimal(1) == "1";
    assert "-" + "1" == "-1";
    AppendAssoc(base, "-", "1");
  }

  /** A slug ending in `-` is invalid, and so is its next candidate. */
  lemma HyphenEndInvalid(base: string)
    requires base != [] && base[|base| - 1] == '-'
    ensures !IsValidSlug(base) && !IsValidSlug(base + "-1")
  {
    var next := base + "-1";
    ValidSlugIff(base);
    ValidSlugIff(next);
    assert next[|base| - 1] == '-' && next[|base|] == '-';
  }

  // ---------------------------------------------------------------------
  // Permissions

  const READ_ROLES: seq<string> := ["OWNER", "ADMIN", "MEMBER", "VIEWER"]
  const WRITE_ROLES: seq<string> := ["OWNER", "ADMIN", "MEMBER"]
  const ADMIN_ROLES: seq<string> := ["OWNER", "ADMIN"]

  /** `hasPermission`: `role` is the role of the user found in the
      organization, `None` when there is none. */
  function HasPermission(role: Option<string>, action: string): bool {
    if role.None? then false
    else if action == "read" then role.value in READ_ROLES
    else if action == "write" then role.value in WRITE_ROLES
    else if action == "admin" then role.value in ADMIN_ROLES
    else false
  }

  /** An independent reading of the table: roles and actions are ranked, and a
      role may do what its rank reaches. */
  function RoleRank(role: string): nat {
    if role == "OWNER" || role == "ADMIN" then 3
    else if role == "MEMBER" then 2
    else if role == "VIEWER" then 1
    else 0
  }

  function ActionRank(action: string): nat {
    if action == "read" then 1
    else if action == "write" then 2
    else if action == "admin" then 3
    else 4
  }

  lemma PermissionByRank(role: Option<string>, action: string)
    ensures HasPermission(role, action) <==>
            role.Some? && ActionRank(action) <= RoleRank(role.value)
  {
  }

  /** Admin implies write implies read; a missing user and an unknown action get nothing. */
  lemma PermissionHierarchy(role: Option<string>, action: string)
    ensures HasPermission(role, "admin") ==> HasPermission(role, "write")
    ensures HasPermission(role, "write") ==> HasPermission(role, "read")
    ensures role.None? ==> !HasPermission(role, action)
    ensures action != "read" && action != "write" && action != "admin" ==> !HasPermission(role, action)
  {
  }

  /** The table per role. */
  lemma PermissionsPerRole(role: string, action: string)
    ensures role == "VIEWER" ==> (HasPermission(Some(role), action) <==> action == "read")
    ensures role == "MEMBER" ==> (HasPermission(Some(role), action) <==> action == "read" || action == "write")
    ensures role == "OWNER" || role == "ADMIN" ==>
            (HasPermission(Some(role), action) <==> action == "read" || action == "write" || action == "admin")
    ensures role !in READ_ROLES ==> !HasPermission(Some(role), action)
  {
  }

  // ---------------------------------------------------------------------
  // Plan limits

  datatype Facility = Facility(id: string, isActive: bool)

  /** An organization row with all its facilities; `plan` is a key of the plan table. */
  datatype Organization = Organization(id: string, plan: string, facilities: seq<Facility>)

  /** The facilities the query includes (`where: { isActive: true }`). */
  function ActiveFacilities(fs: seq<Facility>): (active: seq<Facility>)
    ensures |active| <= |fs|
    ensures forall i :: 0 <= i < |active| ==> active[i].isActive
    ensures forall f :: f in active <==> f in fs && f.isActive
  {
    if fs == [] then []
    else (if fs[0].isActive then [fs[0]] else []) + ActiveFacilities(fs[1..])
  }

  lemma {:induction false} ActiveFacilitiesAppend(a: seq<Facility>, b: seq<Facility>)
    ensures ActiveFacilities(a + b) == ActiveFacilities(a) + ActiveFacilities(b)
  {
    if a == [] {
      assert a + b == b;
    } else {
      assert (a + b)[0] == a[0] && (a + b)[1..] == a[1..] + b;
      ActiveFacilitiesAppend(a[1..], b);
    }
  }

  /** A facility added at the end raises the count by one exactly when it is active. */
  lemma ActiveFacilitiesSnoc(fs: seq<Facility>, f: Facility)
    ensures |ActiveFacilities(fs + [f])| == |ActiveFacilities(fs)| + (if f.isActive then 1 else 0)
  {
    ActiveFacilitiesAppend(fs, [f]);
    assert ActiveFacilities([f]) == if f.isActive then [f] else [];
  }

  /** When every facility is active, every one of them is counted, in order. */
  lemma {:induction false} AllActiveCounted(fs: seq<Facility>)
    requires forall i :: 0 <= i < |fs| ==> fs[i].isActive
    ensures ActiveFacilities(fs) == fs
  {
    if fs != [] {
      assert forall i :: 0 <= i < |fs[1..]| ==> fs[1..][i] == fs[i + 1];
      AllActiveCounted(fs[1..]);
      assert fs == [fs[0]] + fs[1..];
    }
  }

  /** `canCreateFacility`: `org` is the organization found, if any. */
  function CanCreateFacility(org: Option<Organization>): bool
    requires org.Some? ==> IsPlanType(org.value.plan)
  {
    if org.None? then false
    else
      var limit := PLANS[org.value.plan].limits.facilities;
      if limit == UNLIMITED then true
      else |ActiveFacilities(org.value.facilities)| < limit
  }

  /** The gate: a missing organization is refused, an unlimited plan always
      passes, otherwise the active facilities must be below the limit. */
  lemma CanCreateFacilityGate(org: Option<Organization>)
    requires org.Some? ==> IsPlanType(org.value.plan)
    ensures org.None? ==> !CanCreateFacility(org)
    ensures org.Some? && PLANS[org.value.plan].limits.facilities == UNLIMITED ==> CanCreateFacility(org)
    ensures org.Some? && org.value.plan == "ENTERPRISE" ==> CanCreateFacility(org)
    ensures org.Some? && PLANS[org.value.plan].limits.facilities != UNLIMITED ==>
            (CanCreateFacility(org) <==>
             |ActiveFacilities(org.value.facilities)| < PLANS[org.value.plan].limits.facilities)
  {
  }

  /** Adding an inactive facility anywhere does not change the answer. */
  lemma InactiveFacilitiesDoNotCount(o: Organization, before: seq<Facility>, f: Facility, after: seq<Facility>)
    requires IsPlanType(o.plan)
    requires !f.isActive
    requires o.facilities == before + after
    ensures CanCreateFacility(Some(o.(facilities := before + [f] + after))) == CanCreateFacility(Some(o))
  {
    ActiveFacilitiesAppend(before + [f], after);
    ActiveFacilitiesAppend(before, [f]);
    assert ActiveFacilities([f]) == [];
    assert ActiveFacilities(before + [f]) == ActiveFacilities(before);
    ActiveFacilitiesAppend(before, after);
  }

  /** `canRecordSurvey`: `monthlyCount` is the number of surveys the organization
      has recorded since the start of the current month. */
  function CanRecordSurvey(org: Option<Organization>, monthlyCount: nat): bool
    requires org.Some? ==> IsPlanType(org.value.plan)
  {
    if org.None? then false
    else
      var limit := PLANS[org.value.plan].limits.surveys;
      if limit == UNLIMITED then true
      else monthlyCount < limit
  }

  lemma CanRecordSurveyGate(org: Option<Organization>, monthlyCount: nat)
    requires org.Some? ==> IsPlanType(org.value.plan)
    ensures org.None? ==> !CanRecordSurvey(org, monthlyCount)
    ensures org.Some? && PLANS[org.value.plan].limits.surveys == UNLIMITED ==> CanRecordSurvey(org, monthlyCount)
    ensures org.Some? && PLANS[org.value.plan].limits.surveys != UNLIMITED ==>
            (CanRecordSurvey(org, monthlyCount) <==> monthlyCount < PLANS[org.value.plan].limits.surveys)
  {
  }

  /** Allowed at some count means allowed at every smaller count. */
  lemma CanRecordSurveyMonotone(org: Option<Organization>, fewer: nat, more: nat)
    requires org.Some? ==> IsPlanType(org.value.plan)
    requires fewer <= more
    ensures CanRecordSurvey(org, more) ==> CanRecordSurvey(org, fewer)
  {
  }

  /** At a Starter organization the thousandth survey of the month is the last one. */
  lemma StarterSurveyLimit(o: Organization)
    requires o.plan == "STARTER"
    ensures CanRecordSurvey(Some(o), 999) && !CanRecordSurvey(Some(o), 1000)
  {
  }
}
