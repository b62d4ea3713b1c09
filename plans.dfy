/**
 * The subscription plan table (`PLANS` in src/lib/stripe.ts): three tiers,
 * each with a display name, a monthly price, a feature list and two limits.
 * A limit of -1 means unlimited. The Stripe price ids come from the
 * environment and are not part of this model.
 */
module Plans {

  datatype Limits = Limits(facilities: int, surveys: int)

  datatype Plan = Plan(name: string, price: nat, features: seq<string>, limits: Limits)

  /** The sentinel limit that tenant checks read as "no limit". */
  const UNLIMITED: int := -1

  const STARTER_PLAN: Plan := Plan(
    "Starter", 29,
    ["Up to 5 facilities", "1,000 survey responses/month", "Basic analytics",
     "Email support", "QR code generation"],
    Limits(5, 1000))

  const PROFESSIONAL_PLAN: Plan := Plan(
    "Professional", 99,
    ["Up to 25 facilities", "10,000 survey responses/month",
     "Advanced analytics & reporting", "Priority support", "Custom branding",
     "API access", "Data export"],
    Limits(25, 10000))

  const ENTERPRISE_PLAN: Plan := Plan(
    "Enterprise", 299,
    ["Unlimited facilities", "Unlimited survey responses", "Custom integrations",
     "Dedicated account manager", "White-label solution", "SLA guarantee",
     "Advanced security", "SSO integration"],
    Limits(UNLIMITED, UNLIMITED))

  /** The table, keyed by the plan names stored on an organization. */
  const PLANS: map<string, Plan> :=
    map["STARTER" := STARTER_PLAN, "PROFESSIONAL" := PROFESSIONAL_PLAN, "ENTERPRISE" := ENTERPRISE_PLAN]

  /** `PlanType`: the keys of the table. */
  predicate IsPlanType(key: string) {
    key in PLANS
  }

  /** `PlanType` is exactly the three tier names. */
  lemma PlanTypeKeys(key: string)
    ensures IsPlanType(key) <==> key == "STARTER" || key == "PROFESSIONAL" || key == "ENTERPRISE"
  {
  }

  lemma StarterTier()
    ensures PLANS["STARTER"].limits == Limits(5, 1000) && PLANS["STARTER"].price == 29
  {
  }

  lemma ProfessionalTier()
    ensures PLANS["PROFESSIONAL"].limits == Limits(25, 10000) && PLANS["PROFESSIONAL"].price == 99
  {
  }

  lemma EnterpriseTier()
    ensures PLANS["ENTERPRISE"].limits == Limits(UNLIMITED, UNLIMITED)
    ensures PLANS["ENTERPRISE"].price == 299
  {
  }

  /** Every finite limit is positive, and the tiers grow strictly in both limits and price. */
  lemma TiersOrdered()
    ensures forall key :: key in PLANS && key != "ENTERPRISE" ==>
              PLANS[key].limits.facilities > 0 && PLANS[key].limits.surveys > 0
    ensures PLANS["STARTER"].limits.facilities < PLANS["PROFESSIONAL"].limits.facilities
    ensures PLANS["STARTER"].limits.surveys < PLANS["PROFESSIONAL"].limits.surveys
    ensures PLANS["STARTER"].price < PLANS["PROFESSIONAL"].price < PLANS["ENTERPRISE"].price
  {
  }
}
