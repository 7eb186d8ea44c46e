/** Tenant plans and their sparse-patch merge (src/policy/policy.go, src/policy/pulsardb.go). */
module TenantPlan {
  import opened Integers
  import opened Text

  /** An integer, as JSON may carry any; below are the states the database treats apart. */
  type TenantStatus = int

  const RESERVED0: TenantStatus := 0
  const ACTIVATED: TenantStatus := 1
  const DELETED: TenantStatus := 4

  const FREE_TIER := "free"
  const STARTER_TIER := "starter"
  const PRODUCTION_TIER := "production"
  const DEDICATED_TIER := "dedicated"
  const PRIVATE_TIER := "private"

  const FEATURE_ALL_ENABLED := "all-enabled"
  const FEATURE_ALL_DISABLED := "all-disabled"

  /** One hour of time.Duration, in nanoseconds. */
  const HOUR := 3_600_000_000_000

  datatype PlanPolicy = PlanPolicy(
    name: string, numOfTopics: int, numOfNamespaces: int, messageHourRetention: int,
    messageRetention: int, numOfProducers: int, numOfConsumers: int, functions: int,
    featureCodes: string, reserved0: string, reserved1: string)

  datatype Plan = Plan(
    name: string, tenantStatus: TenantStatus, org: string, users: string, planType: string,
    updatedAt: int, policy: PlanPolicy, audit: string)

  const EMPTY_POLICY := PlanPolicy("", 0, 0, 0, 0, 0, 0, 0, "", "", "")
  const EMPTY_PLAN := Plan("", RESERVED0, "", "", "", 0, EMPTY_POLICY, "")

  datatype Error = InvalidPlanType | NotFound | SendFailed
  datatype Result<+T> = Success(value: T) | Failure(error: Error)

  // ---- Plan types ----

  function DefaultPolicy(name: string, topics: int, namespaces: int, days: int, producers: int,
                         consumers: int, functions: int, features: string): PlanPolicy {
    PlanPolicy(name, topics, namespaces, days * 24, days * 24 * HOUR, producers, consumers, functions,
               features, "", "")
  }

  function PolicyOf(planType: string): Option<PlanPolicy> {
    if planType == FREE_TIER then Some(DefaultPolicy(FREE_TIER, 5, 1, 2, 3, 5, 1, FEATURE_ALL_DISABLED))
    else if planType == STARTER_TIER then Some(DefaultPolicy(STARTER_TIER, 20, 2, 7, 30, 50, 10, FEATURE_ALL_DISABLED))
    else if planType == PRODUCTION_TIER then Some(DefaultPolicy(PRODUCTION_TIER, 100, 6, 14, 60, 100, 20, FEATURE_ALL_DISABLED))
    else if planType == DEDICATED_TIER then Some(DefaultPolicy(DEDICATED_TIER, 1000, 500, 21, 300, 500, 30, FEATURE_ALL_DISABLED))
    else if planType == PRIVATE_TIER then Some(DefaultPolicy(PRIVATE_TIER, 5000, 1000, 28, -1, -1, -1, FEATURE_ALL_ENABLED))
    else None
  }

  /** Lower case as far as it decides equality with a plan type: the ASCII letters, and the two
      other letters whose lower case is an ASCII one. */
  function LowerChar(c: char): char {
    if 'A' <= c <= 'Z' then (c as int + 32) as char
    else if c == '\U{0130}' then 'i'
    else if c == '\U{212A}' then 'k'
    else c
  }

  function ToLower(s: string): (r: string)
    ensures |r| == |s|
  {
    seq(|s|, i requires 0 <= i < |s| => LowerChar(s[i]))
  }

  predicate ValidPlanType(planType: string) {
    PolicyOf(ToLower(planType)).Some?
  }

  // ---- Merging ----

  function AssignString(first: string, second: string): string {
    if first != "" then first else second
  }

  function TakeNonZero(a: int, b: int): int {
    if a == 0 then b else a
  }

  function TakeTenantStatus(a: TenantStatus, b: TenantStatus): TenantStatus {
    if a == RESERVED0 then b else a
  }

  /** The patch `req` laid over `base`, field by field; the retention is left to the caller. */
  function OverlayPolicy(req: PlanPolicy, base: PlanPolicy): PlanPolicy {
    PlanPolicy(AssignString(req.name, base.name),
               TakeNonZero(req.numOfTopics, base.numOfTopics),
               TakeNonZero(req.numOfNamespaces, base.numOfNamespaces),
               TakeNonZero(req.messageHourRetention, base.messageHourRetention),
               req.messageRetention,
               TakeNonZero(req.numOfProducers, base.numOfProducers),
               TakeNonZero(req.numOfConsumers, base.numOfConsumers),
               TakeNonZero(req.functions, base.functions),
               AssignString(req.featureCodes, base.featureCodes),
               req.reserved0, req.reserved1)
  }

  /** Patch composition: name, type and reserved fields are the later patch's own. */
  function Overlay(req: Plan, base: Plan): Plan {
    Plan(req.name, TakeTenantStatus(req.tenantStatus, base.tenantStatus), AssignString(req.org, base.org),
         AssignString(req.users, base.users), req.planType, req.updatedAt,
         OverlayPolicy(req.policy, base.policy), base.audit + "," + req.audit)
  }

  function WithRetention(p: Plan): Plan {
    p.(policy := p.policy.(messageRetention := Int64(p.policy.messageHourRetention * HOUR)))
  }

  function NewPlan(req: Plan): Plan
    requires ValidPlanType(req.planType)
  {
    req.(audit := AssignString(req.audit, "initial creation,"),
         policy := if req.policy == EMPTY_POLICY then PolicyOf(ToLower(req.planType)).value else req.policy,
         tenantStatus := TakeTenantStatus(req.tenantStatus, ACTIVATED))
  }

  function Reconciled(req: Plan, existing: Plan, now: int): Result<Plan> {
    var r := req.(updatedAt := now);
    if !ValidPlanType(req.planType) then Failure(InvalidPlanType)
    else if existing == EMPTY_PLAN then Success(NewPlan(r))
    else Success(WithRetention(Overlay(r, existing)))
  }

  method ReconcileTenantPlan(req: Plan, existingPlan: Plan, now: int) returns (r: Result<Plan>)
    ensures r == Reconciled(req, existingPlan, now)
  {
    var reqPlan := req.(updatedAt := now);
    var reqPlanPolicy := PolicyOf(ToLower(reqPlan.planType));
    if reqPlanPolicy.None? {
      return Failure(InvalidPlanType);
    }
    if existingPlan == EMPTY_PLAN {
      if reqPlan.audit == "" {
        reqPlan := reqPlan.(audit := "initial creation,");
      }
      if reqPlan.policy == EMPTY_POLICY {
        reqPlan := reqPlan.(policy := reqPlanPolicy.value);
      }
      reqPlan := reqPlan.(tenantStatus := TakeTenantStatus(reqPlan.tenantStatus, ACTIVATED));
      return Success(reqPlan);
    }
    var p, e := reqPlan.policy, existingPlan.policy;
    p := p.(numOfTopics := TakeNonZero(p.numOfTopics, e.numOfTopics));
    p := p.(numOfNamespaces := TakeNonZero(p.numOfNamespaces, e.numOfNamespaces));
    p := p.(numOfProducers := TakeNonZero(p.numOfProducers, e.numOfProducers));
    p := p.(numOfConsumers := TakeNonZero(p.numOfConsumers, e.numOfConsumers));
    p := p.(functions := TakeNonZero(p.functions, e.functions));
    p := p.(name := AssignString(p.name, e.name));
    p := p.(featureCodes := AssignString(p.featureCodes, e.featureCodes));
    if p.messageHourRetention == 0 {
      p := p.(messageHourRetention := e.messageHourRetention);
    }
    p := p.(messageRetention := Int64(p.messageHourRetention * HOUR));
    reqPlan := reqPlan.(policy := p);
    reqPlan := reqPlan.(tenantStatus := TakeTenantStatus(reqPlan.tenantStatus, existingPlan.tenantStatus));
    reqPlan := reqPlan.(org := AssignString(reqPlan.org, existingPlan.org));
    reqPlan := reqPlan.(users := AssignString(reqPlan.users, existingPlan.users));
    reqPlan := reqPlan.(audit := existingPlan.audit + "," + reqPlan.audit);
    return Success(reqPlan);
  }

  // ---- The algebra of patches ----

  lemma OverlayAssociative(r1: Plan, r2: Plan, r3: Plan)
    ensures Overlay(r3, Overlay(r2, r1)) == Overlay(Overlay(r3, r2), r1)
  {
  }

  /** Two accepted updates amount to one: the second patch laid over the first. */
  lemma TwoPatches(r1: Plan, r2: Plan, existing: Plan, t1: int, t2: int)
    requires existing != EMPTY_PLAN && ValidPlanType(r1.planType) && ValidPlanType(r2.planType)
    ensures Reconciled(r2, Reconciled(r1, existing, t1).value, t2) == Reconciled(Overlay(r2, r1), existing, t2)
  {
    var mid := Reconciled(r1, existing, t1).value;
    assert ValidPlanType(mid.planType) && !ValidPlanType("");
    OverlayAssociative(existing, r1, r2);
  }

  /** A chain of updates, each at its own time, all accepted or the chain refused. */
  function ApplyAll(rs: seq<Plan>, existing: Plan, times: seq<int>): Result<Plan>
    requires |rs| == |times|
    decreases |rs|
  {
    if rs == [] then Success(existing) else
      match Reconciled(rs[0], existing, times[0])
      case Failure(e) => Failure(e)
      case Success(p) => ApplyAll(rs[1..], p, times[1..])
  }

  function OverlayAll(rs: seq<Plan>): Plan
    requires rs != []
  {
    if |rs| == 1 then rs[0] else Overlay(rs[|rs| - 1], OverlayAll(rs[..|rs| - 1]))
  }

  lemma ApplyAllFirst(rs: seq<Plan>, existing: Plan, times: seq<int>)
    requires rs != [] && |rs| == |times| && ValidPlanType(rs[0].planType)
    ensures ApplyAll(rs, existing, times) == ApplyAll(rs[1..], Reconciled(rs[0], existing, times[0]).value, times[1..])
  {
  }

  lemma {:induction false} ApplyAllLast(rs: seq<Plan>, existing: Plan, times: seq<int>)
    requires rs != [] && |rs| == |times|
    requires forall k :: 0 <= k < |rs| ==> ValidPlanType(rs[k].planType)
    ensures var n := |rs| - 1;
            var front := ApplyAll(rs[..n], existing, times[..n]);
            front.Success? && ApplyAll(rs, existing, times) == Reconciled(rs[n], front.value, times[n])
    decreases |rs|
  {
    var n := |rs| - 1;
    ApplyAllFirst(rs, existing, times);
    if n == 0 {
      assert rs[..n] == [] && times[..n] == [];
    } else {
      ApplyAllFirst(rs[..n], existing, times[..n]);
      ApplyAllLast(rs[1..], Reconciled(rs[0], existing, times[0]).value, times[1..]);
      assert rs[..n][1..] == rs[1..][..n - 1] && times[..n][1..] == times[1..][..n - 1];
    }
  }

  /** Any chain of accepted updates amounts to a single update, at the time of the last, with the
      patches laid over each other in order. */
  lemma {:induction false} PatchChain(rs: seq<Plan>, existing: Plan, times: seq<int>)
    requires rs != [] && |rs| == |times| && existing != EMPTY_PLAN
    requires forall k :: 0 <= k < |rs| ==> ValidPlanType(rs[k].planType)
    ensures ApplyAll(rs, existing, times) == Reconciled(OverlayAll(rs), existing, times[|times| - 1])
    decreases |rs|
  {
    var n := |rs| - 1;
    ApplyAllLast(rs, existing, times);
    if n > 0 {
      PatchChain(rs[..n], existing, times[..n]);
      OverlayAllType(rs[..n]);
      TwoPatches(OverlayAll(rs[..n]), rs[n], existing, times[n - 1], times[n]);
    }
  }

  lemma OverlayAllType(rs: seq<Plan>)
    requires rs != []
    ensures OverlayAll(rs).planType == rs[|rs| - 1].planType
  {
  }

  /** An accepted update keeps the audit trail as a prefix, and leaves the status reserved only if both
      sides were. */
  lemma AcceptedUpdate(req: Plan, existing: Plan, now: int)
    requires Reconciled(req, existing, now).Success?
    ensures var p := Reconciled(req, existing, now).value;
            && p != EMPTY_PLAN && p.updatedAt == now && p.name == req.name
            && existing.audit <= p.audit
            && (p.tenantStatus == RESERVED0 <==>
                  existing != EMPTY_PLAN && req.tenantStatus == RESERVED0 && existing.tenantStatus == RESERVED0)
  {
  }

  lemma {:induction false} ChainKeeps(rs: seq<Plan>, existing: Plan, times: seq<int>)
    requires |rs| == |times| && ApplyAll(rs, existing, times).Success?
    requires existing == EMPTY_PLAN || existing.tenantStatus != RESERVED0
    ensures var p := ApplyAll(rs, existing, times).value;
            && existing.audit <= p.audit
            && (p == EMPTY_PLAN || p.tenantStatus != RESERVED0)
    decreases |rs|
  {
    if rs != [] {
      AcceptedUpdate(rs[0], existing, times[0]);
      ChainKeeps(rs[1..], Reconciled(rs[0], existing, times[0]).value, times[1..]);
    }
  }

  lemma HoursFit(h: int)
    ensures Int64(h * HOUR) == h * HOUR <==> -2_562_047 <= h <= 2_562_047
  {
  }

  predicate RetentionMatches(policy: PlanPolicy) {
    policy.messageRetention == policy.messageHourRetention * 3_600_000_000_000
  }

  /** The stored retention is the stored hours: on an update exactly when the request's hours, or the
      existing plan's where it has none, fit a time.Duration, on a creation exactly when the request's own two values agree or it leaves the
      whole policy to the plan type. */
  lemma RetentionExact(req: Plan, existing: Plan, now: int)
    requires Reconciled(req, existing, now).Success?
    ensures var policy := Reconciled(req, existing, now).value.policy;
            RetentionMatches(policy) <==>
            if existing == EMPTY_PLAN then req.policy == EMPTY_POLICY || RetentionMatches(req.policy)
            else
              var hours := TakeNonZero(req.policy.messageHourRetention, existing.policy.messageHourRetention);
              -2_562_047 <= hours <= 2_562_047
  {
    HoursFit(TakeNonZero(req.policy.messageHourRetention, existing.policy.messageHourRetention));
  }

  /** A new plan asked for with 24 hours only is stored with no retention at all; asked for again, as an
      update, it gets them. */
  lemma CreationIgnoresHours(now: int)
    ensures var req := EMPTY_PLAN.(planType := FREE_TIER, policy := EMPTY_POLICY.(messageHourRetention := 24));
            var created := Reconciled(req, EMPTY_PLAN, now);
            && created.Success? && created.value.policy.messageHourRetention == 24
            && created.value.policy.messageRetention == 0
            && Reconciled(req, created.value, now).value.policy.messageRetention == 24 * HOUR
  {
    FreeTierIsValid();
  }

  lemma FreeTierIsValid()
    ensures ToLower(FREE_TIER) == FREE_TIER && ValidPlanType(FREE_TIER)
  {
    assert ToLower(FREE_TIER) == FREE_TIER;
  }

  // ---- What a request sets ----

  /** Every field of an update: what the request sets, and the existing plan's where it sets nothing.
      Type, time and reserved fields are the request's, the audit trail grows by the request's. */
  lemma UpdateSets(req: Plan, existing: Plan, now: int)
    requires Reconciled(req, existing, now).Success? && existing != EMPTY_PLAN
    ensures var p := Reconciled(req, existing, now).value;
            && p.name == req.name && p.planType == req.planType && p.updatedAt == now
            && p.audit == existing.audit + "," + req.audit
            && p.tenantStatus == (if req.tenantStatus != 0 then req.tenantStatus else existing.tenantStatus)
            && p.org == (if req.org != "" then req.org else existing.org)
            && p.users == (if req.users != "" then req.users else existing.users)
    ensures var p, r, e := Reconciled(req, existing, now).value.policy, req.policy, existing.policy;
            && p.name == (if r.name != "" then r.name else e.name)
            && p.featureCodes == (if r.featureCodes != "" then r.featureCodes else e.featureCodes)
            && p.numOfTopics == (if r.numOfTopics != 0 then r.numOfTopics else e.numOfTopics)
            && p.numOfNamespaces == (if r.numOfNamespaces != 0 then r.numOfNamespaces else e.numOfNamespaces)
            && p.numOfProducers == (if r.numOfProducers != 0 then r.numOfProducers else e.numOfProducers)
            && p.numOfConsumers == (if r.numOfConsumers != 0 then r.numOfConsumers else e.numOfConsumers)
            && p.functions == (if r.functions != 0 then r.functions else e.functions)
            && p.messageHourRetention ==
               (if r.messageHourRetention != 0 then r.messageHourRetention else e.messageHourRetention)
            && p.reserved0 == r.reserved0 && p.reserved1 == r.reserved1
  {
  }

  /** Of the values given in turn the last one set, or the initial one if none is. */
  ghost predicate LastSet<T>(values: seq<T>, unset: T, initial: T, result: T) {
    || (exists k :: 0 <= k < |values| && result == values[k] != unset &&
                    forall j :: k < j < |values| ==> values[j] == unset)
    || (result == initial && forall j :: 0 <= j < |values| ==> values[j] == unset)
  }

  lemma LastSetMore<T>(values: seq<T>, unset: T, initial: T, result: T)
    requires values != []
    requires LastSet(values[1..], unset, if values[0] != unset then values[0] else initial, result)
    ensures LastSet(values, unset, initial, result)
  {
    var rest := values[1..];
    if k :| 0 <= k < |rest| && result == rest[k] != unset && forall j :: k < j < |rest| ==> rest[j] == unset {
      assert values[k + 1] == result;
      assert forall j :: k + 1 < j < |values| ==> values[j] == rest[j - 1];
    } else {
      assert forall j :: 0 < j < |values| ==> values[j] == rest[j - 1];
    }
  }

  datatype NumberField = Topics | Namespaces | Hours | Producers | Consumers | Functions | Status
  datatype TextField = Org | Users | PolicyName | FeatureCodes

  function Number(p: Plan, f: NumberField): int {
    match f
    case Topics => p.policy.numOfTopics
    case Namespaces => p.policy.numOfNamespaces
    case Hours => p.policy.messageHourRetention
    case Producers => p.policy.numOfProducers
    case Consumers => p.policy.numOfConsumers
    case Functions => p.policy.functions
    case Status => p.tenantStatus
  }

  function TextOf(p: Plan, f: TextField): string {
    match f
    case Org => p.org
    case Users => p.users
    case PolicyName => p.policy.name
    case FeatureCodes => p.policy.featureCodes
  }

  function Numbers(rs: seq<Plan>, f: NumberField): (values: seq<int>)
    ensures |values| == |rs|
  {
    seq(|rs|, i requires 0 <= i < |rs| => Number(rs[i], f))
  }

  function Texts(rs: seq<Plan>, f: TextField): (values: seq<string>)
    ensures |values| == |rs|
  {
    seq(|rs|, i requires 0 <= i < |rs| => TextOf(rs[i], f))
  }

  /** Over any chain of accepted updates each field is that of the last request that sets it, or else the
      existing plan's. */
  lemma {:induction false} ChainSetsNumber(rs: seq<Plan>, existing: Plan, times: seq<int>, f: NumberField)
    requires |rs| == |times| && ApplyAll(rs, existing, times).Success? && existing != EMPTY_PLAN
    ensures LastSet(Numbers(rs, f), 0, Number(existing, f), Number(ApplyAll(rs, existing, times).value, f))
    decreases |rs|
  {
    if rs != [] {
      var next := Reconciled(rs[0], existing, times[0]).value;
      AcceptedUpdate(rs[0], existing, times[0]);
      UpdateSets(rs[0], existing, times[0]);
      ChainSetsNumber(rs[1..], next, times[1..], f);
      assert Numbers(rs, f)[1..] == Numbers(rs[1..], f);
      LastSetMore(Numbers(rs, f), 0, Number(existing, f), Number(ApplyAll(rs, existing, times).value, f));
    }
  }

  lemma {:induction false} ChainSetsText(rs: seq<Plan>, existing: Plan, times: seq<int>, f: TextField)
    requires |rs| == |times| && ApplyAll(rs, existing, times).Success? && existing != EMPTY_PLAN
    ensures LastSet(Texts(rs, f), "", TextOf(existing, f), TextOf(ApplyAll(rs, existing, times).value, f))
    decreases |rs|
  {
    if rs != [] {
      var next := Reconciled(rs[0], existing, times[0]).value;
      AcceptedUpdate(rs[0], existing, times[0]);
      UpdateSets(rs[0], existing, times[0]);
      ChainSetsText(rs[1..], next, times[1..], f);
      assert Texts(rs, f)[1..] == Texts(rs[1..], f);
      LastSetMore(Texts(rs, f), "", TextOf(existing, f), TextOf(ApplyAll(rs, existing, times).value, f));
    }
  }

  /** A creation keeps the request as it is, but for what it leaves out: the policy of its plan type, the
      status 1 (activated), and a first word of audit. */
  lemma CreationSets(req: Plan, now: int)
    requires ValidPlanType(req.planType)
    ensures var none := PlanPolicy("", 0, 0, 0, 0, 0, 0, 0, "", "", "");
            var r := Reconciled(req, Plan("", 0, "", "", "", 0, none, ""), now);
            && r.Success?
            && r.value == req.(updatedAt := now, tenantStatus := r.value.tenantStatus, audit := r.value.audit,
                               policy := r.value.policy)
            && r.value.tenantStatus == (if req.tenantStatus != 0 then req.tenantStatus else 1)
            && r.value.audit == (if req.audit != "" then req.audit else "initial creation,")
            && (req.policy != none ==> r.value.policy == req.policy)
            && (req.policy == none ==> Some(r.value.policy) == PolicyOf(ToLower(req.planType)))
  {
  }

  /** Upper and lower case of one letter, the dotted capital I and the Kelvin sign included. */
  predicate SameLetter(c: char, lower: char) {
    || c == lower
    || ('A' <= c <= 'Z' && c as int + 32 == lower as int)
    || (c == '\U{0130}' && lower == 'i') || (c == '\U{212A}' && lower == 'k')
  }

  ghost predicate Spells(s: string, word: string) {
    |s| == |word| && forall i :: 0 <= i < |s| ==> SameLetter(s[i], word[i])
  }

  lemma SpellsIff(s: string, word: string)
    requires forall i :: 0 <= i < |word| ==> 'a' <= word[i] <= 'z'
    ensures ToLower(s) == word <==> Spells(s, word)
  {
    if Spells(s, word) {
      assert ToLower(s) == word;
    }
    if ToLower(s) == word {
      forall i | 0 <= i < |s|
        ensures SameLetter(s[i], word[i])
      {
        assert ToLower(s)[i] == word[i];
      }
    }
  }

  /** The five plan types, in any mixture of cases, and their policies. */
  lemma PlanTypes(planType: string)
    ensures ValidPlanType(planType) <==>
            Spells(planType, "free") || Spells(planType, "starter") || Spells(planType, "production") ||
            Spells(planType, "dedicated") || Spells(planType, "private")
    ensures PolicyOf("free") == Some(PlanPolicy("free", 5, 1, 48, 172_800_000_000_000, 3, 5, 1, "all-disabled", "", ""))
    ensures PolicyOf("starter") ==
            Some(PlanPolicy("starter", 20, 2, 168, 604_800_000_000_000, 30, 50, 10, "all-disabled", "", ""))
    ensures PolicyOf("production") ==
            Some(PlanPolicy("production", 100, 6, 336, 1_209_600_000_000_000, 60, 100, 20, "all-disabled", "", ""))
    ensures PolicyOf("dedicated") ==
            Some(PlanPolicy("dedicated", 1000, 500, 504, 1_814_400_000_000_000, 300, 500, 30, "all-disabled", "", ""))
    ensures PolicyOf("private") ==
            Some(PlanPolicy("private", 5000, 1000, 672, 2_419_200_000_000_000, -1, -1, -1, "all-enabled", "", ""))
  {
    SpellsIff(planType, "free");
    SpellsIff(planType, "starter");
    SpellsIff(planType, "production");
    SpellsIff(planType, "dedicated");
    SpellsIff(planType, "private");
  }

  // ---- What an update takes from the existing plan ----

  /** The fields an update may keep are the same in both: of the policies, all but the retention and the
      reserved ones. */
  predicate SameMerged(a: Plan, b: Plan) {
    && a.tenantStatus == b.tenantStatus && a.org == b.org && a.users == b.users && a.audit == b.audit
    && OverlayPolicy(EMPTY_POLICY, a.policy) == OverlayPolicy(EMPTY_POLICY, b.policy)
  }

  /** An update by one or the other is the same. */
  predicate SameBase(a: Plan, b: Plan) {
    (a == EMPTY_PLAN <==> b == EMPTY_PLAN) && SameMerged(a, b)
  }

  lemma SameBaseSuffices(req: Plan, a: Plan, b: Plan, now: int)
    requires SameBase(a, b)
    ensures Reconciled(req, a, now) == Reconciled(req, b, now)
  {
  }

  /** A request that sets nothing but its type and a word of audit. */
  function Probe(name: string): Plan {
    EMPTY_PLAN.(name := name, planType := FREE_TIER, audit := "x")
  }

  /** It tells different plans apart. */
  lemma ProbeTells(name: string, a: Plan, b: Plan, now: int)
    requires Reconciled(Probe(name), a, now) == Reconciled(Probe(name), b, now)
    ensures SameBase(a, b)
  {
    FreeTierIsValid();
    var ra, rb := Reconciled(Probe(name), a, now).value, Reconciled(Probe(name), b, now).value;
    assert a != EMPTY_PLAN ==> ra.audit[..|ra.audit| - 2] == a.audit;
    assert b != EMPTY_PLAN ==> rb.audit[..|rb.audit| - 2] == b.audit;
  }

  function NewFreeTenantPlan(name: string, now: int): Plan {
    Plan(name, ACTIVATED, "", "", FREE_TIER, now, PolicyOf(FREE_TIER).value, "automatically created free plan")
  }
}
