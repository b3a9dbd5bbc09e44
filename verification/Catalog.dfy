/** The feature catalogue, what a plan may grant, and the admin edits of plans. */
module Catalog {
  import opened Wrappers
  import opened Periods

  const UNLIMITED: int := -1

  datatype FeatureKey =
    | LinksMax | PublishesLimit | CustomDomainsMax | RecruiterChatsLimit | ChatMessagesPerSession
    | AiTokensLimit | ChatHistoryDays | RecruiterInsights | CalendarBooking | MeetingsLimit
    | RemoveBadge | ModelSelection

  datatype FeatureKind = Stock | Flow | Session | Window | Gate

  datatype FeatureValueType = IntType | BoolType

  datatype FeatureValue = FeatureValue(intValue: Option<int>, boolValue: Option<bool>, period: Option<QuotaPeriod>)

  type FeatureMatrix = map<FeatureKey, FeatureValue>

  datatype Plan = Plan(name: string, isDefaultFree: bool, features: FeatureMatrix)

  function Kind(key: FeatureKey): FeatureKind {
    match key
    case LinksMax | CustomDomainsMax => Stock
    case PublishesLimit | RecruiterChatsLimit | AiTokensLimit | MeetingsLimit => Flow
    case ChatMessagesPerSession => Session
    case ChatHistoryDays => Window
    case RecruiterInsights | CalendarBooking | RemoveBadge | ModelSelection => Gate
  }

  function ValueType(key: FeatureKey): FeatureValueType {
    if Kind(key).Gate? then BoolType else IntType
  }

  function DefaultPeriod(key: FeatureKey): Option<QuotaPeriod> {
    match key
    case PublishesLimit | MeetingsLimit => Some(Lifetime)
    case RecruiterChatsLimit | AiTokensLimit => Some(Monthly)
    case _ => None
  }

  /** The catalogue entry a request names, if there is one. */
  function Lookup(name: string): Option<FeatureKey> {
    match name
    case "links_max" => Some(LinksMax)
    case "publishes_limit" => Some(PublishesLimit)
    case "custom_domains_max" => Some(CustomDomainsMax)
    case "recruiter_chats_limit" => Some(RecruiterChatsLimit)
    case "chat_messages_per_session" => Some(ChatMessagesPerSession)
    case "ai_tokens_limit" => Some(AiTokensLimit)
    case "chat_history_days" => Some(ChatHistoryDays)
    case "recruiter_insights" => Some(RecruiterInsights)
    case "calendar_booking" => Some(CalendarBooking)
    case "meetings_limit" => Some(MeetingsLimit)
    case "remove_badge" => Some(RemoveBadge)
    case "model_selection" => Some(ModelSelection)
    case _ => None
  }

  datatype Problem = TakesAnInteger | BelowUnlimited | TakesABoolean | UsesNoPeriod

  function ValidateFeatureValue(key: FeatureKey, v: FeatureValue): Option<Problem> {
    if ValueType(key).IntType? && (v.intValue.None? || v.boolValue.Some?) then Some(TakesAnInteger)
    else if ValueType(key).IntType? && v.intValue.value < UNLIMITED then Some(BelowUnlimited)
    else if ValueType(key).BoolType? && (v.boolValue.None? || v.intValue.Some?) then Some(TakesABoolean)
    else if v.period.Some? && !Kind(key).Flow? then Some(UsesNoPeriod)
    else None
  }

  /** What a stored cell must look like: one value of the right type, no integer below -1, and a
      period exactly on the flow features. */
  predicate WellTyped(key: FeatureKey, v: FeatureValue) {
    && (ValueType(key).IntType? ==> v.intValue.Some? && v.intValue.value >= UNLIMITED && v.boolValue.None?)
    && (ValueType(key).BoolType? ==> v.boolValue.Some? && v.intValue.None?)
    && (v.period.Some? <==> Kind(key).Flow?)
  }

  ghost predicate CompleteMatrix(features: FeatureMatrix) {
    forall key: FeatureKey :: key in features && WellTyped(key, features[key])
  }

  function ClosedOrCopied(key: FeatureKey, source: FeatureMatrix): FeatureValue {
    if key in source then source[key]
    else if ValueType(key).IntType? then FeatureValue(Some(0), None, DefaultPeriod(key))
    else FeatureValue(None, Some(false), None)
  }

  /** An edit keeps a flow feature's period unless the admin sets another one. */
  function EditedValue(key: FeatureKey, v: FeatureValue, current: FeatureMatrix): FeatureValue {
    if v.period.None? && DefaultPeriod(key).Some? then
      v.(period := if key in current && current[key].period.Some? then current[key].period else DefaultPeriod(key))
    else v
  }

  lemma AcceptedEditIsWellTyped(key: FeatureKey, v: FeatureValue, current: FeatureMatrix)
    requires key in current ==> WellTyped(key, current[key])
    ensures ValidateFeatureValue(key, v).None? <==> WellTyped(key, EditedValue(key, v, current))
  {}

  /** The matrix of a plan nobody has configured yet. */
  ghost predicate GrantsNothing(features: FeatureMatrix) {
    forall key: FeatureKey ::
      && key in features
      && features[key].intValue in {None, Some(0)}
      && features[key].boolValue in {None, Some(false)}
      && features[key].period == DefaultPeriod(key)
  }

  datatype AdminError = Conflict | NotFound | ValidationFailed

  /** One row of an edit request: the name the admin sent and the value. */
  datatype Edit = Edit(name: string, value: FeatureValue)

  predicate Acceptable(e: Edit) {
    Lookup(e.name).Some? && ValidateFeatureValue(Lookup(e.name).value, e.value).None?
  }

  predicate DistinctNames(edits: seq<Edit>) {
    forall i, j :: 0 <= i < j < |edits| ==> edits[i].name != edits[j].name
  }

  function NameOf(key: FeatureKey): string {
    match key
    case LinksMax => "links_max"
    case PublishesLimit => "publishes_limit"
    case CustomDomainsMax => "custom_domains_max"
    case RecruiterChatsLimit => "recruiter_chats_limit"
    case ChatMessagesPerSession => "chat_messages_per_session"
    case AiTokensLimit => "ai_tokens_limit"
    case ChatHistoryDays => "chat_history_days"
    case RecruiterInsights => "recruiter_insights"
    case CalendarBooking => "calendar_booking"
    case MeetingsLimit => "meetings_limit"
    case RemoveBadge => "remove_badge"
    case ModelSelection => "model_selection"
  }

  lemma LookupFindsNames(name: string)
    ensures Lookup(name).Some? ==> NameOf(Lookup(name).value) == name
  {}

  /** Distinct names are distinct features. */
  lemma LookupInjective(a: string, b: string)
    requires Lookup(a).Some? && Lookup(a) == Lookup(b)
    ensures a == b
  {
    hide Lookup, NameOf;
    LookupFindsNames(a);
    LookupFindsNames(b);
  }

  predicate Unnamed(edits: seq<Edit>, key: FeatureKey) {
    forall i :: 0 <= i < |edits| ==> Lookup(edits[i].name) != Some(key)
  }

  /** The matrix after an accepted edit: the named cells changed, every other cell kept. */
  ghost predicate Edited(edits: seq<Edit>, before: FeatureMatrix, after: FeatureMatrix) {
    && (forall i :: 0 <= i < |edits| && Acceptable(edits[i]) ==>
          var key := Lookup(edits[i].name).value;
          key in after && after[key] == EditedValue(key, edits[i].value, before))
    && (forall key: FeatureKey :: Unnamed(edits, key) ==>
          (key in after <==> key in before) && (key in before ==> after[key] == before[key]))
  }

  /** What an accepted edit leaves in its cell: the admin's value, and the period the cell had unless the admin sets
      another. */
  lemma EditedCells(edits: seq<Edit>, before: FeatureMatrix, after: FeatureMatrix, i: nat)
    requires CompleteMatrix(before) && Edited(edits, before, after) && i < |edits| && Acceptable(edits[i])
    ensures var key, v := Lookup(edits[i].name).value, edits[i].value;
            && key in before && key in after
            && after[key].intValue == v.intValue && after[key].boolValue == v.boolValue
            && after[key].period == if v.period.Some? then v.period else before[key].period
  {
    hide Lookup;
    assert WellTyped(Lookup(edits[i].name).value, before[Lookup(edits[i].name).value]);
  }

  /** A complete matrix stays complete under an accepted edit. */
  lemma EditsKeepComplete(edits: seq<Edit>, before: FeatureMatrix, after: FeatureMatrix)
    requires CompleteMatrix(before) && Edited(edits, before, after)
    requires forall i :: 0 <= i < |edits| ==> Acceptable(edits[i])
    ensures CompleteMatrix(after)
  {
    hide Lookup, ValidateFeatureValue, WellTyped;
    forall key: FeatureKey ensures key in after && WellTyped(key, after[key]) {
      if i :| 0 <= i < |edits| && Lookup(edits[i].name) == Some(key) {
        AcceptedEditIsWellTyped(key, edits[i].value, before);
      }
    }
  }

  lemma SeedsAreComplete()
    ensures CompleteMatrix(FREE_PLAN.features) && CompleteMatrix(PREMIUM_PLAN.features)
  {
    FreeSeedIsComplete();
    PremiumSeedIsComplete();
    hide FREE_PLAN, PREMIUM_PLAN, CompleteMatrix;
  }

  lemma FreeSeedIsComplete()
    ensures CompleteMatrix(FREE_PLAN.features)
  {
    hide PREMIUM_PLAN;
    forall key: FeatureKey ensures key in FREE_PLAN.features && WellTyped(key, FREE_PLAN.features[key]) {
      match key
      case LinksMax =>
      case _ =>
    }
  }

  lemma PremiumSeedIsComplete()
    ensures CompleteMatrix(PREMIUM_PLAN.features)
  {
    hide FREE_PLAN;
    forall key: FeatureKey ensures key in PREMIUM_PLAN.features && WellTyped(key, PREMIUM_PLAN.features[key]) {
      match key
      case LinksMax =>
      case _ =>
    }
  }

  function FlowSeed(limit: int, period: QuotaPeriod): FeatureValue {
    FeatureValue(Some(limit), None, Some(period))
  }

  function IntSeed(limit: int): FeatureValue {
    FeatureValue(Some(limit), None, None)
  }

  function BoolSeed(on: bool): FeatureValue {
    FeatureValue(None, Some(on), None)
  }

  const FREE_PLAN: Plan := Plan("Free", true, map[
    LinksMax := IntSeed(1), PublishesLimit := FlowSeed(3, Lifetime), CustomDomainsMax := IntSeed(0),
    RecruiterChatsLimit := FlowSeed(20, Monthly), ChatMessagesPerSession := IntSeed(UNLIMITED),
    AiTokensLimit := FlowSeed(200_000, Monthly), ChatHistoryDays := IntSeed(7),
    RecruiterInsights := BoolSeed(false), CalendarBooking := BoolSeed(true),
    MeetingsLimit := FlowSeed(2, Lifetime), RemoveBadge := BoolSeed(false), ModelSelection := BoolSeed(false)])

  const PREMIUM_PLAN: Plan := Plan("Premium", false, map[
    LinksMax := IntSeed(5), PublishesLimit := FlowSeed(UNLIMITED, Lifetime), CustomDomainsMax := IntSeed(5),
    RecruiterChatsLimit := FlowSeed(UNLIMITED, Monthly), ChatMessagesPerSession := IntSeed(UNLIMITED),
    AiTokensLimit := FlowSeed(5_000_000, Monthly), ChatHistoryDays := IntSeed(UNLIMITED),
    RecruiterInsights := BoolSeed(true), CalendarBooking := BoolSeed(true),
    MeetingsLimit := FlowSeed(UNLIMITED, Lifetime), RemoveBadge := BoolSeed(true), ModelSelection := BoolSeed(true)])

  /** An unlimited allowance is more than any other. */
  predicate AtLeast(more: FeatureValue, less: FeatureValue) {
    && (less.intValue.Some? ==>
          more.intValue.Some?
          && (more.intValue.value == UNLIMITED
              || (less.intValue.value != UNLIMITED && more.intValue.value >= less.intValue.value)))
    && (less.boolValue == Some(true) ==> more.boolValue == Some(true))
    && more.period == less.period
  }

  /** Premium takes nothing away: every allowance is at least that of the free plan, over the same window. */
  lemma PremiumGrantsMore(key: FeatureKey)
    ensures key in FREE_PLAN.features && key in PREMIUM_PLAN.features
    ensures AtLeast(PREMIUM_PLAN.features[key], FREE_PLAN.features[key])
    ensures key.LinksMax? ==> !AtLeast(FREE_PLAN.features[key], PREMIUM_PLAN.features[key])
  {
    match key
    case LinksMax =>
    case _ =>
  }

  /** The loop of an accepted edit over the plan's rows. */
  method ApplyEdits(edits: seq<Edit>, current: FeatureMatrix) returns (features: FeatureMatrix, changed: bool)
    requires DistinctNames(edits) && CompleteMatrix(current)
    requires forall i :: 0 <= i < |edits| ==> Acceptable(edits[i])
    ensures Edited(edits, current, features) && CompleteMatrix(features)
    ensures changed <==> features != current
  {
    hide Lookup, ValidateFeatureValue, WellTyped, Edited, EditedValue;
    UneditedIsEdited(current);
    features, changed := current, false;
    var i := 0;
    while i < |edits|
      invariant 0 <= i <= |edits|
      invariant Edited(edits[..i], current, features)
      invariant changed <==> features != current
    {
      var key := Lookup(edits[i].name).value;
      var value := EditedValue(key, edits[i].value, current);
      EditOneMore(edits, i, current, features);
      features := features[key := value];
      changed := changed || current[key] != value;
      i := i + 1;
    }
    assert edits[..i] == edits;
    EditsKeepComplete(edits, current, features);
  }

  lemma UneditedIsEdited(current: FeatureMatrix)
    ensures Edited([], current, current)
  {}

  lemma EditOneMore(edits: seq<Edit>, i: nat, before: FeatureMatrix, after: FeatureMatrix)
    requires DistinctNames(edits) && i < |edits| && Acceptable(edits[i]) && CompleteMatrix(before)
    requires Edited(edits[..i], before, after)
    ensures var key := Lookup(edits[i].name).value;
            && key in after && after[key] == before[key]
            && Edited(edits[..i + 1], before, after[key := EditedValue(key, edits[i].value, before)])
  {
    hide Lookup, ValidateFeatureValue, WellTyped, EditedValue, DistinctNames;
    FreshName(edits, i);
    assert edits[..i + 1] == edits[..i] + [edits[i]];
    forall key: FeatureKey | Unnamed(edits[..i + 1], key) ensures Unnamed(edits[..i], key) {
      forall k | 0 <= k < i ensures Lookup(edits[..i][k].name) != Some(key) {
        assert edits[..i + 1][k] == edits[..i][k];
      }
    }
    assert Unnamed(edits[..i], Lookup(edits[i].name).value);
  }

  lemma FreshName(edits: seq<Edit>, i: nat)
    requires DistinctNames(edits) && i < |edits| && Acceptable(edits[i])
    ensures forall k :: 0 <= k < i ==> Lookup(edits[..i][k].name) != Lookup(edits[i].name)
  {
    forall k | 0 <= k < i ensures Lookup(edits[..i][k].name) != Lookup(edits[i].name) {
      if Lookup(edits[k].name) == Lookup(edits[i].name) {
        LookupInjective(edits[k].name, edits[i].name);
      }
    }
  }

  /** The matrix of a new plan: a copy, or closed where there is nothing to copy. */
  ghost function NewFeatures(source: FeatureMatrix): FeatureMatrix {
    map key: FeatureKey | true :: ClosedOrCopied(key, source)
  }

  /** The plan a creation request makes. */
  ghost predicate IsNewPlan(plans: map<string, Plan>, slug: string, name: string, cloneFrom: Option<string>,
          plan: Plan) {
    && slug !in plans && (cloneFrom.Some? ==> cloneFrom.value in plans)
    && plan == Plan(name, false, NewFeatures(if cloneFrom.Some? then plans[cloneFrom.value].features else map[]))
  }

  lemma NewPlansAreComplete(source: FeatureMatrix)
    requires source == map[] || CompleteMatrix(source)
    ensures CompleteMatrix(NewFeatures(source))
  {
    forall key: FeatureKey ensures key in NewFeatures(source) && WellTyped(key, NewFeatures(source)[key]) {
      assert source != map[] ==> key in source;
    }
  }

  /** A clone is a copy of a complete matrix, and a plan made from nothing grants nothing. */
  lemma NewFeaturesAre(source: FeatureMatrix)
    ensures CompleteMatrix(source) ==> NewFeatures(source) == source
    ensures GrantsNothing(NewFeatures(map[]))
  {
    hide WellTyped;
    if CompleteMatrix(source) {
      assert forall key: FeatureKey :: key in source && NewFeatures(source)[key] == source[key];
    }
  }

  /** The plans table, with the catalogue version its edits bump after each commit. */
  class PlanTable {
    var plans: map<string, Plan>
    var defaultFree: Option<string>
    var version: nat

    /** Every plan is complete and well-typed, and only the free plan is the fallback. */
    ghost predicate Consistent()
      reads this
    {
      && (forall slug :: slug in plans ==> CompleteMatrix(plans[slug].features))
      && defaultFree == (if "free" in plans then Some("free") else None)
      && (forall slug :: slug in plans ==> (plans[slug].isDefaultFree <==> slug == "free"))
    }

    /** And there is one. */
    ghost predicate Valid()
      reads this
    {
      Consistent() && "free" in plans
    }

    /** A database nobody has seeded. */
    constructor ()
      ensures Consistent() && plans == map[] && version == 0
    {
      plans := map[];
      defaultFree := None;
      version := 0;
    }

    method CreatePlan(slug: string, name: string, cloneFrom: Option<string>) returns (r: Result<Plan, AdminError>)
      requires Valid()
      modifies this
      ensures Valid() && defaultFree == old(defaultFree)
      ensures r.Ok? <==> slug !in old(plans) && (cloneFrom.Some? ==> cloneFrom.value in old(plans))
      ensures r.Err? ==> plans == old(plans) && version == old(version)
                         && r.error == if slug in old(plans) then Conflict else NotFound
      ensures r.Ok? ==> plans == old(plans)[slug := r.value] && version == old(version) + 1
      ensures r.Ok? ==> IsNewPlan(old(plans), slug, name, cloneFrom, r.value)
      ensures r.Ok? && cloneFrom.Some? ==> r.value == Plan(name, false, old(plans)[cloneFrom.value].features)
      ensures r.Ok? && cloneFrom.None? ==>
            r.value.name == name && !r.value.isDefaultFree && GrantsNothing(r.value.features)
    {
      hide CompleteMatrix, GrantsNothing, ClosedOrCopied;
      if slug in plans {
        return Err(Conflict);
      }
      var source: FeatureMatrix := map[];
      if cloneFrom.Some? {
        if cloneFrom.value !in plans {
          return Err(NotFound);
        }
        source := plans[cloneFrom.value].features;
      }
      var features := map key: FeatureKey | true :: ClosedOrCopied(key, source);
      NewPlansAreComplete(source);
      NewFeaturesAre(source);
      var plan := Plan(name, false, features);
      plans := plans[slug := plan];
      version := version + 1;
      return Ok(plan);
    }

    method UpdateFeatures(slug: string, edits: seq<Edit>) returns (r: Result<bool, AdminError>)
      requires Valid() && DistinctNames(edits)
      modifies this
      ensures Valid() && defaultFree == old(defaultFree)
      ensures r.Ok? <==> slug in old(plans) && forall e :: e in edits ==> Acceptable(e)
      ensures r.Err? ==> plans == old(plans) && r.error == if slug in old(plans) then ValidationFailed else NotFound
      ensures r.Ok? ==> slug in plans
      ensures r.Ok? ==> plans == old(plans)[slug := old(plans)[slug].(features := plans[slug].features)]
      ensures r.Ok? ==> Edited(edits, old(plans)[slug].features, plans[slug].features)
      ensures version == old(version) + if plans != old(plans) then 1 else 0
    {
      hide CompleteMatrix, Edited;
      if slug !in plans {
        return Err(NotFound);
      }
      var i := 0;
      while i < |edits|
        invariant 0 <= i <= |edits|
        invariant forall k :: 0 <= k < i ==> Acceptable(edits[k])
        modifies {}
      {
        if !Acceptable(edits[i]) {
          return Err(ValidationFailed);
        }
        i := i + 1;
      }
      var features, changed := ApplyEdits(edits, plans[slug].features);
      if changed {
        plans := plans[slug := plans[slug].(features := features)];
        version := version + 1;
      } else {
        assert plans == plans[slug := plans[slug].(features := features)];
      }
      return Ok(changed);
    }

    /** `subscribers` is how many subscription rows ever named the plan. */
    method DeletePlan(slug: string, subscribers: nat) returns (r: Result<(), AdminError>)
      requires Valid()
      modifies this
      ensures Valid() && defaultFree == old(defaultFree)
      ensures r.Ok? <==> slug in old(plans) && defaultFree != Some(slug) && subscribers == 0
      ensures r.Ok? ==> plans == old(plans) - {slug} && version == old(version) + 1
      ensures r.Err? ==> plans == old(plans) && version == old(version)
      ensures r.Err? ==> r.error == if slug !in old(plans) then NotFound
                                    else if defaultFree == Some(slug) then ValidationFailed else Conflict
    {
      if slug !in plans {
        return Err(NotFound);
      }
      if plans[slug].isDefaultFree {
        return Err(ValidationFailed);
      }
      if subscribers > 0 {
        return Err(Conflict);
      }
      plans := plans - {slug};
      version := version + 1;
      return Ok(());
    }

    /** Runs at start-up, on an empty table too: adds the default plans that are missing, never touching an
        edited one. */
    method EnsureCatalog()
      requires Consistent()
      modifies this
      ensures Valid() && version == old(version)
      ensures plans == map["free" := FREE_PLAN, "premium" := PREMIUM_PLAN] + old(plans)
    {
      SeedsAreComplete();
      AddMissing("free", FREE_PLAN);
      AddMissing("premium", PREMIUM_PLAN);
      MissingOnly(old(plans), FREE_PLAN, PREMIUM_PLAN);
    }

    /** One turn of the loop over the default plans. */
    method AddMissing(slug: string, seed: Plan)
      requires Consistent() && CompleteMatrix(seed.features) && (seed.isDefaultFree <==> slug == "free")
      modifies this
      ensures Consistent() && version == old(version)
      ensures plans == WithMissing(old(plans), slug, seed)
    {
      hide CompleteMatrix;
      if slug !in plans {
        plans := plans[slug := seed];
        defaultFree := if seed.isDefaultFree then Some(slug) else defaultFree;
      }
    }
  }

  function WithMissing(plans: map<string, Plan>, slug: string, seed: Plan): map<string, Plan> {
    if slug in plans then plans else plans[slug := seed]
  }

  lemma MissingOnly(plans: map<string, Plan>, free: Plan, premium: Plan)
    ensures WithMissing(WithMissing(plans, "free", free), "premium", premium)
         == map["free" := free, "premium" := premium] + plans
  {
    assert "free" != "premium" by {
      assert |"free"| != |"premium"|;
    }
  }
}
