/**
  What an outbox event means: its type as stored and read back, its retry
  counter inside the payload, and the cache invalidations computed from it.
*/
module OutboxEvents {
  import opened Wrappers
  import opened Json

  const U32: nat := 0x1_0000_0000

  type u32 = n: nat | n < U32 witness 0

  datatype EventType =
    | UserContextUpdated
    | PreferenceUpdated
    | TaskContextUpdated
    | MemoryPromoted
    | MemoryRevoked
    | MemoryExpired
    | PermissionChanged
    | EngineProjectionFailed
    | MemoryProposed
    | MemoryQuarantined
    | ExperienceOutcomeRecorded

  datatype Action =
    | InvalidateUserContext(tenant: string, user: string)
    | InvalidateTaskContext(task: string)
    | InvalidatePermissions(tenant: string, user: string)
    | InvalidateCachePattern(pattern: string)
    | LogWarning

  datatype Actions = Run(list: seq<Action>) | MissingField(field: string)

  // ---- Reading the event type back ----

  /** The row mapper of the outbox table knows eight names; any other reads back as the first. */
  function Decode(kind: EventType): EventType {
    match kind
    case MemoryProposed => UserContextUpdated
    case MemoryQuarantined => UserContextUpdated
    case ExperienceOutcomeRecorded => UserContextUpdated
    case _ => kind
  }

  /** The eight known types are read back as they are, the other three as updates of a user context. */
  lemma DecodeMeaning(kind: EventType)
    ensures kind in {MemoryProposed, MemoryQuarantined, ExperienceOutcomeRecorded} ==> Decode(kind) == UserContextUpdated
    ensures kind !in {MemoryProposed, MemoryQuarantined, ExperienceOutcomeRecorded} ==> Decode(kind) == kind
  {
  }

  // ---- The retry counter ----

  /** A stored u64 is truncated to 32 bits. */
  function ExtractRetryCount(payload: Value): u32 {
    match Get(payload, "retry_count")
    case None => 0
    case Some(v) =>
      match AsU64(v)
      case None => 0
      case Some(n) => n % U32
  }

  function AugmentRetryCount(payload: Value, count: u32): Value {
    match payload
    case Object(fields) => Object(fields["retry_count" := Int(count)])
    case _ => Object(map["original_payload" := payload, "retry_count" := Int(count)])
  }

  /** The counter written is the counter read. */
  lemma AugmentThenExtract(payload: Value, count: u32)
    ensures ExtractRetryCount(AugmentRetryCount(payload, count)) == count
  {
  }

  // ---- Dispatch ----

  function PayloadStr(payload: Value, field: string): Option<string> {
    match Get(payload, field)
    case None => None
    case Some(v) => AsStr(v)
  }

  function UserActions(payload: Value, build: (string, string) -> seq<Action>): Actions {
    match PayloadStr(payload, "tenant_id")
    case None => MissingField("tenant_id")
    case Some(tenant) =>
      match PayloadStr(payload, "user_id")
      case None => MissingField("user_id")
      case Some(user) => Run(build(tenant, user))
  }

  function TenantPattern(tenant: string): Action {
    InvalidateCachePattern("tenant:" + tenant + "*")
  }

  /** `compute_invalidation_actions` */
  function ComputeActions(kind: EventType, payload: Value): Actions {
    match kind
    case UserContextUpdated | MemoryRevoked | MemoryExpired =>
      UserActions(payload, (t, u) => [InvalidateUserContext(t, u)])
    case PreferenceUpdated =>
      UserActions(payload, (t, u) => [InvalidateUserContext(t, u), InvalidateCachePattern("*" + u + "*")])
    case PermissionChanged =>
      UserActions(payload, (t, u) => [InvalidatePermissions(t, u)])
    case TaskContextUpdated =>
      (match PayloadStr(payload, "task_id")
       case None => MissingField("task_id")
       case Some(task) => Run([InvalidateTaskContext(task)]))
    case MemoryPromoted =>
      (match PayloadStr(payload, "tenant_id")
       case None => MissingField("tenant_id")
       case Some(tenant) => Run([TenantPattern(tenant)]))
    case EngineProjectionFailed => Run([LogWarning])
    case MemoryProposed | MemoryQuarantined | ExperienceOutcomeRecorded =>
      (match PayloadStr(payload, "tenant_id")
       case None => Run([TenantPattern("default")])
       case Some(tenant) => Run([TenantPattern(tenant)]))
  }

  /** What the worker computes for a stored event. */
  function Meaning(kind: EventType, payload: Value): Actions {
    ComputeActions(Decode(kind), payload)
  }

  // ---- What each event invalidates ----

  /** The payload is an object that holds this string under this name. */
  predicate Says(payload: Value, field: string, v: string) {
    payload.Object? && field in payload.fields && payload.fields[field] == Str(v)
  }

  ghost predicate Silent(payload: Value, field: string) {
    forall v :: !Says(payload, field, v)
  }

  /** Events about a user name the tenant and the user of their payload. */
  lemma UserEventMeaning(payload: Value, t: string, u: string)
    requires Says(payload, "tenant_id", t) && Says(payload, "user_id", u)
    ensures forall kind :: kind in {UserContextUpdated, MemoryRevoked, MemoryExpired} ==>
              ComputeActions(kind, payload) == Run([InvalidateUserContext(t, u)])
    ensures ComputeActions(PreferenceUpdated, payload)
         == Run([InvalidateUserContext(t, u), InvalidateCachePattern("*" + u + "*")])
    ensures ComputeActions(PermissionChanged, payload) == Run([InvalidatePermissions(t, u)])
  {
  }

  /** Events about a task name its id, events about memories the tenant's cache entries. */
  lemma OtherEventMeaning(payload: Value, v: string)
    ensures Says(payload, "task_id", v) ==> ComputeActions(TaskContextUpdated, payload) == Run([InvalidateTaskContext(v)])
    ensures Says(payload, "tenant_id", v) ==>
              forall kind :: kind in {MemoryPromoted, MemoryProposed, MemoryQuarantined, ExperienceOutcomeRecorded} ==>
                ComputeActions(kind, payload) == Run([InvalidateCachePattern("tenant:" + v + "*")])
    ensures ComputeActions(EngineProjectionFailed, payload) == Run([LogWarning])
  {
  }

  /** A required field that is missing or no string is reported, the tenant first; memory proposals fall back to a default. */
  lemma MissingFieldMeaning(payload: Value)
    ensures Silent(payload, "tenant_id") ==>
              forall kind :: kind in {UserContextUpdated, MemoryRevoked, MemoryExpired, PreferenceUpdated, PermissionChanged, MemoryPromoted}
                ==> ComputeActions(kind, payload) == MissingField("tenant_id")
    ensures !Silent(payload, "tenant_id") && Silent(payload, "user_id") ==>
              forall kind :: kind in {UserContextUpdated, MemoryRevoked, MemoryExpired, PreferenceUpdated, PermissionChanged}
                ==> ComputeActions(kind, payload) == MissingField("user_id")
    ensures Silent(payload, "task_id") ==> ComputeActions(TaskContextUpdated, payload) == MissingField("task_id")
    ensures Silent(payload, "tenant_id") ==>
              forall kind :: kind in {MemoryProposed, MemoryQuarantined, ExperienceOutcomeRecorded}
                ==> ComputeActions(kind, payload) == Run([InvalidateCachePattern("tenant:default*")])
  {
    SilentMeansNone(payload, "tenant_id");
    SilentMeansNone(payload, "user_id");
    SilentMeansNone(payload, "task_id");
    assert "tenant:" + "default" + "*" == "tenant:default*";
  }

  lemma SilentMeansNone(payload: Value, field: string)
    ensures Silent(payload, field) <==> PayloadStr(payload, field).None?
  {
    if PayloadStr(payload, field).Some? { assert Says(payload, field, PayloadStr(payload, field).value); }
  }

  /** The counter goes in beside the other fields of an object; any other payload is wrapped. */
  lemma AugmentMeaning(payload: Value, count: u32)
    ensures var after := AugmentRetryCount(payload, count);
            && after.Object? && "retry_count" in after.fields && after.fields["retry_count"] == Int(count)
            && (payload.Object? ==> forall field :: field != "retry_count" ==>
                  (field in after.fields <==> field in payload.fields)
                  && (field in payload.fields ==> after.fields[field] == payload.fields[field]))
            && (!payload.Object? ==> after.fields.Keys == {"original_payload", "retry_count"}
                                     && after.fields["original_payload"] == payload)
  {
  }

  predicate Counts(payload: Value, n: int) {
    payload.Object? && "retry_count" in payload.fields && payload.fields["retry_count"] == Int(n)
  }

  /** A counter is read modulo 2^32; without one, or with one that is no unsigned 64-bit number, the count is zero. */
  lemma ExtractMeaning(payload: Value)
    ensures forall n {:trigger Counts(payload, n)} ::
              Counts(payload, n) && 0 <= n < 0x1_0000_0000_0000_0000 ==> ExtractRetryCount(payload) == n % 0x1_0000_0000
    ensures (forall n :: 0 <= n < 0x1_0000_0000_0000_0000 ==> !Counts(payload, n)) ==> ExtractRetryCount(payload) == 0
  {
    if payload.Object? && "retry_count" in payload.fields && payload.fields["retry_count"].Int? {
      assert Counts(payload, payload.fields["retry_count"].n);
    }
  }

  lemma AugmentKeepsFields(payload: Value, count: u32, field: string)
    requires field == "tenant_id" || field == "user_id" || field == "task_id"
    ensures PayloadStr(AugmentRetryCount(payload, count), field) == PayloadStr(payload, field)
  {
    assert field[0] != "retry_count"[0] && field[0] != "original_payload"[0];
  }

  /** Bumping the counter changes no invalidation, whether the payload is an object or gets wrapped. */
  lemma AugmentKeepsMeaning(kind: EventType, payload: Value, count: u32)
    ensures ComputeActions(kind, AugmentRetryCount(payload, count)) == ComputeActions(kind, payload)
  {
    AugmentKeepsFields(payload, count, "tenant_id");
    AugmentKeepsFields(payload, count, "user_id");
    AugmentKeepsFields(payload, count, "task_id");
  }

  /** A retry, stored under the type that was read back, means what the first attempt meant. */
  lemma RetryKeepsMeaning(kind: EventType, payload: Value, count: u32)
    ensures Meaning(Decode(kind), AugmentRetryCount(payload, count)) == Meaning(kind, payload)
  {
    AugmentKeepsMeaning(Decode(kind), payload, count);
    assert Decode(Decode(kind)) == Decode(kind);
  }

  /** Storing and reading back keeps an event's meaning for every payload exactly for the eight known types. */
  lemma QueueKeepsMeaningIff(kind: EventType)
    ensures (forall payload :: Meaning(kind, payload) == ComputeActions(kind, payload))
       <==> kind !in {MemoryProposed, MemoryQuarantined, ExperienceOutcomeRecorded}
  {
    if kind in {MemoryProposed, MemoryQuarantined, ExperienceOutcomeRecorded} {
      assert Meaning(kind, Null) == MissingField("tenant_id");
      assert ComputeActions(kind, Null).Run?;
    } else {
      assert Decode(kind) == kind;
    }
  }
}
